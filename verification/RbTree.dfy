/** struct lustre_rb_tree and its operations, on nodes in memory. */
module RbTrees {
  import opened Options
  import opened References
  import opened Ordering
  import opened Shape
  import opened Rotations
  import opened Balance
  import opened Surgery
  import opened InsertDescent
  import opened InsertWalk
  import opened RemoveDescent
  import opened RemoveSurgery
  import opened Search
  import opened Words

  /** Bug stands for a LUSTRE_BUG_ON that halts the system. */
  datatype KernReturn = Success | NoSpace | InvalidArgument | Bug

  datatype Operations = Operations(comparator: Comparator, findComparator: Comparator)

  /** The settled subtree at q after lines 238-251. */
  ghost function Settled(f: Tree, q: Node, data: Item): Tree {
    if f.Leaf? then Branch(q, true, data, Leaf, Leaf) else Flipped(f)
  }

  ghost function Only(n: Node?): set<Node> { if n == null then {} else {n} }

  lemma {:induction false} InsertCounts(size: Word, items: seq<Item>, drift: int, x: Item, rank: Item -> int)
    requires Ascending(items, rank) && size == Wrapped(|items| + drift)
    ensures Increment(size) == Wrapped(|Inserted(items, x, rank)| + drift + if Holds(items, x, rank) then 1 else 0)
  {
    hide Inserted, Holds, Increment, Wrapped;
    Wraps(|items| + drift);
    InsertedLength(items, x, rank);
  }

  lemma {:induction false} RemoveCounts(size: Word, items: seq<Item>, drift: int, x: Item, rank: Item -> int)
    requires Ascending(items, rank) && size == Wrapped(|items| + drift)
    ensures Decrement(size) == Wrapped(|Removed(items, x, rank)| + drift - if Holds(items, x, rank) then 0 else 1)
  {
    hide Removed, Holds, Decrement, Wrapped;
    Wraps(|items| + drift);
    RemovedLength(items, x, rank);
  }

  class RbTree {
    const operations: Operations
    var root: Node?
    var size: Word

    /** The order that the comparator follows. */
    ghost const rank: Item -> int
    /** The tree at root. */
    ghost var shape: Tree
    ghost var ledger: Ledger
    /** How many insertions of stored items size counted, less the removals of items not stored. */
    ghost var drift: int

    /** A red-black search tree lies at root. */
    ghost predicate Sound()
      reads this, shape.Nodes()
    {
      Planted(shape, root) && Ascending(shape.Items(), rank) && Orders(operations.comparator, rank)
    }

    /** ... and the references taken and not yet released are those of the stored items, and size
        counts them, give or take the drift. */
    ghost predicate Valid()
      reads this, shape.Nodes()
    {
      Sound() && Accounts(ledger, shape.Items()) && size == Wrapped(|shape.Items()| + drift)
    }

    /** The stored items in ascending order. */
    ghost function Contents(): seq<Item>
      reads this
    {
      shape.Items()
    }

    constructor (operations: Operations)
      requires TotalPreorder(operations.comparator)
      ensures Valid() && Contents() == [] && size == 0 && shape == Leaf && drift == 0
      ensures ledger == Ledger(multiset{}, multiset{})
      ensures this.operations == operations
    {
      this.operations := operations;
      root, size := null, 0;
      rank := RankOf(operations.comparator);
      shape, ledger, drift := Leaf, Ledger(multiset{}, multiset{}), 0;
      new;
      EveryPreorderIsRanked(operations.comparator);
    }

    method NewNode(data: Item, canAlloc: bool) returns (node: Node?)
      modifies `ledger
      ensures node == null <==> !canAlloc
      ensures node != null ==> fresh(node) && Rep(Branch(node, true, data, Leaf, Leaf), node)
      ensures ledger == if canAlloc then old(ledger).Inc(data) else old(ledger)
    {
      if !canAlloc {
        return null;
      }
      node := new Node(true, data);
      ledger := ledger.Inc(data);
    }

    /** Lines 238-251: link in a new node at a null link, or flip the colours. */
    method Settle(p: Node?, q: Node?, dir: bool, data: Item, canAlloc: bool, ghost ctx: Ctx, ghost f: Tree)
      returns (n: Node?)
      requires Zip(ctx, f, q)
      requires q == null ==> p != null && p == ctx.Holder() && dir == ctx.Dir()
      modifies `ledger, (ctx.Nodes() + f.Nodes())`red, (ctx.Nodes() + f.Nodes())`link
      ensures n == null <==> f.Leaf? && !canAlloc
      ensures ledger == if f.Leaf? && canAlloc then old(ledger).Inc(data) else old(ledger)
      ensures n == null ==> Zip(ctx, f, null)
      ensures n != null && f.Leaf? ==> fresh(n) && Zip(ctx, Branch(n, true, data, Leaf, Leaf), n)
      ensures n != null && f.Branch? ==> n == q && Zip(ctx, Flipped(f), n)
    {
      n := q;
      assert allocated(ctx.Nodes()) && allocated(f.Nodes());
      if q == null {
        n := NewNode(data, canAlloc);
        if n != null {
          SetLink(p, dir, n, ctx, null);
        }
      } else {
        var both := BothRed(q, f);
        if both {
          FlipAt(q, ctx, f);
        }
      }
    }

    method BothRed(q: Node, ghost f: Tree) returns (both: bool)
      requires Rep(f, q)
      ensures both <==> BothKidsRed(f)
    {
      both := q.link.left != null && q.link.left.red && q.link.right != null && q.link.right.red;
      assert Rep(f.left, q.link.left) && Rep(f.right, q.link.right);
    }

    method FlipAt(q: Node, ghost ctx: Ctx, ghost f: Tree)
      requires BothKidsRed(f) && Zip(ctx, f, q)
      modifies f.Nodes()`red
      ensures Zip(ctx, Flipped(f), q)
    {
      assert allocated(ctx.Nodes());
      assert f.left.node in f.Nodes() && f.right.node in f.Nodes();
      FlippedKeeps(f);
      Flip(q, f);
      assert CtxRep(ctx, q);
    }

    /** Lines 253-262. */
    method RepairRedEdge(t: Node, g: Node?, p: Node?, q: Node, last: bool, ghost ctx: Ctx, ghost f: Tree)
      returns (bug: bool)
      requires Zip(ctx, f, q) && f.Branch?
      requires p == if ctx.Down? then ctx.node else null
      requires HasRedEdge(ctx, f) && g != null ==>
                 TwoFrames(ctx) && t == ctx.up.up.Holder() && g == ctx.up.node && last == ctx.up.dir
      modifies (ctx.Nodes() + f.Nodes())`red, (ctx.Nodes() + f.Nodes())`link
      ensures bug <==> HasRedEdge(ctx, f) && g == null
      ensures !bug ==> var (c, u) := Repaired(ctx, f); Zip(c, u, q) && c.Nodes() + u.Nodes() == ctx.Nodes() + f.Nodes()
    {
      bug := false;
      if q.red && p != null && p.red {
        if g == null {
          return true;
        }
        if p.link.At(last) == q {
          RotateOuter(t, g, last, ctx, f, q);
        } else {
          RotateInner(t, g, last, ctx, f, q);
        }
      }
    }

    /** Lines 238-262: one turn of the search, up to the comparison. */
    method Turn(v: Helpers, q: Node?, data: Item, canAlloc: bool,
                ghost stage: Stage, ghost ctx: Ctx, ghost f: Tree, ghost h: nat, ghost s: Tree)
      returns (n: Node?, bug: bool)
      requires Zip(ctx, f, q) && OnTheWay(stage, ctx, f, h, v, s, data, canAlloc, rank)
      modifies `ledger, (ctx.Nodes() + f.Nodes())`red, (ctx.Nodes() + f.Nodes())`link
      ensures n == null <==> f.Leaf? && !canAlloc
      ensures ledger == if f.Leaf? && canAlloc then old(ledger).Inc(data) else old(ledger)
      ensures n == null ==> !bug && Zip(ctx, f, null)
      ensures n != null ==> if f.Leaf? then fresh(n) else n == q
      ensures n != null ==> (bug <==> HasRedEdge(ctx, Settled(f, n, data)) && v.g == null)
      ensures bug ==> RotatesAtNull(s, data, canAlloc, rank)
      ensures n != null && !bug ==>
                var f1 := Settled(f, n, data);
                && (HasRedEdge(ctx, f1) ==> TwoFrames(ctx))
                && var (c, u) := Repaired(ctx, f1);
                   && Zip(c, u, n) && n == u.Root() && n.data == f1.data
                   && c.Nodes() + u.Nodes() == ctx.Nodes() + f.Nodes() + {n}
    {
      hide OnTheWay, RotatesAtNull, Tree.Items, Tree.Distinct;
      bug := false;
      HelperFacts(stage, ctx, f, h, v, s, data, canAlloc, rank);
      n := Settle(v.p, q, v.dir, data, canAlloc, ctx, f);
      if n != null {
        ghost var f1 := Settled(f, n, data);
        FlippedKeeps(f);
        if HasRedEdge(ctx, f1) {
          NullGrandparent(stage, ctx, f, f1, h, v, s, data, canAlloc, rank);
        }
        bug := RepairRedEdge(v.t, v.g, v.p, n, v.last, ctx, f1);
      }
    }

    /** Lines 236-280: the search down the tree under the false root. */
    method Descend(head: Node, data: Item, canAlloc: bool, ghost s: Tree)
      returns (result: KernReturn, ghost c: Ctx, ghost u: Tree, ghost k: nat, ghost added: Node?)
      requires s.Branch? && Zip(Top(head), s, head.link.right)
      requires Balanced(s) && Ascending(s.Items(), rank) && Orders(operations.comparator, rank)
      modifies `ledger, ({head} + s.Nodes())`red, ({head} + s.Nodes())`link
      ensures result in {Success, NoSpace, Bug}
      ensures result.Bug? <==> RotatesAtNull(s, data, canAlloc, rank)
      ensures result.NoSpace? <==> !RotatesAtNull(s, data, canAlloc, rank) && !canAlloc && !Holds(s.Items(), data, rank)
      ensures !result.Bug? ==> Zip(c, u, u.Root()) && HeadOf(c) == head
      ensures !result.Bug? ==> fresh(Only(added)) && c.Nodes() + u.Nodes() == s.Nodes() + {head} + Only(added)
      ensures !result.Bug? ==> (added != null <==> result.Success? && !Holds(s.Items(), data, rank))
      ensures !result.Bug? ==> (c, u) == Linked(WalkFrom(head, s, data, rank), data, added)
      ensures !result.Bug? ==> Arrived(c, u, k, s, data, canAlloc, rank,
                                       if result.Success? then Inserted(s.Items(), data, rank) else s.Items())
      ensures !result.Bug? ==>
                ledger == if result.Success? then Acquired(old(ledger), s.Items(), data, rank) else old(ledger)
    {
      hide OnTheWay, Arrived, Reached, Linked, WalkFrom, RotatesAtNull, Repaired, Measure, TwoFrames, Holds, Inserted,
          BothKidsRed, Tree.Nodes, Tree.Items, Tree.Distinct, Ctx.Distinct;
      var t: Node, dir, last := head, false, false;
      var g: Node?, p: Node?, q := null, null, head.link.right;
      ghost var ctx, f, h, stage, turns := Top(head), s, BlackHeight(s), Start, 0;
      assert allocated(s.Nodes());
      Starts(s, head, data, canAlloc, rank);
      SetsOut(head, s, data, rank);
      while true
        invariant Zip(ctx, f, q) && HeadOf(ctx) == head
        invariant ctx.Nodes() + f.Nodes() == s.Nodes() + {head}
        invariant OnTheWay(stage, ctx, f, h, Helpers(t, g, p, dir, last), s, data, canAlloc, rank)
        invariant ledger == old(ledger)
        invariant Reached(head, s, data, rank, turns, stage, ctx, f)
        decreases Measure(stage, f, data, rank)
      {
        ghost var v := Helpers(t, g, p, dir, last);
        var n, bug := Turn(Helpers(t, g, p, dir, last), q, data, canAlloc, stage, ctx, f, h, s);
        if n == null {
          Fails(stage, ctx, h, v, s, data, rank);
          Stops(head, s, data, rank, turns, stage, ctx, f, null);
          return NoSpace, ctx, f, h, null;
        }
        if bug {
          return Bug, ctx, f, h, null;
        }
        q := n;
        ghost var f1 := Settled(f, q, data);
        // Stop after inserting a node; this also keeps duplicates out.
        if operations.comparator(q.data, data) == 0 {
          c, u := Repaired(ctx, f1).0, Repaired(ctx, f1).1;
          k := Arrives(stage, ctx, f, f1, h, v, s, data, canAlloc, rank);
          Stops(head, s, data, rank, turns, stage, ctx, f, if f.Leaf? then q else null);
          return Success, c, u, k, if f.Leaf? then q else null;
        }
        last, dir := dir, operations.comparator(q.data, data) < 0;
        ghost var from, c1, f2 := stage, ctx, f;
        stage, ctx, f, h := Advances(stage, ctx, f, h, v, s, data, canAlloc, rank, q, dir);
        Proceeds(head, s, data, rank, turns, from, c1, f2, stage);
        turns := turns + 1;
        if g != null {
          t := g;
        }
        g, p, q := p, q, q.link.At(dir);
      }
    }

    /** Lines 226-283, the else branch: insert below a root, through a false root above it. */
    method InsertBelow(data: Item, canAlloc: bool) returns (result: KernReturn, ghost added: Node?)
      requires Valid() && shape.Branch?
      modifies `root, `shape, `ledger, shape.Nodes()`red, shape.Nodes()`link
      ensures result.Bug? <==> RotatesAtNull(old(shape), data, canAlloc, rank)
      ensures result.NoSpace? <==> !result.Bug? && !canAlloc && !Holds(old(Contents()), data, rank)
      ensures result in {Success, NoSpace, Bug}
      ensures !result.Bug? ==> shape.Branch? && Planted(shape, root)
      ensures !result.Bug? ==> fresh(Only(added)) && shape.Nodes() == old(shape.Nodes()) + Only(added)
      ensures !result.Bug? ==> (added != null <==> result.Success? && !Holds(old(Contents()), data, rank))
      ensures !result.Bug? ==> shape == Grown(old(shape), data, added, rank)
      ensures !result.Bug? ==> (shape.red <==> old(shape).IsRed() || BothKidsRed(old(shape)))
      ensures !result.Bug? ==>
                Contents() == if result.Success? then Inserted(old(Contents()), data, rank) else old(Contents())
      ensures !result.Bug? ==>
                ledger == if result.Success? then Acquired(old(ledger), old(Contents()), data, rank) else old(ledger)
    {
      hide Arrived, RotatesAtNull, Inserted, Holds, Accounts, Acquired, BothKidsRed, Orders, Linked, WalkFrom,
          Grown, Wrapped, Ascending, Tree.Items, Tree.Nodes;
      ghost var s, items := shape, shape.Items();
      assert allocated(s.Nodes());
      var head := new Node(false, data);
      head.link := head.link.With(true, root);
      ghost var c, u, k;
      result, c, u, k, added := Descend(head, data, canAlloc, s);
      if result != Bug {
        AdoptGrown(head, c, u, k, s, data, canAlloc,
                   if result.Success? then Inserted(items, data, rank) else items, added);
      }
    }

    /** The tree under the false root once insertion's search has ended. */
    method AdoptGrown(head: Node, ghost c: Ctx, ghost u: Tree, ghost k: nat, ghost s: Tree, ghost data: Item,
                      ghost canAlloc: bool, ghost items: seq<Item>, ghost added: Node?)
      requires s.Branch? && Zip(c, u, u.Root()) && HeadOf(c) == head
      requires Arrived(c, u, k, s, data, canAlloc, rank, items)
      requires (c, u) == Linked(WalkFrom(head, s, data, rank), data, added)
      modifies `root, `shape
      ensures shape.Branch? && Planted(shape, root) && Contents() == items
      ensures shape.Nodes() + {head} == c.Nodes() + u.Nodes() && head !in shape.Nodes()
      ensures shape == Grown(s, data, added, rank)
      ensures shape.red <==> s.IsRed() || BothKidsRed(s)
    {
      hide Arrived, BothKidsRed, Planted, Linked, WalkFrom, Grown, Plug, Zip, Tree.Items, Tree.Nodes;
      ghost var after := Plug(c, u);
      Unplug(c, u, k, s, data, canAlloc, rank, items);
      AnyHead(head, s, data, added, rank);
      Adopt(head, after);
    }

    /** Line 283: the link of the false root becomes the root. */
    method Adopt(head: Node, ghost t: Tree)
      requires Planted(t, head.link.right)
      modifies `root, `shape
      ensures shape == t && Planted(t, root)
    {
      assert allocated(t.Nodes());
      root, shape := head.link.right, t;
    }

    /** Lines 287 and 381-383. */
    method BlackenRoot()
      requires Planted(shape, root)
      modifies shape.Nodes()`red, `shape
      ensures shape == Painted(old(shape), false) && !shape.IsRed()
      ensures Planted(shape, root) && shape.Items() == old(shape.Items()) && shape.Nodes() == old(shape.Nodes())
    {
      if root != null {
        PaintedKeeps(shape, false);
        assert allocated(shape.left.Nodes()) && allocated(shape.right.Nodes());
        root.red := false;
        shape := Painted(shape, false);
        BlackHeightUnique(shape, BlackHeight(shape));
      }
    }

    /** Lines 219-224: the first node of an empty tree, still red. */
    method PlantRoot(data: Item, canAlloc: bool) returns (result: KernReturn, ghost added: Node?)
      requires Valid() && root == null
      modifies `root, `shape, `ledger
      ensures old(Contents()) == []
      ensures result == if canAlloc then Success else NoSpace
      ensures Planted(shape, root)
      ensures fresh(Only(added)) && shape.Nodes() == Only(added) && root == added
      ensures shape == Grown(old(shape), data, added, rank)
      ensures shape.Branch? <==> canAlloc
      ensures canAlloc ==> shape.red
      ensures Contents() == if canAlloc then [data] else []
      ensures ledger == if canAlloc then old(ledger).Inc(data) else old(ledger)
    {
      hide Accounts, Ascending, Orders;
      assert shape == Leaf;
      root := NewNode(data, canAlloc);
      result, added := Success, root;
      if root == null {
        result := NoSpace;
      } else {
        LoneNode(root, true, data);
        shape := Branch(root, true, data, Leaf, Leaf);
      }
    }

    /** Lines 219-284. */
    method Place(data: Item, canAlloc: bool) returns (result: KernReturn, ghost added: Node?)
      requires Valid()
      modifies `root, `shape, `ledger, shape.Nodes()`red, shape.Nodes()`link
      ensures result.Bug? <==> RotatesAtNull(old(shape), data, canAlloc, rank)
      ensures result.NoSpace? <==> !result.Bug? && !canAlloc && !Holds(old(Contents()), data, rank)
      ensures result in {Success, NoSpace, Bug}
      ensures !result.Bug? ==> Planted(shape, root)
      ensures result.Success? ==> shape.Branch?
      ensures !result.Bug? ==> root == shape.Root()
      ensures !result.Bug? ==> fresh(Only(added)) && shape.Nodes() == old(shape.Nodes()) + Only(added)
      ensures !result.Bug? ==> (added != null <==> result.Success? && !Holds(old(Contents()), data, rank))
      ensures !result.Bug? ==> shape == Grown(old(shape), data, added, rank)
      ensures result.NoSpace? ==> (shape.IsRed() <==> old(shape).IsRed() || BothKidsRed(old(shape)))
      ensures !result.Bug? ==>
                Contents() == if result.Success? then Inserted(old(Contents()), data, rank) else old(Contents())
      ensures !result.Bug? ==>
                ledger == if result.Success? then Acquired(old(ledger), old(Contents()), data, rank) else old(ledger)
    {
      hide RotatesAtNull, Inserted, Holds, Accounts, Ascending, Balanced;
      if root == null {
        InsertedEmpty(data, rank);
        result, added := PlantRoot(data, canAlloc);
      } else {
        result, added := InsertBelow(data, canAlloc);
      }
    }

    /** Lines 204-291, with the tests of lines 260 and 286 repaired: the zig-zag case rotates twice,
        and lines 287-288 run on success.  As written, size grows on a duplicate too. */
    method Insert(data: Item, canAlloc: bool) returns (result: KernReturn, ghost added: Node?)
      requires Valid()
      modifies `root, `size, `shape, `ledger, `drift, shape.Nodes()`red, shape.Nodes()`link
      ensures result.Bug? <==> RotatesAtNull(old(shape), data, canAlloc, rank)
      ensures result.NoSpace? <==> !result.Bug? && !canAlloc && !Holds(old(Contents()), data, rank)
      ensures result in {Success, NoSpace, Bug}
      ensures !result.Bug? ==> Valid() && fresh(shape.Nodes() - old(shape.Nodes()))
      ensures result.Success? ==> Contents() == Inserted(old(Contents()), data, rank) && !shape.IsRed()
      ensures result.NoSpace? ==> Contents() == old(Contents())
      ensures !result.Bug? ==> (added != null <==> result.Success? && !Holds(old(Contents()), data, rank))
      ensures !result.Bug? ==> shape.Nodes() == old(shape.Nodes()) + Only(added)
      ensures result.Success? ==> shape == Painted(Grown(old(shape), data, added, rank), false)
      ensures result.NoSpace? ==> shape == Grown(old(shape), data, null, rank)
      ensures result.NoSpace? ==> (shape.IsRed() <==> old(shape).IsRed() || BothKidsRed(old(shape)))
      ensures !result.Bug? ==> size == if result.Success? then Increment(old(size)) else old(size)
      ensures drift == old(drift) + if result.Success? && Holds(old(Contents()), data, rank) then 1 else 0
      ensures !result.Bug? ==>
                ledger == if result.Success? then Acquired(old(ledger), old(Contents()), data, rank) else old(ledger)
    {
      hide RotatesAtNull, Inserted, Holds, Accounts, Ascending, BothKidsRed, Orders, Planted, Increment, Acquired,
          Painted, Grown, Wrapped, Tree.Nodes, Tree.Items;
      InsertedAscends(shape.Items(), data, rank);
      InsertedAccounts(ledger, shape.Items(), data, rank);
      InsertCounts(size, shape.Items(), drift, data, rank);
      result, added := Place(data, canAlloc);
      if result == Success {
        BlackenRoot();
        assert allocated(shape.Nodes());
        size := Increment(size);
        drift := drift + if added == null then 1 else 0;
      }
    }

    /** Lines 320-365: search for data, pushing a red node down ahead of the search. */
    method Sink(head: Node, data: Item, ghost s: Tree)
      returns (q: Node, p: Node?, dir: bool, found: Node?, ghost ctx: Ctx, ghost h: nat)
      requires Zip(Top(head), s, head.link.right)
      requires Balanced(s) && Ascending(s.Items(), rank) && Orders(operations.comparator, rank)
      modifies ({head} + s.Nodes())`red, ({head} + s.Nodes())`link
      ensures Zip(ctx, Leaf, null) && Seeking(ctx, Leaf, h, found, s, data, rank)
      ensures q == ctx.Holder() && dir == ctx.Dir() && p == if ctx.Down? then ctx.up.Holder() else null
      ensures HeadOf(ctx) == head && ctx.Nodes() == s.Nodes() + {head}
    {
      hide Seeking, PushedDown, Below;
      q, p, dir, found := head, null, true, null;
      ghost var f := s;
      ctx, h := Top(head), BlackHeight(s);
      SeekingStarts(s, head, data, rank);
      while q.link.At(dir) != null
        invariant Zip(ctx, f, q.link.At(dir)) && Seeking(ctx, f, h, found, s, data, rank)
        invariant q == ctx.Holder() && dir == ctx.Dir() && p == if ctx.Down? then ctx.up.Holder() else null
        invariant HeadOf(ctx) == head && ctx.Nodes() + f.Nodes() == s.Nodes() + {head}
        decreases Size(f)
      {
        var last, g := dir, p;
        p := q;
        q := q.link.At(dir);
        dir := operations.comparator(q.data, data) < 0;
        ghost var was := found;
        // The match is only noted: its node goes once the search has reached the bottom.
        if operations.comparator(q.data, data) == 0 {
          found := q;
        }
        SeekingFacts(ctx, f, h, was, s, data, rank);
        p := PushDown(g, p, q, last, dir, ctx, f, h);
        ctx, f, h := SinksInMemory(ctx, f, h, was, s, data, rank, q, dir);
      }
    }

    /** Lines 370-371: q leaves the tree, and its data moves to the found node. */
    method Unlink(q: Node, p: Node, found: Node, ghost ctx: Ctx)
      requires Zip(ctx, Leaf, null) && ctx.Down? && ctx.sib.Leaf?
      requires q == ctx.node && p == ctx.up.Holder() && found == Owner(ctx)
      modifies found`data, p`link
      ensures CtxRep(Unlinked(ctx), null)
    {
      assert allocated(ctx.up.Nodes());
      LinkOf(ctx.up, q);
      OwnerIsNext(ctx.up);
      if ctx.dir {
        ReplacedKeeps(ctx.up, ctx.data, 0);
      }
      found.data := q.data;
      if ctx.dir {
        ReplacedRep(ctx.up);
      }
      assert CtxRep(Unlinked(ctx), q);
      SetLink(p, p.link.right == q, q.link.At(q.link.left == null), Unlinked(ctx), q);
    }

    /** Lines 320-375, below the false root. */
    method Detach(head: Node, data: Item, ghost s: Tree)
      returns (result: KernReturn, ghost c: Ctx, ghost k: nat, ghost gone: set<Node>)
      requires Zip(Top(head), s, head.link.right)
      requires Balanced(s) && Ascending(s.Items(), rank) && Orders(operations.comparator, rank)
      modifies `ledger, ({head} + s.Nodes())`red, ({head} + s.Nodes())`link, ({head} + s.Nodes())`data
      ensures result == if Holds(s.Items(), data, rank) then Success else InvalidArgument
      ensures Zip(c, Leaf, null) && ZipRB(c, Leaf, k) && HeadOf(c) == head
      ensures Items(c, Leaf) == Removed(s.Items(), data, rank)
      ensures c.Nodes() == s.Nodes() + {head} - gone && |gone| == if result.Success? then 1 else 0
      ensures gone <= s.Nodes()
      ensures ledger == Released(old(ledger), s.Items(), data, rank)
    {
      hide Holds, Removed, Seeking, Unlinked, ZipRB;
      var q, p, dir, found;
      q, p, dir, found, c, k := Sink(head, data, s);
      if found == null {
        EndsWithout(c, k, s, data, rank);
        return InvalidArgument, c, k, {};
      }
      c, k := DetachFound(q, p, found, c, k, data, s);
      return Success, c, k, {q};
    }

    /** Lines 369-372. */
    method DetachFound(q: Node, p: Node?, found: Node, ghost ctx: Ctx, ghost h: nat, data: Item,
        ghost s: Tree) returns (ghost c: Ctx, ghost k: nat)
      requires Zip(ctx, Leaf, null) && Seeking(ctx, Leaf, h, found, s, data, rank)
      requires q == ctx.Holder() && p == if ctx.Down? then ctx.up.Holder() else null
      modifies `ledger, ctx.Nodes()`data, ctx.Nodes()`link
      ensures Zip(c, Leaf, null) && ZipRB(c, Leaf, k) && HeadOf(c) == HeadOf(ctx)
      ensures Holds(s.Items(), data, rank) && Items(c, Leaf) == Removed(s.Items(), data, rank)
      ensures q in ctx.Nodes() && q != HeadOf(ctx) && c.Nodes() == ctx.Nodes() - {q}
      ensures ledger == Released(old(ledger), s.Items(), data, rank)
    {
      hide Holds, Removed, Seeking, Unlinked, ZipRB;
      k := Ends(ctx, h, found, s, data, rank);
      c := Unlinked(ctx);
      OwnerData(ctx, null);
      ledger := ledger.Dec(found.data);
      assert ledger == Released(old(ledger), s.Items(), data, rank);
      Unlink(q, p, found, ctx);
    }

    /** Lines 309-378. */
    method RemoveBelow(data: Item) returns (result: KernReturn)
      requires Valid()
      modifies `root, `shape, `ledger, shape.Nodes()`red, shape.Nodes()`link, shape.Nodes()`data
      ensures Planted(shape, root) && root == shape.Root()
      ensures result == if Holds(old(Contents()), data, rank) then Success else InvalidArgument
      ensures Contents() == Removed(old(Contents()), data, rank)
      ensures shape.Nodes() <= old(shape.Nodes())
      ensures ledger == Released(old(ledger), old(Contents()), data, rank)
    {
      hide Holds, Removed, Accounts, Ascending, Orders, Released, ZipRB, Tree.Nodes, Tree.Items;
      ghost var s := shape;
      assert allocated(s.Nodes());
      var head := new Node(false, data);
      head.link := head.link.With(true, root);
      ghost var c, k, gone;
      result, c, k, gone := Detach(head, data, s);
      ghost var after := Plug(c, Leaf);
      UnplugLeaf(c, k);
      assert after.Nodes() <= s.Nodes();
      Adopt(head, after);
    }

    /** Lines 307-387; as written, size shrinks even when nothing was found. */
    method Remove(data: Item) returns (result: KernReturn)
      requires Valid()
      modifies `root, `size, `shape, `ledger, `drift, shape.Nodes()`red, shape.Nodes()`link, shape.Nodes()`data
      ensures Valid() && !shape.IsRed()
      ensures result == if Holds(old(Contents()), data, rank) then Success else InvalidArgument
      ensures Contents() == Removed(old(Contents()), data, rank)
      ensures size == Decrement(old(size))
      ensures drift == old(drift) - if Holds(old(Contents()), data, rank) then 0 else 1
      ensures shape.Nodes() <= old(shape.Nodes())
      ensures ledger == Released(old(ledger), old(Contents()), data, rank)
    {
      hide Holds, Removed, Accounts, Ascending, Planted, Orders, Released, Decrement, Wrapped, Painted,
          Tree.Nodes, Tree.Items;
      RemovedAccounts(ledger, shape.Items(), data, rank);
      RemovedAscends(shape.Items(), data, rank);
      RemoveCounts(size, shape.Items(), drift, data, rank);
      result := RemoveBelow(data);
      BlackenRoot();
      assert allocated(shape.Nodes());
      size := Decrement(size);
      drift := drift - if result.Success? then 0 else 1;
    }

    /** Lines 180-199, with the comparison result signed. */
    method Find(key: Item) returns (result: Option<Item>)
      requires Valid()
      ensures result == Lookup(shape, operations.findComparator, key)
      ensures result.Some? ==> result.value in Contents() && operations.findComparator(result.value, key) == 0
      ensures FollowsOrder(operations.findComparator, key, rank) ==>
                (result.Some? <==> Matches(Contents(), operations.findComparator, key))
    {
      hide FollowsOrder, Matches, Accounts, Ascending, Orders, Tree.Items, Balanced;
      var node := root;
      result := None;
      ghost var t := shape;
      LookupFinds(shape, operations.findComparator, key, rank);
      while node != null
        invariant Rep(t, node)
        invariant Lookup(t, operations.findComparator, key) == Lookup(shape, operations.findComparator, key)
        decreases t
      {
        var comparison := operations.findComparator(node.data, key);
        if comparison == 0 {
          break;
        }
        node := node.link.At(comparison < 0);
        t := t.Kid(comparison < 0);
      }
      if node != null {
        result := Some(node.data);
      }
    }

    /** Lines 390-395. */
    method Count() returns (count: Word)
      requires Valid()
      ensures count == Wrapped(|Contents()| + drift)
    {
      count := size;
    }
  }
}
