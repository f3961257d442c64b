/** Removal's way down: a red node is pushed ahead of the search, so that the node unlinked at the
    bottom is a red leaf or the only node. */
module RemoveDescent {
  import opened References
  import opened Ordering
  import opened Shape
  import opened Rotations
  import opened Balance
  import opened InsertDescent

  /** At the top of the loop ctx is the link the search takes next and f what is below it.  The
      holder of the link is the false root, or red, or about to enter a red node, or a black root
      without red children. */
  ghost predicate Pushed(ctx: Ctx, f: Tree) {
    ctx.Top? || ctx.red || f.IsRed() || (ctx.up.Top? && !ctx.sib.IsRed())
  }

  /** Lines 335-364 run on q, the root of f, when neither q nor its next link is red. */
  ghost predicate MustPush(f: Tree, dir: bool)
    requires f.Branch?
  {
    !f.red && !f.Kid(dir).IsRed()
  }

  /** Lines 336-338: the red other child comes up between p and q. */
  ghost function TurnedDown(ctx: Ctx, f: Tree, dir: bool): (Ctx, Tree)
    requires f.Branch? && f.Kid(!dir).Branch?
  {
    var s := f.Kid(!dir);
    (Down(s.node, false, s.data, dir, s.Kid(!dir), ctx), Join(f.node, true, f.data, dir, f.Kid(dir), s.Kid(dir)))
  }

  /** Lines 344-347. */
  ghost function FlippedApart(ctx: Ctx, f: Tree): (Ctx, Tree)
    requires ctx.Down?
  {
    (Down(ctx.node, false, ctx.data, ctx.dir, Painted(ctx.sib, true), ctx.up), Painted(f, true))
  }

  /** Lines 353-360 when the sibling's inner child is red. */
  ghost function BorrowedInner(ctx: Ctx, f: Tree): (Ctx, Tree)
    requires ctx.Down? && ctx.sib.Branch? && ctx.sib.Kid(ctx.dir).Branch?
  {
    var last, s := ctx.dir, ctx.sib;
    var r := s.Kid(last);
    (Down(ctx.node, false, ctx.data, last, r.Kid(last),
          Down(r.node, true, r.data, last, Join(s.node, false, s.data, last, r.Kid(!last), s.Kid(!last)), ctx.up)),
     Painted(f, true))
  }

  /** Lines 353-360 when only the outer child is red. */
  ghost function BorrowedOuter(ctx: Ctx, f: Tree): (Ctx, Tree)
    requires ctx.Down? && ctx.sib.Branch? && ctx.sib.Kid(!ctx.dir).Branch?
  {
    var last, s := ctx.dir, ctx.sib;
    (Down(ctx.node, false, ctx.data, last, s.Kid(last),
          Down(s.node, true, s.data, last, Painted(s.Kid(!last), false), ctx.up)),
     Painted(f, true))
  }

  /** Lines 335-364. */
  ghost function PushedDown(ctx: Ctx, f: Tree, dir: bool): (Ctx, Tree)
    requires f.Branch?
  {
    if !MustPush(f, dir) then (ctx, f)
    else if f.Kid(!dir).IsRed() then TurnedDown(ctx, f, dir)
    else if ctx.Top? || ctx.sib.Leaf? then (ctx, f)
    else if NoKidRed(ctx.sib) then FlippedApart(ctx, f)
    else if ctx.sib.Kid(ctx.dir).IsRed() then BorrowedInner(ctx, f)
    else BorrowedOuter(ctx, f)
  }

  /** In the push-down step the sibling exists and is black, and the grandparent link exists. */
  lemma {:induction false} SiblingIsBlack(ctx: Ctx, f: Tree, h: nat, dir: bool)
    requires ZipRB(ctx, f, h) && Pushed(ctx, f) && f.Branch? && MustPush(f, dir) && ctx.Down?
    ensures ctx.sib.Branch? && !ctx.sib.red && (ctx.red || ctx.up.Top?)
  {
  }

  lemma {:induction false} PushedDownRB(ctx: Ctx, f: Tree, h: nat, dir: bool) returns (k: nat)
    requires ZipRB(ctx, f, h) && Pushed(ctx, f) && f.Branch?
    ensures var (c, t) := PushedDown(ctx, f, dir);
            && t.Branch? && t.node == f.node && t.data == f.data && t.Kid(dir) == f.Kid(dir)
            && ZipRB(c, t, k) && Pushed(Below(c, t, dir), t.Kid(dir))
  {
    k := h;
    SplitRB(f, dir, h);
    if MustPush(f, dir) {
      if f.Kid(!dir).IsRed() {
        SplitRB(f.Kid(!dir), dir, h - 1);
        var s := f.Kid(!dir);
        JoinRB(f.node, true, f.data, dir, f.Kid(dir), s.Kid(dir), h - 1);
        k := h - 1;
      } else if ctx.Down? {
        SiblingIsBlack(ctx, f, h, dir);
        k := h - 1;
        SplitRB(ctx.sib, ctx.dir, h);
        if NoKidRed(ctx.sib) {
        } else if ctx.sib.Kid(ctx.dir).IsRed() {
          BorrowedInnerRB(ctx, f, h);
        } else {
          BorrowedOuterRB(ctx, f, h);
        }
      }
    }
  }

  lemma {:induction false} BorrowedInnerRB(ctx: Ctx, f: Tree, h: nat)
    requires ctx.Down? && ctx.sib.Branch? && ctx.sib.Kid(ctx.dir).IsRed() && !ctx.sib.red && f.Branch? && !f.red &&
               NoKidRed(f)
    requires RB(f, h) && CtxRB(ctx, h) && (ctx.red || ctx.up.Top?)
    ensures ZipRB(BorrowedInner(ctx, f).0, BorrowedInner(ctx, f).1, h - 1)
  {
    var last, s := ctx.dir, ctx.sib;
    var r := s.Kid(last);
    SplitRB(s, last, h);
    SplitRB(r, last, h - 1);
    JoinRB(s.node, false, s.data, last, r.Kid(!last), s.Kid(!last), h);
    assert CtxRB(ctx.up, if ctx.red then h else h + 1);
  }

  lemma {:induction false} BorrowedOuterRB(ctx: Ctx, f: Tree, h: nat)
    requires ctx.Down? && ctx.sib.Branch? && ctx.sib.Kid(!ctx.dir).IsRed() && !ctx.sib.Kid(ctx.dir).IsRed() &&
               !ctx.sib.red
    requires f.Branch? && !f.red && NoKidRed(f)
    requires RB(f, h) && CtxRB(ctx, h) && (ctx.red || ctx.up.Top?)
    ensures ZipRB(BorrowedOuter(ctx, f).0, BorrowedOuter(ctx, f).1, h - 1)
  {
    var last, s := ctx.dir, ctx.sib;
    var r := s.Kid(!last);
    SplitRB(s, last, h);
    SplitRB(r, last, h - 1);
    assert r == Join(r.node, true, r.data, last, r.Kid(last), r.Kid(!last));
    JoinRB(r.node, false, r.data, last, r.Kid(last), r.Kid(!last), h);
    assert CtxRB(ctx.up, if ctx.red then h else h + 1);
  }

  /* ---------- the node to remove ---------- */

  /** The nearest ancestor from which the link lies to the left: the in-order successor of
      everything below the link. */
  ghost function Owner(ctx: Ctx): Node? {
    if ctx.Top? then null else if ctx.dir then Owner(ctx.up) else ctx.node
  }

  lemma {:induction false} OwnerIsNext(ctx: Ctx)
    ensures Owner(ctx) == null <==> ctx.Post() == []
    ensures Owner(ctx) != null ==> Owner(ctx) in ctx.Nodes()
    decreases ctx
  {
    if ctx.Down? {
      OwnerIsNext(ctx.up);
    }
  }

  /** ctx with the data of its owner replaced. */
  ghost function Replaced(ctx: Ctx, data: Item): Ctx {
    if ctx.Top? then ctx
    else if ctx.dir then Down(ctx.node, ctx.red, ctx.data, true, ctx.sib, Replaced(ctx.up, data))
    else Down(ctx.node, ctx.red, data, false, ctx.sib, ctx.up)
  }

  lemma {:induction false} ReplacedKeeps(ctx: Ctx, data: Item, h: nat)
    requires Owner(ctx) != null
    ensures var r := Replaced(ctx, data);
            && r.Pre() == ctx.Pre() && ctx.Post() != [] && r.Post() == [data] + ctx.Post()[1..]
            && r.Nodes() == ctx.Nodes() && HeadOf(r) == HeadOf(ctx) && r.IsRed() == ctx.IsRed()
            && r.Holder() == ctx.Holder() && r.Dir() == ctx.Dir()
            && (ctx.Distinct() ==> r.Distinct())
            && (CtxRB(ctx, h) ==> CtxRB(r, h))
    decreases ctx
  {
    if ctx.dir {
      ReplacedKeeps(ctx.up, data, if ctx.red then h else h + 1);
    } else {
      assert ctx.Post() == [ctx.data] + (ctx.sib.Items() + ctx.up.Post());
    }
  }

  /** What the helper f (here: found) holds: the node whose item equals x, once it was passed. */
  ghost predicate FoundIsOwner(ctx: Ctx, found: Node?, x: Item, rank: Item -> int) {
    if found == null then AllFrom(ctx.Post(), rank(x) + 1, rank)
    else found == Owner(ctx) && ctx.Post() != [] && rank(ctx.Post()[0]) == rank(x)
  }

  /** The search invariant: everything left of the link is before x, everything right of it is not. */
  ghost predicate Searching(ctx: Ctx, found: Node?, x: Item, rank: Item -> int) {
    && AllBelow(ctx.Pre(), rank(x), rank) && AllFrom(ctx.Post(), rank(x), rank)
    && FoundIsOwner(ctx, found, x, rank)
  }

  lemma {:induction false} SearchingDescends(ctx: Ctx, f: Tree, found: Node?, x: Item, rank: Item -> int, dir: bool)
    requires f.Branch? && Ascending(Items(ctx, f), rank) && Searching(ctx, found, x, rank)
    requires dir == (rank(f.data) < rank(x))
    ensures Searching(Below(ctx, f, dir), if rank(f.data) == rank(x) then f.node else found, x, rank)
  {
    SearchDescends(ctx, f, dir, rank(x), rank(x), rank);
    if !dir {
      assert Below(ctx, f, dir).Post()[0] == f.data;
      if rank(f.data) != rank(x) {
        FoundIsLater(ctx, f, found, x, rank);
        SearchDescends(ctx, f, dir, rank(x), rank(x) + 1, rank);
      }
    }
  }

  /** Once found, everything below the link is before x. */
  lemma {:induction false} FoundIsLater(ctx: Ctx, f: Tree, found: Node?, x: Item, rank: Item -> int)
    requires f.Branch? && Ascending(Items(ctx, f), rank) && FoundIsOwner(ctx, found, x, rank)
    ensures found != null ==> rank(f.data) < rank(x)
  {
    var left, right := ctx.Pre() + f.left.Items(), f.right.Items() + ctx.Post();
    assert Items(ctx, f) == left + ([f.data] + right);
    AscendingConcat(left, [f.data] + right, rank);
    AscendingConcat([f.data], right, rank);
    FromConcat(f.right.Items(), ctx.Post(), rank(f.data) + 1, rank);
  }

  /** The same items on either side, the same owner and the same false root. */
  ghost predicate SameSides(a: Ctx, b: Ctx) {
    a.Pre() == b.Pre() && a.Post() == b.Post() && Owner(a) == Owner(b) && HeadOf(a) == HeadOf(b)
  }

  lemma {:induction false} BorrowedInnerSides(ctx: Ctx, f: Tree)
    requires ctx.Down? && ctx.sib.Branch? && ctx.sib.Kid(ctx.dir).Branch?
    ensures SameSides(BorrowedInner(ctx, f).0, ctx)
  {
    var c := BorrowedInner(ctx, f).0;
    assert Owner(c) == (if ctx.dir then Owner(c.up) else ctx.node) && HeadOf(c) == HeadOf(c.up);
    if ctx.dir {
      BorrowedFromLeft(ctx, f);
    } else {
      BorrowedFromRight(ctx, f);
    }
  }

  lemma {:induction false} BorrowedFromLeft(ctx: Ctx, f: Tree)
    requires ctx.Down? && ctx.sib.Branch? && ctx.sib.right.Branch? && ctx.dir
    ensures var c := BorrowedInner(ctx, f).0; c.Pre() == ctx.Pre() && c.Post() == ctx.Post()
  {
    var c, s := BorrowedInner(ctx, f).0, ctx.sib;
    var r := s.right;
    assert s.Items() == (s.left.Items() + [s.data] + r.left.Items()) + [r.data] + r.right.Items();
    assert c.up.Pre() == ctx.up.Pre() + (s.left.Items() + [s.data] + r.left.Items()) + [r.data];
  }

  lemma {:induction false} BorrowedFromRight(ctx: Ctx, f: Tree)
    requires ctx.Down? && ctx.sib.Branch? && ctx.sib.left.Branch? && !ctx.dir
    ensures var c := BorrowedInner(ctx, f).0; c.Pre() == ctx.Pre() && c.Post() == ctx.Post()
  {
    var c, s := BorrowedInner(ctx, f).0, ctx.sib;
    var r := s.left;
    assert s.Items() == r.left.Items() + ([r.data] + (r.right.Items() + [s.data] + s.right.Items()));
    assert c.up.Post() == [r.data] + (r.right.Items() + [s.data] + s.right.Items()) + ctx.up.Post();
  }

  lemma {:induction false} BorrowedOuterSides(ctx: Ctx, f: Tree)
    requires ctx.Down? && ctx.sib.Branch? && ctx.sib.Kid(!ctx.dir).Branch?
    ensures SameSides(BorrowedOuter(ctx, f).0, ctx)
  {
    var c, s := BorrowedOuter(ctx, f).0, ctx.sib;
    PaintedKeeps(s.Kid(!ctx.dir), false);
    assert Owner(c) == (if ctx.dir then Owner(c.up) else ctx.node) && HeadOf(c) == HeadOf(c.up);
    if ctx.dir {
      assert c.up.Pre() == ctx.up.Pre() + s.left.Items() + [s.data];
    } else {
      assert c.up.Post() == [s.data] + s.right.Items() + ctx.up.Post();
    }
  }

  lemma {:induction false} TurnedDownSides(ctx: Ctx, f: Tree, dir: bool)
    requires f.Branch? && f.Kid(!dir).Branch?
    ensures var (c, t) := TurnedDown(ctx, f, dir); SameSides(Below(c, t, dir), Below(ctx, f, dir))
  {
    var (c, t) := TurnedDown(ctx, f, dir);
    var s, b, b' := f.Kid(!dir), Below(ctx, f, dir), Below(c, t, dir);
    if dir {
      assert b'.Pre() == ctx.Pre() + s.left.Items() + [s.data] + s.right.Items() + [f.data];
      assert b.Pre() == ctx.Pre() + s.left.Items() + [s.data] + s.right.Items() + [f.data];
    } else {
      assert b'.Post() == [f.data] + s.left.Items() + [s.data] + s.right.Items() + ctx.Post();
      assert b.Post() == [f.data] + s.left.Items() + [s.data] + s.right.Items() + ctx.Post();
    }
  }

  /** The push-down step changes nothing on either side of the link the search takes next. */
  lemma {:induction false} PushedDownSides(ctx: Ctx, f: Tree, dir: bool)
    requires f.Branch?
    ensures var (c, t) := PushedDown(ctx, f, dir); t.Branch? && SameSides(Below(c, t, dir), Below(ctx, f, dir))
  {
    if MustPush(f, dir) {
      if f.Kid(!dir).IsRed() {
        TurnedDownSides(ctx, f, dir);
      } else if ctx.Top? || ctx.sib.Leaf? {
      } else if NoKidRed(ctx.sib) {
        PaintedKeeps(ctx.sib, true);
        assert SameSides(FlippedApart(ctx, f).0, ctx);
      } else if ctx.sib.Kid(ctx.dir).IsRed() {
        BorrowedInnerSides(ctx, f);
      } else {
        BorrowedOuterSides(ctx, f);
      }
    }
  }

  /* ---------- one turn of the loop, and the end ---------- */

  /** The loop invariant of removal, apart from memory: s is the tree before the call. */
  ghost predicate Seeking(ctx: Ctx, f: Tree, h: nat, found: Node?, s: Tree, x: Item, rank: Item -> int) {
    && Ascending(s.Items(), rank) && Items(ctx, f) == s.Items()
    && ZipRB(ctx, f, h) && Pushed(ctx, f)
    && Searching(ctx, found, x, rank)
  }

  lemma {:induction false} SeekingStarts(s: Tree, head: Node, x: Item, rank: Item -> int)
    requires Balanced(s) && Ascending(s.Items(), rank)
    ensures Seeking(Top(head), s, BlackHeight(s), null, s, x, rank)
  {
    assert Items(Top(head), s) == s.Items();
  }

  lemma {:induction false} Sinks(ctx: Ctx, f: Tree, h: nat, found: Node?, s: Tree, x: Item, rank: Item -> int,
      dir: bool) returns (k: nat)
    requires Seeking(ctx, f, h, found, s, x, rank) && f.Branch? && dir == (rank(f.data) < rank(x))
    ensures var (c, t) := PushedDown(ctx, f, dir);
            && t.Branch? && t.node == f.node && t.data == f.data && t.Kid(dir) == f.Kid(dir)
            && Seeking(Below(c, t, dir), t.Kid(dir), k, if rank(f.data) == rank(x) then f.node else found, s, x, rank)
            && HeadOf(Below(c, t, dir)) == HeadOf(ctx)
  {
    var (c, t) := PushedDown(ctx, f, dir);
    var m := PushedDownRB(ctx, f, h, dir);
    k := BelowKeeps(c, t, m, dir);
    PushedDownSides(ctx, f, dir);
    SearchingDescends(ctx, f, found, x, rank, dir);
    AscendItems(Below(ctx, f, dir), f.Kid(dir));
  }

  /** Where the loop ends, the holder of the link has no children, and it is red unless it is the
      only node. */
  lemma {:induction false} BottomIsLeaf(ctx: Ctx, h: nat)
    requires ZipRB(ctx, Leaf, h) && Pushed(ctx, Leaf) && ctx.Down?
    ensures ctx.sib.Leaf? && (ctx.red || ctx.up.Top?)
  {
  }

  /** The tree after lines 369-372, seen from the link that held q: q is gone, and its data has
      moved to the owner unless q is the owner. */
  ghost function Unlinked(ctx: Ctx): Ctx
    requires ctx.Down?
  {
    if ctx.dir then Replaced(ctx.up, ctx.data) else ctx.up
  }

  lemma {:induction false} UnlinkedSides(ctx: Ctx)
    requires ctx.Down? && ctx.sib.Leaf? && Owner(ctx) != null && ctx.Post() != []
    ensures Items(Unlinked(ctx), Leaf) == ctx.Pre() + ctx.Post()[1..]
  {
    if ctx.dir {
      ReplacedKeeps(ctx.up, ctx.data, 0);
      assert ctx.Pre() == ctx.up.Pre() + [ctx.data];
    } else {
      assert ctx.Post() == [ctx.data] + ctx.up.Post() && ctx.Pre() == ctx.up.Pre();
    }
  }

  lemma {:induction false} UnlinkedItems(ctx: Ctx, found: Node, x: Item, rank: Item -> int)
    requires ctx.Down? && ctx.sib.Leaf? && Searching(ctx, found, x, rank)
    ensures Items(Unlinked(ctx), Leaf) == Removed(Items(ctx, Leaf), x, rank)
    ensures Holds(Items(ctx, Leaf), x, rank)
  {
    var pre, post := ctx.Pre(), ctx.Post();
    UnlinkedSides(ctx);
    hide Unlinked, Removed;
    assert post == [post[0]] + post[1..];
    assert Items(ctx, Leaf) == pre + [post[0]] + post[1..];
    assert Items(ctx, Leaf)[|pre|] == post[0];
    RemovedFrom(pre, post[0], post[1..], x, rank);
  }

  lemma {:induction false} UnlinkedRB(ctx: Ctx, h: nat, found: Node) returns (k: nat)
    requires ZipRB(ctx, Leaf, h) && Pushed(ctx, Leaf) && ctx.Down? && Owner(ctx) == found
    ensures ZipRB(Unlinked(ctx), Leaf, k)
    ensures HeadOf(Unlinked(ctx)) == HeadOf(ctx)
    ensures Unlinked(ctx).Nodes() + {ctx.node} == ctx.Nodes()
    ensures ctx.Distinct() ==> Unlinked(ctx).Distinct() && ctx.node !in Unlinked(ctx).Nodes()
  {
    k := 0;
    BottomIsLeaf(ctx, h);
    if ctx.dir {
      ReplacedKeeps(ctx.up, ctx.data, 0);
    }
  }

  lemma {:induction false} NotFound(ctx: Ctx, x: Item, rank: Item -> int)
    requires Searching(ctx, null, x, rank)
    ensures !Holds(Items(ctx, Leaf), x, rank)
  {
    assert Items(ctx, Leaf) == ctx.Pre() + ctx.Post();
  }

  lemma {:induction false} BorrowedInnerNodes(ctx: Ctx, f: Tree)
    requires ctx.Down? && ctx.sib.Branch? && ctx.sib.Kid(ctx.dir).Branch?
    ensures var (c, t) := BorrowedInner(ctx, f); c.Nodes() + t.Nodes() == ctx.Nodes() + f.Nodes()
  {
    var s, last := ctx.sib, ctx.dir;
    var r := s.Kid(last);
    PaintedKeeps(f, true);
    Split(s, last);
    Split(r, last);
    JoinNodes(s.node, false, s.data, last, r.Kid(!last), s.Kid(!last));
  }

  lemma {:induction false} PushedDownNodes(ctx: Ctx, f: Tree, dir: bool)
    requires f.Branch?
    ensures var (c, t) := PushedDown(ctx, f, dir); c.Nodes() + t.Nodes() == ctx.Nodes() + f.Nodes()
  {
    Split(f, dir);
    PaintedKeeps(f, true);
    if MustPush(f, dir) {
      if f.Kid(!dir).IsRed() {
        Split(f.Kid(!dir), dir);
        JoinNodes(f.node, true, f.data, dir, f.Kid(dir), f.Kid(!dir).Kid(dir));
      } else if ctx.Down? && ctx.sib.Branch? {
        var s, last := ctx.sib, ctx.dir;
        PaintedKeeps(s, true);
        Split(s, last);
        PaintedKeeps(s.Kid(!last), false);
        if s.Kid(last).Branch? {
          BorrowedInnerNodes(ctx, f);
          hide BorrowedInner;
        }
      }
    }
  }

  lemma {:induction false} SeekingFacts(ctx: Ctx, f: Tree, h: nat, found: Node?, s: Tree, x: Item, rank: Item -> int)
    requires Seeking(ctx, f, h, found, s, x, rank)
    ensures ZipRB(ctx, f, h) && Pushed(ctx, f)
  {
  }

  /** Sinks, with the memory that the helpers point into. */
  lemma {:induction false} SinksInMemory(ctx: Ctx, f: Tree, h: nat, found: Node?, s: Tree, x: Item,
      rank: Item -> int, q: Node, dir: bool)
    returns (c2: Ctx, f2: Tree, k: nat)
    requires Seeking(ctx, f, h, found, s, x, rank) && f.Branch? && dir == (rank(f.data) < rank(x)) && q == f.node
    requires var (c, t) := PushedDown(ctx, f, dir); Zip(c, t, q)
    ensures Seeking(c2, f2, k, if rank(f.data) == rank(x) then f.node else found, s, x, rank)
    ensures Zip(c2, f2, q.link.At(dir)) && c2.Down? && c2.node == q && c2.dir == dir &&
              c2.up == PushedDown(ctx, f, dir).0
    ensures HeadOf(c2) == HeadOf(ctx) && c2.Nodes() + f2.Nodes() == ctx.Nodes() + f.Nodes() && Size(f2) < Size(f)
  {
    var (c, t) := PushedDown(ctx, f, dir);
    k := Sinks(ctx, f, h, found, s, x, rank, dir);
    DescendZip(c, t, q, dir);
    PushedDownNodes(ctx, f, dir);
    c2, f2 := Below(c, t, dir), t.Kid(dir);
  }

  lemma {:induction false} OwnerData(ctx: Ctx, c: Node?)
    requires CtxRep(ctx, c) && Owner(ctx) != null
    ensures ctx.Post() != [] && Owner(ctx).data == ctx.Post()[0]
    decreases ctx
  {
    if ctx.dir {
      OwnerData(ctx.up, ctx.node);
    }
  }

  /** The item that removal releases is the stored one that equals x. */
  lemma {:induction false} OwnerMatches(ctx: Ctx, found: Node, x: Item, rank: Item -> int)
    requires ctx.Down? && ctx.sib.Leaf? && Searching(ctx, found, x, rank) && Ascending(Items(ctx, Leaf), rank)
    ensures var s := Items(ctx, Leaf); Holds(s, x, rank) && s[MatchAt(s, x, rank)] == ctx.Post()[0]
  {
    var s, pre := Items(ctx, Leaf), ctx.Pre();
    assert s[|pre|] == ctx.Post()[0];
    assert Holds(s, x, rank);
    var k := MatchAt(s, x, rank);
    assert k == |pre|;
  }

  lemma {:induction false} HeadIn(ctx: Ctx)
    ensures HeadOf(ctx) in ctx.Nodes()
    decreases ctx
  {
    if ctx.Down? {
      HeadIn(ctx.up);
    }
  }

  /** The end of removal when x was found: one node fewer, and the items lose exactly x's match. */
  lemma {:induction false} Ends(ctx: Ctx, h: nat, found: Node, s: Tree, x: Item, rank: Item -> int) returns (k: nat)
    requires Seeking(ctx, Leaf, h, found, s, x, rank) && Apart(ctx, Leaf)
    ensures ctx.Down? && ctx.sib.Leaf? && found == Owner(ctx) && ctx.Post() != [] && found in ctx.Nodes()
    ensures ctx.node != HeadOf(ctx) && ctx.node in ctx.Nodes() && ctx.up.Holder() in ctx.Nodes()
    ensures Holds(s.Items(), x, rank) && s.Items()[MatchAt(s.Items(), x, rank)] == ctx.Post()[0]
    ensures var c := Unlinked(ctx);
            && ZipRB(c, Leaf, k) && Items(c, Leaf) == Removed(s.Items(), x, rank)
            && Apart(c, Leaf) && HeadOf(c) == HeadOf(ctx) && c.Nodes() == ctx.Nodes() - {ctx.node}
  {
    BottomIsLeaf(ctx, h);
    OwnerMatches(ctx, found, x, rank);
    UnlinkedItems(ctx, found, x, rank);
    k := UnlinkedRB(ctx, h, found);
    OwnerIsNext(ctx);
    HeadIn(Unlinked(ctx));
  }

  lemma {:induction false} EndsWithout(ctx: Ctx, h: nat, s: Tree, x: Item, rank: Item -> int)
    requires Seeking(ctx, Leaf, h, null, s, x, rank)
    ensures ZipRB(ctx, Leaf, h) && Items(ctx, Leaf) == Removed(s.Items(), x, rank) == s.Items() &&
              !Holds(s.Items(), x, rank)
  {
    NotFound(ctx, x, rank);
    RemovedAbsent(s.Items(), x, rank);
  }

  /** The tree under the false root after removal. */
  lemma {:induction false} UnplugLeaf(c: Ctx, k: nat)
    requires Zip(c, Leaf, null) && ZipRB(c, Leaf, k)
    ensures var u := Plug(c, Leaf);
            && Planted(u, HeadOf(c).link.right) && HeadOf(c).link.right == u.Root() && u.Items() == Items(c, Leaf)
            && u.Nodes() + {HeadOf(c)} == c.Nodes() && HeadOf(c) !in u.Nodes()
  {
    PlugRep(c, Leaf, null);
    PlugNodes(c, Leaf);
    var j := PlugRB(c, Leaf, k);
    BlackHeightUnique(Plug(c, Leaf), j);
  }
}
