/** Lines of rb_tree.c whose text misses their evident intent, and exactly when they go right. */
module AsWritten {
  import opened References
  import opened Ordering
  import opened Shape
  import opened Rotations
  import opened Balance
  import opened InsertDescent
  import opened InsertWalk
  import opened RbTrees

  /** Line 260 rotates once at g although q is the inner child. */
  ghost function RepairedOnce(ctx: Ctx, f: Tree): Tree
    requires TwoFrames(ctx)
  {
    Rotated(AtGrandparent(ctx, f), !ctx.up.dir)
  }

  /** Lines 253-262 as written remove a red-red edge exactly when q is the outer child, the case of
      line 258; in the zig-zag case the edge moves to g and q. */
  lemma {:induction false} SingleRotationIsExact(ctx: Ctx, f: Tree, h: nat)
    requires RedRed(ctx, f, h)
    ensures (exists k :: RB(RepairedOnce(ctx, f), k)) <==> ctx.dir == ctx.up.dir
  {
    var last, t := ctx.up.dir, RepairedOnce(ctx, f);
    if ctx.dir == last {
      OuterRB(ctx, f, h);
      OuterIsRotated(ctx, f);
      var o := OuterCtx(ctx);
      JoinRB(o.node, false, o.data, last, f, o.sib, h + 1);
      assert RB(t, h + 1);
    } else {
      var g := t.Kid(!last);
      assert g == Join(ctx.up.node, true, ctx.up.data, !last, ctx.up.sib, f);
      forall k: nat
        ensures !RB(t, k)
      {
        SplitRB(t, last, k);
        if k > 0 {
          JoinRB(ctx.up.node, true, ctx.up.data, !last, ctx.up.sib, f, k - 1);
        }
      }
    }
  }

  /** The zig-zag case comes up: with a, then c in the tree, inserting b between them makes one, and line
      260 as written leaves no red-black tree. */
  lemma {:induction false} ThirdInsertZigZags(na: Node, nb: Node, nc: Node, a: Item, b: Item, c: Item,
      rank: Item -> int)
    requires rank(a) < rank(b) < rank(c)
    ensures var s := Settle(Settle(Leaf, a, na, rank), c, nc, rank);
            s.Branch? &&
            var p := WalkFrom(s.node, s, b, rank); var f := Branch(nb, true, b, Leaf, Leaf);
            && p.At? && p.f.Leaf? && RedRed(p.ctx, f, 0) && p.ctx.dir != p.ctx.up.dir
            && forall k :: !RB(RepairedOnce(p.ctx, f), k)
  {
    var s := Branch(na, false, a, Leaf, Branch(nc, true, c, Leaf, Leaf));
    GrownIn(Settle(Leaf, a, na, rank), c, nc, rank, 1);
    assert s == Settle(Settle(Leaf, a, na, rank), c, nc, rank);
    Stays(At(Top(na), s), b, rank, 2, 2 * Size(s) + 1);
    var p := WalkFrom(na, s, b, rank);
    assert p == At(Down(nc, true, c, false, Leaf, Down(na, false, a, true, Leaf, Top(na))), Leaf);
    SingleRotationIsExact(p.ctx, Branch(nb, true, b, Leaf, Leaf), 0);
  }

  /** Line 286 as written blackens the root only on failure, so the first node stays red; from there
      inserting x halts at line 63 exactly when x differs from the stored item. */
  lemma {:induction false} SecondInsertHalts(n: Node, d: Item, x: Item, rank: Item -> int)
    ensures RotatesAtNull(Branch(n, true, d, Leaf, Leaf), x, true, rank) <==> rank(d) != rank(x)
  {
    var s := Branch(n, true, d, Leaf, Leaf);
    assert s.Kid(GoesRight(s, x, rank)) == Leaf;
  }

  lemma {:induction false} OnlyNode(t: Tree, d: Item)
    requires t.Branch? && t.red && t.Items() == [d]
    ensures t == Branch(t.node, true, d, Leaf, Leaf)
  {
    assert t.Items()[|t.left.Items()|] == t.data;
    assert t.left.Items() == [] && t.right.Items() == [];
  }

  lemma {:induction false} OnlyItem(l: Ledger, d: Item, x: Item, rank: Item -> int)
    ensures Ascending([d], rank) && (Holds([d], x, rank) <==> rank(d) == rank(x))
    ensures Accounts(l, []) ==> Accounts(l.Inc(d), [d])
  {
    assert [d][0] == d;
  }

  /** The same in memory: lines 219-284 twice on a new tree, without the blackening that line 286
      withholds. */
  method FirstTwoInserts(operations: Operations, d: Item, x: Item, canAlloc: bool) returns (result: KernReturn)
    requires TotalPreorder(operations.comparator)
    ensures result.Bug? <==> operations.comparator(d, x) != 0 && canAlloc
    ensures result.NoSpace? <==> operations.comparator(d, x) != 0 && !canAlloc
  {
    hide Inserted, Accounts, Acquired, Ascending, Holds;
    var tree := new RbTree(operations);
    OnlyItem(tree.ledger, d, x, tree.rank);
    var first, added := tree.PlantRoot(d, true);
    tree.drift := tree.drift - 1;   // line 288 is passed over as well
    OnlyNode(tree.shape, d);
    SecondInsertHalts(tree.shape.node, d, x, tree.rank);
    result, added := tree.InsertBelow(x, canAlloc);
  }

  /** Lines 219-287 as written, on any valid tree: when the insertion fails, line 287 follows the root,
      which is null exactly if the tree was empty. */
  method FollowsNullRoot(tree: RbTree, data: Item, canAlloc: bool) returns (fault: bool)
    requires tree.Valid()
    modifies tree`root, tree`shape, tree`ledger, tree.shape.Nodes()`red, tree.shape.Nodes()`link
    ensures fault <==> old(tree.Contents()) == [] && !canAlloc
  {
    hide Accounts, Inserted, Acquired, Grown, Holds;
    InsertedEmpty(data, tree.rank);
    var result, added := tree.Place(data, canAlloc);
    fault := result == NoSpace && tree.root == null;
  }
}
