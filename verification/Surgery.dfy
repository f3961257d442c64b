/** The pointer updates of insertion and removal, each proved to turn one tree-with-a-link-taken-out
    into another. */
module Surgery {
  import opened References
  import opened Ordering
  import opened Shape
  import opened Rotations
  import opened Balance

  /** holder->link[dir] = n, at the link that ctx describes. */
  method SetLink(holder: Node, dir: bool, n: Node?, ghost ctx: Ctx, ghost c: Node?)
    requires CtxRep(ctx, c) && ctx.Distinct() && holder == ctx.Holder() && dir == ctx.Dir()
    modifies holder`link
    ensures CtxRep(ctx, n)
    ensures holder.link == old(holder.link).With(dir, n)
  {
    assert ctx.Down? ==> allocated(ctx.sib.Nodes()) && allocated(ctx.up.Nodes());
    holder.link := holder.link.With(dir, n);
  }

  /** The test (t->link[1] == g) finds the link that holds g. */
  lemma {:induction false} LinkOf(ctx: Ctx, c: Node)
    requires CtxRep(ctx, c) && c !in ctx.Nodes()
    ensures (ctx.Holder().link.right == c) == ctx.Dir()
  {
  }

  method Flip(q: Node, ghost f: Tree)
    requires BothKidsRed(f) && f.Distinct() && Rep(f, q)
    modifies q`red, f.left.node`red, f.right.node`red
    ensures Rep(Flipped(f), q)
  {
    q.red := true;
    q.link.left.red := false;
    q.link.right.red := false;
  }

  lemma {:induction false} AscendTwice(ctx: Ctx, f: Tree, c: Node?)
    requires TwoFrames(ctx)
    ensures Zip(ctx, f, c) ==> Zip(ctx.up.up, AtGrandparent(ctx, f), ctx.up.node)
    ensures ctx.Nodes() + f.Nodes() == ctx.up.up.Nodes() + AtGrandparent(ctx, f).Nodes()
    ensures Items(ctx, f) == Items(ctx.up.up, AtGrandparent(ctx, f))
  {
    var t := Join(ctx.node, ctx.red, ctx.data, ctx.dir, f, ctx.sib);
    Ascend(ctx, f, c);
    Ascend(ctx.up, t, ctx.node);
    AscendItems(ctx, f);
    AscendItems(ctx.up, t);
    JoinNodes(ctx.node, ctx.red, ctx.data, ctx.dir, f, ctx.sib);
    JoinNodes(ctx.up.node, ctx.up.red, ctx.up.data, ctx.up.dir, t, ctx.up.sib);
  }

  /** Lines 253-262: repair the red-red edge between p and q by a rotation at g. */
  method RotateOuter(t: Node, g: Node, last: bool, ghost ctx: Ctx, ghost f: Tree, ghost q: Node)
    requires TwoFrames(ctx) && Zip(ctx, f, q) && ctx.dir == last
    requires t == ctx.up.up.Holder() && g == ctx.up.node && last == ctx.up.dir
    modifies t`link, g`red, g`link, ctx.node`red, ctx.node`link
    ensures Zip(OuterCtx(ctx), f, q)
    ensures OuterCtx(ctx).Nodes() + f.Nodes() == ctx.Nodes() + f.Nodes()
  {
    hide Rotated, Tree.Items;
    ghost var rest, tree := ctx.up.up, AtGrandparent(ctx, f);
    ghost var after := Rotated(tree, !last);
    AscendTwice(ctx, f, q);
    RotatedNodes(tree, !last);
    OuterIsRotated(ctx, f);
    LinkOf(rest, g);
    assert allocated(rest.Nodes());
    var dir2 := t.link.right == g;
    var top := Single(g, !last, tree);
    assert CtxRep(rest, g);
    assert allocated(after.Nodes());
    SetLink(t, dir2, top, rest, g);
    assert Zip(rest, after, top);
    Ascend(OuterCtx(ctx), f, q);
    JoinNodes(OuterCtx(ctx).node, false, OuterCtx(ctx).data, last, f, OuterCtx(ctx).sib);
  }

  method RotateInner(t: Node, g: Node, last: bool, ghost ctx: Ctx, ghost f: Tree, ghost q: Node)
    requires TwoFrames(ctx) && Zip(ctx, f, q) && ctx.dir != last && f.Branch?
    requires t == ctx.up.up.Holder() && g == ctx.up.node && last == ctx.up.dir
    modifies t`link, g`red, g`link, ctx.node`red, ctx.node`link, f.node`red, f.node`link
    ensures Zip(ctx.up.up, InnerTree(ctx, f), q)
    ensures ctx.up.up.Nodes() + InnerTree(ctx, f).Nodes() == ctx.Nodes() + f.Nodes()
  {
    hide RotatedTwice, Tree.Items;
    ghost var rest, tree := ctx.up.up, AtGrandparent(ctx, f);
    AscendTwice(ctx, f, q);
    InnerIsRotatedTwice(ctx, f);
    RotatedTwiceKeeps(tree, !last);
    LinkOf(rest, g);
    assert allocated(rest.Nodes());
    var dir2 := t.link.right == g;
    var top := Double(g, !last, tree);
    assert CtxRep(rest, g);
    assert allocated(InnerTree(ctx, f).Nodes());
    SetLink(t, dir2, top, rest, g);
  }
}
