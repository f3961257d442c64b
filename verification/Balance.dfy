/** Red-black balance of subtrees and of contexts, and what the steps of insertion do to it. */
module Balance {
  import opened References
  import opened Ordering
  import opened Shape
  import opened Rotations

  /** No red node has a red child, and every path down from t meets h black nodes. */
  ghost predicate RB(t: Tree, h: nat) {
    match t
    case Leaf => h == 0
    case Branch(_, red, _, l, r) =>
      if red then !l.IsRed() && !r.IsRed() && RB(l, h) && RB(r, h)
      else h > 0 && RB(l, h - 1) && RB(r, h - 1)
  }

  ghost function BlackHeight(t: Tree): nat {
    if t.Leaf? then 0 else BlackHeight(t.left) + if t.red then 0 else 1
  }

  ghost predicate Balanced(t: Tree) { RB(t, BlackHeight(t)) }

  /** Memory at n holds the red-black tree t. */
  ghost predicate Planted(t: Tree, n: Node?)
    reads t.Nodes()
  {
    Rep(t, n) && t.Distinct() && Balanced(t)
  }

  lemma BlackHeightUnique(t: Tree, h: nat)
    requires RB(t, h)
    ensures BlackHeight(t) == h
  {
  }

  /** A tree of one node. */
  lemma {:induction false} LoneNode(n: Node, red: bool, data: Item)
    ensures var t := Branch(n, red, data, Leaf, Leaf);
            && Balanced(t) && t.Distinct() && t.Nodes() == {n} && t.Items() == [data]
            && (Rep(t, n) <==> n.red == red && n.data == data && n.link == Links(null, null))
  {
    assert BlackHeight(Leaf) == 0 && RB(Leaf, 0);
  }

  lemma {:induction false} JoinRB(node: Node, red: bool, data: Item, dir: bool, a: Tree, b: Tree, h: nat)
    ensures RB(Join(node, red, data, dir, a, b), h) <==>
            if red then !a.IsRed() && !b.IsRed() && RB(a, h) && RB(b, h) else h > 0 && RB(a, h - 1) && RB(b, h - 1)
  {
  }

  lemma {:induction false} SplitRB(t: Tree, dir: bool, h: nat)
    requires t.Branch?
    ensures var a, b := t.Kid(dir), t.Kid(!dir);
            RB(t, h) <==>
            if t.red then !a.IsRed() && !b.IsRed() && RB(a, h) && RB(b, h) else h > 0 && RB(a, h - 1) && RB(b, h - 1)
  {
  }

  /** ctx becomes a red-black tree when its link gets one of black height h. */
  ghost predicate CtxRB(ctx: Ctx, h: nat) {
    ctx.Down? ==>
      && RB(ctx.sib, h)
      && (ctx.red ==> !ctx.sib.IsRed() && !ctx.up.IsRed())
      && CtxRB(ctx.up, if ctx.red then h else h + 1)
  }

  ghost predicate ZipRB(ctx: Ctx, f: Tree, h: nat) {
    RB(f, h) && CtxRB(ctx, h) && !(ctx.IsRed() && f.IsRed())
  }

  lemma {:induction false} PlugRB(ctx: Ctx, f: Tree, h: nat) returns (k: nat)
    requires ZipRB(ctx, f, h)
    decreases ctx
    ensures RB(Plug(ctx, f), k)
  {
    if ctx.Top? {
      k := h;
    } else {
      k := PlugRB(ctx.up, Join(ctx.node, ctx.red, ctx.data, ctx.dir, f, ctx.sib), if ctx.red then h else h + 1);
    }
  }

  /** Whether the root of the whole tree is red. */
  ghost predicate RootRed(ctx: Ctx, f: Tree) {
    if ctx.Top? then f.IsRed() else FrameRootRed(ctx)
  }

  ghost predicate FrameRootRed(ctx: Ctx)
    requires ctx.Down?
  {
    if ctx.up.Top? then ctx.red else FrameRootRed(ctx.up)
  }

  lemma {:induction false} PlugRoot(ctx: Ctx, f: Tree)
    ensures Plug(ctx, f).IsRed() <==> RootRed(ctx, f)
    ensures ctx.Down? || f.Branch? ==> Plug(ctx, f).Branch?
    decreases ctx
  {
    if ctx.Down? {
      PlugRoot(ctx.up, Join(ctx.node, ctx.red, ctx.data, ctx.dir, f, ctx.sib));
    }
  }

  /* ---------- insertion ---------- */

  ghost function Painted(t: Tree, red: bool): Tree {
    if t.Leaf? then Leaf else Branch(t.node, red, t.data, t.left, t.right)
  }

  lemma {:induction false} PaintedKeeps(t: Tree, red: bool)
    ensures Painted(t, red).Items() == t.Items() && Painted(t, red).Nodes() == t.Nodes()
    ensures Painted(t, red).Distinct() <==> t.Distinct()
  {
  }

  ghost predicate BothKidsRed(t: Tree) { t.Branch? && t.left.IsRed() && t.right.IsRed() }

  ghost predicate NoKidRed(t: Tree) { t.Branch? && !t.left.IsRed() && !t.right.IsRed() }

  /** A black node with no red child. */
  ghost predicate Quiet(t: Tree) { NoKidRed(t) && !t.red }

  /** The colour flip. */
  ghost function Flipped(t: Tree): Tree {
    if BothKidsRed(t) then Branch(t.node, true, t.data, Painted(t.left, false), Painted(t.right, false)) else t
  }

  lemma {:induction false} FlippedKeeps(t: Tree)
    ensures Flipped(t).Items() == t.Items()
    ensures Flipped(t).Nodes() == t.Nodes()
    ensures t.Distinct() ==> Flipped(t).Distinct()
  {
    if BothKidsRed(t) {
      PaintedKeeps(t.left, false);
      PaintedKeeps(t.right, false);
    }
  }

  /** A flip keeps the black height, and leaves black children without red children. */
  lemma {:induction false} FlippedRB(t: Tree, h: nat)
    requires RB(t, h)
    ensures RB(Flipped(t), h)
    ensures BothKidsRed(t) ==> !t.red && Quiet(Flipped(t).left) && Quiet(Flipped(t).right)
  {
    if BothKidsRed(t) {
      var l, r := t.left, t.right;
      assert RB(l, h - 1) && RB(r, h - 1);
      JoinRB(l.node, false, l.data, true, l.right, l.left, h);
      JoinRB(r.node, false, r.data, true, r.right, r.left, h);
    }
  }

  /** The link, its holder p and p's parent g: the two frames a rotation works on. */
  ghost predicate TwoFrames(ctx: Ctx) { ctx.Down? && ctx.up.Down? }

  /** The subtree at g. */
  ghost function AtGrandparent(ctx: Ctx, f: Tree): Tree
    requires TwoFrames(ctx)
  {
    Join(ctx.up.node, ctx.up.red, ctx.up.data, ctx.up.dir,
         Join(ctx.node, ctx.red, ctx.data, ctx.dir, f, ctx.sib), ctx.up.sib)
  }

  /** Outer red child: after the single rotation p is above q and g. */
  ghost function OuterCtx(ctx: Ctx): Ctx
    requires TwoFrames(ctx)
  {
    var last := ctx.up.dir;
    Down(ctx.node, false, ctx.data, last, Join(ctx.up.node, true, ctx.up.data, !last, ctx.up.sib, ctx.sib), ctx.up.up)
  }

  /** Inner red child: after the double rotation q is above p and g. */
  ghost function InnerTree(ctx: Ctx, f: Tree): Tree
    requires TwoFrames(ctx) && f.Branch?
  {
    var last := ctx.up.dir;
    Join(f.node, false, f.data, last,
         Join(ctx.node, true, ctx.data, last, ctx.sib, f.Kid(last)),
         Join(ctx.up.node, true, ctx.up.data, last, f.Kid(!last), ctx.up.sib))
  }

  lemma {:induction false} OuterIsRotated(ctx: Ctx, f: Tree)
    requires TwoFrames(ctx) && ctx.dir == ctx.up.dir
    ensures var o := OuterCtx(ctx);
            Rotated(AtGrandparent(ctx, f), !ctx.up.dir) == Join(o.node, o.red, o.data, o.dir, f, o.sib)
  {
  }

  lemma {:induction false} InnerIsRotatedTwice(ctx: Ctx, f: Tree)
    requires TwoFrames(ctx) && ctx.dir != ctx.up.dir && f.Branch?
    ensures CanRotateTwice(AtGrandparent(ctx, f), !ctx.up.dir)
    ensures RotatedTwice(AtGrandparent(ctx, f), !ctx.up.dir) == InnerTree(ctx, f)
  {
  }

  /** The red-red edge that a flip or a new node makes; the uncle of the edge is not red. */
  ghost predicate RedRed(ctx: Ctx, f: Tree, h: nat) {
    RB(f, h) && CtxRB(ctx, h) && f.IsRed() && ctx.IsRed() && TwoFrames(ctx) && !ctx.up.sib.IsRed()
  }

  lemma {:induction false} OuterRB(ctx: Ctx, f: Tree, h: nat)
    requires RedRed(ctx, f, h)
    ensures ZipRB(OuterCtx(ctx), f, h)
    ensures RootRed(OuterCtx(ctx), f) <==> RootRed(ctx, f)
  {
    var last := ctx.up.dir;
    assert CtxRB(ctx.up, h) && CtxRB(ctx.up.up, h + 1);
    assert FrameRootRed(ctx) <==> FrameRootRed(ctx.up);
    JoinRB(ctx.up.node, true, ctx.up.data, !last, ctx.up.sib, ctx.sib, h);
  }

  lemma {:induction false} InnerRB(ctx: Ctx, f: Tree, h: nat)
    requires RedRed(ctx, f, h)
    ensures ZipRB(ctx.up.up, InnerTree(ctx, f), h + 1)
    ensures RootRed(ctx.up.up, InnerTree(ctx, f)) <==> RootRed(ctx, f)
  {
    var last := ctx.up.dir;
    var a := Join(ctx.node, true, ctx.data, last, ctx.sib, f.Kid(last));
    var b := Join(ctx.up.node, true, ctx.up.data, last, f.Kid(!last), ctx.up.sib);
    assert CtxRB(ctx.up, h) && CtxRB(ctx.up.up, h + 1);
    assert FrameRootRed(ctx) <==> FrameRootRed(ctx.up);
    SplitRB(f, last, h);
    JoinRB(ctx.node, true, ctx.data, last, ctx.sib, f.Kid(last), h);
    JoinRB(ctx.up.node, true, ctx.up.data, last, f.Kid(!last), ctx.up.sib, h);
    JoinRB(f.node, false, f.data, last, a, b, h + 1);
  }
}
