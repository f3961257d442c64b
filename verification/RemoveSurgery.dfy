/** The pointer updates of removal. */
module RemoveSurgery {
  import opened References
  import opened Ordering
  import opened Shape
  import opened Rotations
  import opened Balance
  import opened Surgery
  import opened InsertDescent
  import opened RemoveDescent

  /** Lines 336-338. */
  method TurnDown(p: Node, q: Node, last: bool, dir: bool, ghost ctx: Ctx, ghost f: Tree) returns (top: Node)
    requires Zip(ctx, f, q) && f.Branch? && f.Kid(!dir).Branch? && p == ctx.Holder() && last == ctx.Dir()
    modifies p`link, q`red, q`link, f.Kid(!dir).node`red, f.Kid(!dir).node`link
    ensures var (c, t) := TurnedDown(ctx, f, dir);
            Zip(c, t, q) && top == c.Holder() && c.Nodes() + t.Nodes() == ctx.Nodes() + f.Nodes()
  {
    ghost var after, c, t := Rotated(f, dir), TurnedDown(ctx, f, dir).0, TurnedDown(ctx, f, dir).1;
    Split(f, dir);
    RotatedNodes(f, dir);
    assert allocated(ctx.Nodes());
    top := Single(q, dir, f);
    assert CtxRep(ctx, q);
    assert allocated(after.Nodes());
    SetLink(p, last, top, ctx, q);
    assert Zip(ctx, after, top);
    assert after == Join(c.node, c.red, c.data, c.dir, t, c.sib);
    Ascend(c, t, q);
    JoinNodes(c.node, c.red, c.data, c.dir, t, c.sib);
  }

  /** Lines 344-347. */
  method FlipApart(p: Node, q: Node, s: Node, ghost ctx: Ctx, ghost f: Tree)
    requires Zip(ctx, f, q) && f.Branch? && ctx.Down? && ctx.sib.Branch? && p == ctx.node && s == ctx.sib.node
    modifies p`red, q`red, s`red
    ensures var (c, t) := FlippedApart(ctx, f);
            Zip(c, t, q) && p == c.Holder() && c.Nodes() + t.Nodes() == ctx.Nodes() + f.Nodes()
  {
    assert allocated(ctx.up.Nodes()) && allocated(f.left.Nodes()) && allocated(f.right.Nodes());
    assert allocated(ctx.sib.left.Nodes()) && allocated(ctx.sib.right.Nodes());
    PaintedKeeps(f, true);
    PaintedKeeps(ctx.sib, true);
    p.red := false;
    s.red := true;
    q.red := true;
  }

  /** The subtree below g after a rotation at p: top has come up, p is below it in direction last, with
      q's subtree f and beside it a; b is top's other subtree. */
  datatype Lift = Lift(top: Node, data: Item, last: bool, p: Node, pdata: Item, f: Tree, a: Tree, b: Tree) {
    ghost function Shape(red: bool, pred: bool): Tree {
      Join(top, red, data, last, Join(p, pred, pdata, last, f, a), b)
    }

    /** Lines 357-360: ensure correct colouring. */
    ghost function Recoloured(): Lift { this.(f := Painted(f, true), b := Painted(b, false)) }
  }

  lemma {:induction false} LiftedNodes(l: Lift, red: bool, pred: bool)
    ensures var t := l.Shape(red, pred);
            && t.Nodes() == {l.top, l.p} + l.f.Nodes() + l.a.Nodes() + l.b.Nodes()
            && (t.Distinct() <==> l.top != l.p && {l.top, l.p} !! l.f.Nodes() + l.a.Nodes() + l.b.Nodes()
                                  && l.f.Nodes() !! l.a.Nodes() && l.f.Nodes() !! l.b.Nodes()
                                  && l.a.Nodes() !! l.b.Nodes()
                                  && l.f.Distinct() && l.a.Distinct() && l.b.Distinct())
  {
    JoinNodes(l.p, pred, l.pdata, l.last, l.f, l.a);
    JoinNodes(l.top, red, l.data, l.last, Join(l.p, pred, l.pdata, l.last, l.f, l.a), l.b);
  }

  lemma {:induction false} LiftedRep(l: Lift, red: bool, pred: bool, n: Node)
    ensures Rep(l.Shape(red, pred), n) <==>
            && n == l.top && l.top.red == red && l.top.data == l.data && l.top.link.At(l.last) == l.p
            && l.p.red == pred && l.p.data == l.pdata
            && Rep(l.f, l.p.link.At(l.last)) && Rep(l.a, l.p.link.At(!l.last)) && Rep(l.b, l.top.link.At(!l.last))
  {
    RepJoin(l.p, pred, l.pdata, l.last, l.f, l.a, l.p);
    RepJoin(l.top, red, l.data, l.last, Join(l.p, pred, l.pdata, l.last, l.f, l.a), l.b, n);
  }

  lemma {:induction false} RecolouredApart(up: Ctx, l: Lift, red: bool, pred: bool)
    requires Apart(up, l.Shape(red, pred))
    ensures Apart(up, l.Recoloured().Shape(true, false))
  {
    LiftedNodes(l, red, pred);
    PaintedKeeps(l.f, true);
    PaintedKeeps(l.b, false);
    LiftedNodes(l.Recoloured(), true, false);
  }

  /** Lines 357-360. */
  method Recolour(g: Node, dir2: bool, q: Node, ghost up: Ctx, ghost l: Lift, ghost red: bool, ghost pred: bool)
    requires l.f.Branch? && l.b.Branch? && q == l.f.node && g == up.Holder() && dir2 == up.Dir()
    requires Zip(up, l.Shape(red, pred), l.top)
    modifies q`red, l.top`red, l.p`red, l.b.node`red
    ensures Zip(up, l.Recoloured().Shape(true, false), l.top)
  {
    hide Lift.Shape, Painted;
    RecolouredApart(up, l, red, pred);
    LiftedNodes(l, red, pred);
    LiftedRep(l, red, pred, l.top);
    RecolourNodes(g, dir2, q, up, l);
    LiftedRep(l.Recoloured(), true, false, l.top);
  }

  method RecolourNodes(g: Node, dir2: bool, q: Node, ghost up: Ctx, ghost l: Lift)
    requires l.f.Branch? && l.b.Branch? && q == l.f.node && g == up.Holder() && dir2 == up.Dir()
    requires CtxRep(up, l.top) && l.top.link.At(l.last) == l.p
    requires Rep(l.f, q) && Rep(l.a, l.p.link.At(!l.last)) && Rep(l.b, l.top.link.At(!l.last))
    requires l.f.Distinct() && l.b.Distinct() && l.top != l.p
    requires {l.top, l.p} !! l.f.Nodes() + l.a.Nodes() + l.b.Nodes()
    requires l.f.Nodes() !! l.a.Nodes() && l.f.Nodes() !! l.b.Nodes() && l.a.Nodes() !! l.b.Nodes()
    requires {l.top, l.p} !! up.Nodes() && up.Nodes() !! l.f.Nodes() && up.Nodes() !! l.b.Nodes()
    modifies q`red, l.top`red, l.p`red, l.b.node`red
    ensures CtxRep(up, l.top) && Rep(l.a, l.p.link.At(!l.last))
    ensures Rep(Painted(l.f, true), q) && Rep(Painted(l.b, false), l.b.node)
    ensures l.top.red && !l.p.red
  {
    ghost var f, b := l.f, l.b;
    var n := g.link.At(dir2);
    assert n == l.top;
    var x, y := n.link.left, n.link.right;
    assert (x == l.p && y == b.node) || (x == b.node && y == l.p);
    assert {q, n, x, y} !! up.Nodes() && {q, n, x, y} !! l.a.Nodes();
    assert {q, n, x, y} !! f.left.Nodes() + f.right.Nodes() && {q, n, x, y} !! b.left.Nodes() + b.right.Nodes();
    PaintFour(q, n, x, y, up, f, l.a, l.p.link.At(!l.last), b);
  }

  method PaintFour(q: Node, n: Node, x: Node, y: Node, ghost up: Ctx, ghost f: Tree, ghost a: Tree,
      ghost root: Node?, ghost b: Tree)
    requires q != n && q != x && q != y && n != x && n != y && x != y
    requires f.Branch? && f.node == q && b.Branch? && b.node in {x, y}
    requires CtxRep(up, n) && Rep(f, q) && Rep(a, root) && Rep(b, b.node)
    requires {q, n, x, y} !! up.Nodes() && {q, n, x, y} !! a.Nodes() && {x, y} !! f.Nodes() && {q, n} !! b.Nodes()
    requires {q, n, x, y} !! f.left.Nodes() + f.right.Nodes() && {q, n, x, y} !! b.left.Nodes() + b.right.Nodes()
    modifies {q, n, x, y}`red
    ensures CtxRep(up, n) && Rep(a, root) && Rep(Painted(f, true), q) && Rep(Painted(b, false), b.node)
    ensures n.red && !x.red && !y.red
  {
    hide CtxRep, Rep, Painted;
    PaintedKeeps(f, true);
    PaintRed(q, n, up, f, a, root, b, b.node);
    PaintBlack(x, y, n, up, b, a, root, Painted(f, true), q);
  }

  /** Two nodes become red: q, the root of f, and n; the trees t and u and the context are elsewhere. */
  method PaintRed(q: Node, n: Node, ghost up: Ctx, ghost f: Tree, ghost t: Tree, ghost tn: Node?, ghost u: Tree,
      ghost un: Node?)
    requires q != n && f.Branch? && f.node == q && CtxRep(up, n) && Rep(f, q) && Rep(t, tn) && Rep(u, un)
    requires {q, n} !! up.Nodes() && {q, n} !! t.Nodes() && {q, n} !! u.Nodes() &&
               {q, n} !! f.left.Nodes() + f.right.Nodes()
    modifies q`red, n`red
    ensures CtxRep(up, n) && Rep(t, tn) && Rep(u, un) && Rep(Painted(f, true), q) && n.red
  {
    hide CtxRep;
    assert allocated(up.Nodes()) && allocated(t.Nodes()) && allocated(u.Nodes());
    assert allocated(f.left.Nodes()) && allocated(f.right.Nodes());
    q.red := true;
    n.red := true;
  }

  /** Two nodes become black, one of them the root of b; the trees t and u and the context are elsewhere. */
  method PaintBlack(x: Node, y: Node, ghost n: Node, ghost up: Ctx, ghost b: Tree, ghost t: Tree, ghost tn: Node?,
      ghost u: Tree, ghost un: Node?)
    requires x != y && b.Branch? && b.node in {x, y} && CtxRep(up, n) && Rep(b, b.node) && Rep(t, tn) && Rep(u, un)
    requires {x, y} !! up.Nodes() && {x, y} !! t.Nodes() && {x, y} !! u.Nodes() &&
               {x, y} !! b.left.Nodes() + b.right.Nodes()
    modifies x`red, y`red
    ensures CtxRep(up, n) && Rep(t, tn) && Rep(u, un) && Rep(Painted(b, false), b.node) && !x.red && !y.red
  {
    hide CtxRep;
    assert allocated(up.Nodes()) && allocated(t.Nodes()) && allocated(u.Nodes());
    assert allocated(b.left.Nodes()) && allocated(b.right.Nodes());
    x.red := false;
    y.red := false;
  }

  /** The subtree at p. */
  ghost function AtParent(ctx: Ctx, f: Tree): Tree
    requires ctx.Down?
  {
    Join(ctx.node, ctx.red, ctx.data, ctx.dir, f, ctx.sib)
  }

  lemma {:induction false} LiftedZip(up: Ctx, l: Lift)
    requires l.f.Branch? && Zip(up, l.Shape(true, false), l.top)
    ensures Zip(Down(l.p, false, l.pdata, l.last, l.a, Down(l.top, true, l.data, l.last, l.b, up)), l.f, l.f.node)
  {
    var c' := Down(l.top, true, l.data, l.last, l.b, up);
    var c := Down(l.p, false, l.pdata, l.last, l.a, c');
    LiftedRep(l, true, false, l.top);
    Ascend(c', Join(l.p, false, l.pdata, l.last, l.f, l.a), l.p);
    Ascend(c, l.f, l.f.node);
  }

  /** Line 352 or 354: the link at g takes the rotated subtree. */
  method LinkRotated(g: Node, p: Node, top: Node, dir2: bool, ghost up: Ctx, ghost tree: Tree, ghost after: Tree)
    requires CtxRep(up, p) && Rep(after, top) && after.Distinct() && up.Distinct() && up.Nodes() !! after.Nodes()
    requires g == up.Holder() && dir2 == up.Dir()
    modifies g`link
    ensures Zip(up, after, top)
  {
    assert allocated(after.Nodes());
    SetLink(g, dir2, top, up, p);
  }

  ghost function InnerLift(ctx: Ctx, f: Tree): Lift
    requires ctx.Down? && ctx.sib.Branch? && ctx.sib.Kid(ctx.dir).Branch?
  {
    var last, s := ctx.dir, ctx.sib;
    var r := s.Kid(last);
    Lift(r.node, r.data, last, ctx.node, ctx.data, f, r.Kid(last),
         Join(s.node, true, s.data, !last, s.Kid(!last), r.Kid(!last)))
  }

  lemma {:induction false} InnerLiftIsRotated(ctx: Ctx, f: Tree)
    requires ctx.Down? && ctx.sib.Branch? && ctx.sib.Kid(ctx.dir).Branch? && f.Branch?
    ensures CanRotateTwice(AtParent(ctx, f), ctx.dir)
    ensures InnerLift(ctx, f).Shape(false, true) == RotatedTwice(AtParent(ctx, f), ctx.dir)
    ensures var l := InnerLift(ctx, f).Recoloured();
            BorrowedInner(ctx, f) ==
              (Down(l.p, false, l.pdata, l.last, l.a, Down(l.top, true, l.data, l.last, l.b, ctx.up)), l.f)
  {
  }

  /** Lines 351-360 when the sibling's inner child is red. */
  method BorrowInner(g: Node, p: Node, q: Node, last: bool, ghost ctx: Ctx, ghost f: Tree)
    requires Zip(ctx, f, q) && f.Branch? && ctx.Down? && ctx.sib.Branch? && ctx.sib.Kid(ctx.dir).Branch?
    requires g == ctx.up.Holder() && p == ctx.node && last == ctx.dir
    modifies g`link, (ctx.Nodes() + f.Nodes())`red, (ctx.Nodes() + f.Nodes())`link
    ensures var (c, t) := BorrowedInner(ctx, f); Zip(c, t, q) && p == c.Holder()
  {
    hide RotatedTwice, BorrowedInner, Lift.Shape, Tree.Items;
    ghost var tree, l, up := AtParent(ctx, f), InnerLift(ctx, f), ctx.up;
    ghost var after := l.Shape(false, true);
    InnerLiftIsRotated(ctx, f);
    Ascend(ctx, f, q);
    RotatedTwiceKeeps(tree, last);
    LinkOf(up, p);
    Split(ctx.sib, last);
    assert allocated(up.Nodes());
    var dir2 := g.link.right == p;
    var top := Double(p, last, tree);
    LinkRotated(g, p, top, dir2, up, tree, after);
    Recolour(g, dir2, q, up, l, false, true);
    LiftedZip(up, l.Recoloured());
  }

  /** Lines 351-360 when only the outer child is red. */
  method BorrowOuter(g: Node, p: Node, q: Node, last: bool, ghost ctx: Ctx, ghost f: Tree)
    requires Zip(ctx, f, q) && f.Branch? && ctx.Down? && ctx.sib.Branch? && ctx.sib.Kid(!ctx.dir).Branch?
    requires g == ctx.up.Holder() && p == ctx.node && last == ctx.dir
    modifies g`link, (ctx.Nodes() + f.Nodes())`red, (ctx.Nodes() + f.Nodes())`link
    ensures var (c, t) := BorrowedOuter(ctx, f); Zip(c, t, q) && p == c.Holder()
  {
    ghost var tree, s, up := AtParent(ctx, f), ctx.sib, ctx.up;
    ghost var a, b := s.Kid(last), s.Kid(!last);
    ghost var l := Lift(s.node, s.data, last, p, ctx.data, f, a, b);
    ghost var after := l.Shape(false, true);
    assert after == Rotated(tree, last);
    Ascend(ctx, f, q);
    RotatedNodes(tree, last);
    LinkOf(up, p);
    Split(s, last);
    assert allocated(up.Nodes());
    var dir2 := g.link.right == p;
    var top := Single(p, last, tree);
    LinkRotated(g, p, top, dir2, up, tree, after);
    Recolour(g, dir2, q, up, l, false, true);
    LiftedZip(up, l.Recoloured());
  }

  /** Lines 334-364: push a red node down from q. */
  method PushDown(g: Node?, p: Node, q: Node, last: bool, dir: bool, ghost ctx: Ctx, ghost f: Tree,
      ghost h: nat) returns (parent: Node)
    requires Zip(ctx, f, q) && f.Branch? && p == ctx.Holder() && last == ctx.Dir()
    requires g == if ctx.Down? then ctx.up.Holder() else null
    requires ZipRB(ctx, f, h) && Pushed(ctx, f)
    modifies (ctx.Nodes() + f.Nodes())`red, (ctx.Nodes() + f.Nodes())`link
    ensures var (c, t) := PushedDown(ctx, f, dir); Zip(c, t, q) && parent == c.Holder()
  {
    hide ZipRB, Pushed, TurnedDown, FlippedApart, BorrowedInner, BorrowedOuter;
    parent := p;
    assert Rep(f.Kid(dir), q.link.At(dir)) && Rep(f.Kid(!dir), q.link.At(!dir));
    if !IsRed(q) && !IsRed(q.link.At(dir)) {
      if IsRed(q.link.At(!dir)) {
        parent := TurnDown(p, q, last, dir, ctx, f);
      } else {
        var s := p.link.At(!last);
        if s != null {
          SiblingIsBlack(ctx, f, h, dir);
          assert Rep(ctx.sib.Kid(last), s.link.At(last)) && Rep(ctx.sib.Kid(!last), s.link.At(!last));
          if !IsRed(s.link.At(!last)) && !IsRed(s.link.At(last)) {
            FlipApart(p, q, s, ctx, f);
          } else if IsRed(s.link.At(last)) {
            BorrowInner(g, p, q, last, ctx, f);
          } else {
            BorrowOuter(g, p, q, last, ctx, f);
          }
        }
      }
    }
  }

  /** Where the owner's data has been overwritten, the context represents the replaced one. */
  twostate lemma {:induction false} ReplacedRep(ctx: Ctx)
    requires ctx.Distinct() && Owner(ctx) != null && old(allocated(ctx.Nodes()))
    requires forall o | o in ctx.Nodes() :: old(allocated(o)) && o.link == old(o.link) && o.red == old(o.red)
    requires forall o | o in ctx.Nodes() && o != Owner(ctx) :: old(allocated(o)) && unchanged(o)
    requires old(CtxRep(ctx, ctx.Holder().link.At(ctx.Dir())))
    ensures CtxRep(Replaced(ctx, Owner(ctx).data), ctx.Holder().link.At(ctx.Dir()))
    decreases ctx
  {
    if ctx.Down? {
      assert old(allocated(ctx.sib.Nodes())) && old(allocated(ctx.up.Nodes()));
      if ctx.dir {
        OwnerIsNext(ctx.up);
        ReplacedRep(ctx.up);
      } else {
        assert Owner(ctx) !in ctx.up.Nodes() && Owner(ctx) !in ctx.sib.Nodes();
      }
    }
  }
}
