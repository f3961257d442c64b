/** Insertion's way down: which of the helper pointers t, g, p can be trusted, and why the
    descent ends. */
module InsertDescent {
  import opened References
  import opened Ordering
  import opened Shape
  import opened Rotations
  import opened Balance

  /** Where the descent stands at the top of the loop:
      - Start, First: q is the root, or the link one below it, and there is no grandparent;
      - Normal: t, g, p is the ancestor chain of q;
      - Turned: a rotation two links up left t stale, and q is black without red children;
      - TurnedTwice: a double rotation left t and g stale; q is the red node it pushed down. */
  datatype Stage = Start | First | Normal | Turned | TurnedTwice

  /** The local variables of the loop. */
  datatype Helpers = Helpers(t: Node, g: Node?, p: Node?, dir: bool, last: bool)

  ghost predicate GoesRight(t: Tree, x: Item, rank: Item -> int)
    requires t.Branch?
  {
    rank(t.data) < rank(x)
  }

  /** Insertion rotates at a null grandparent: the root is red, differs from x, and the link below
      it gets a red node, either the new one or one that a colour flip reddens. */
  ghost predicate RotatesAtNull(s: Tree, x: Item, canAlloc: bool, rank: Item -> int) {
    && s.IsRed() && rank(s.data) != rank(x)
    && var k := s.Kid(GoesRight(s, x, rank)); if k.Leaf? then canAlloc else BothKidsRed(k)
  }

  /** The helper pointers at the top of the loop; s is the tree before the call. */
  ghost predicate Aligned(stage: Stage, ctx: Ctx, f: Tree, v: Helpers, s: Tree, x: Item, rank: Item -> int) {
    match stage
    case Start => ctx.Top? && f == s && f.Branch? && v.t == ctx.head && v.g == null && v.p == null
    case First =>
      && ctx.Down? && ctx.up.Top? && s.Branch?
      && v.t == ctx.up.head && v.g == null && v.p == ctx.node && v.dir == ctx.dir
      && rank(s.data) != rank(x) && ctx.dir == GoesRight(s, x, rank)
      && (s.red ==> f == s.Kid(ctx.dir))
      && (ctx.red && !s.red ==> Quiet(f))
      && (f.IsRed() ==> !ctx.sib.IsRed())
    case Normal =>
      && TwoFrames(ctx)
      && v.t == ctx.up.up.Holder() && v.g == ctx.up.node && v.p == ctx.node && v.dir == ctx.dir && v.last == ctx.up.dir
      && (f.IsRed() ==> !ctx.sib.IsRed())
      && (ctx.red && ctx.up.sib.IsRed() ==> Quiet(f))
    case Turned =>
      && TwoFrames(ctx)
      && v.g == ctx.up.node && v.p == ctx.node && v.dir == ctx.dir && v.last == ctx.up.dir
      && Quiet(f)
    case TurnedTwice =>
      && ctx.Down? && v.p == ctx.node && v.dir == ctx.dir && v.g != null
      && NoKidRed(f) && f.red
      && rank(f.data) != rank(x) && Quiet(f.Kid(GoesRight(f, x, rank)))
  }

  ghost predicate RootColour(stage: Stage, ctx: Ctx, f: Tree, s: Tree) {
    stage != Start ==> (RootRed(ctx, f) <==> s.IsRed() || BothKidsRed(s))
  }

  ghost predicate Between(ctx: Ctx, x: Item, rank: Item -> int) {
    AllBelow(ctx.Pre(), rank(x), rank) && AllFrom(ctx.Post(), rank(x) + 1, rank)
  }

  lemma {:induction false} BetweenAscends(ctx: Ctx, x: Item, rank: Item -> int)
    requires ctx.Down? && Between(ctx, x, rank)
    ensures rank(ctx.data) != rank(x) && ctx.dir == (rank(ctx.data) < rank(x))
    ensures Between(ctx.up, x, rank)
  {
    var r, sib, up := rank(x), ctx.sib.Items(), ctx.up;
    if ctx.dir {
      BelowConcat(up.Pre() + sib, [ctx.data], r, rank);
      BelowConcat(up.Pre(), sib, r, rank);
      assert [ctx.data][0] == ctx.data;
    } else {
      FromConcat([ctx.data] + sib, up.Post(), r + 1, rank);
      FromConcat([ctx.data], sib, r + 1, rank);
      assert [ctx.data][0] == ctx.data;
    }
  }

  /** What decreases, although the subtree at q can grow: a double rotation enters a subtree that
      holds an already compared node besides the part still to be searched. */
  ghost function Measure(stage: Stage, f: Tree, x: Item, rank: Item -> int): nat {
    if stage == TurnedTwice && f.Branch? then 2 * Size(f.Kid(GoesRight(f, x, rank))) + 1 else 2 * Size(f)
  }

  ghost function Size(t: Tree): nat { if t.Leaf? then 0 else 1 + Size(t.left) + Size(t.right) }

  /** One link further down from f's root. */
  ghost function Below(ctx: Ctx, f: Tree, dir: bool): Ctx
    requires f.Branch?
  {
    Down(f.node, f.red, f.data, dir, f.Kid(!dir), ctx)
  }

  lemma {:induction false} DescendZip(c: Ctx, t: Tree, q: Node, dir: bool)
    requires t.Branch? && Zip(c, t, q)
    ensures Zip(Below(c, t, dir), t.Kid(dir), q.link.At(dir))
    ensures Below(c, t, dir).Nodes() + t.Kid(dir).Nodes() == c.Nodes() + t.Nodes()
  {
    Split(t, dir);
    Ascend(Below(c, t, dir), t.Kid(dir), q.link.At(dir));
  }

  lemma {:induction false} BelowKeeps(c: Ctx, t: Tree, m: nat, dir: bool) returns (k: nat)
    requires t.Branch? && ZipRB(c, t, m)
    ensures var b, f := Below(c, t, dir), t.Kid(dir);
            ZipRB(b, f, k) && Items(b, f) == Items(c, t) && HeadOf(b) == HeadOf(c) && (RootRed(b, f) <==> RootRed(c, t))
  {
    AscendItems(Below(c, t, dir), t.Kid(dir));
    SplitRB(t, dir, m);
    k := if t.red then m else m - 1;
  }

  ghost function MovedDown(v: Helpers, q: Node, dir: bool): Helpers {
    Helpers(if v.g != null then v.g else v.t, v.p, q, dir, v.dir)
  }

  ghost function NextStage(stage: Stage): Stage {
    match stage
    case Start => First
    case TurnedTwice => Turned
    case _ => Normal
  }

  /** Without a red-red edge the helpers move down one link. */
  lemma {:induction false} CalmAligned(stage: Stage, ctx: Ctx, f: Tree, h: nat, v: Helpers, s: Tree, x: Item,
      rank: Item -> int, dir: bool)
    requires Aligned(stage, ctx, f, v, s, x, rank) && ZipRB(ctx, f, h) && f.Branch?
    requires rank(f.data) != rank(x) && !(Flipped(f).IsRed() && ctx.IsRed()) && dir == GoesRight(f, x, rank)
    ensures Aligned(NextStage(stage), Below(ctx, Flipped(f), dir), Flipped(f).Kid(dir), MovedDown(v, f.node, dir), s,
              x, rank)
  {
    FlippedRB(f, h);
    assert dir == GoesRight(Flipped(f), x, rank);
  }

  lemma {:induction false} CalmShrinks(stage: Stage, ctx: Ctx, f: Tree, v: Helpers, s: Tree, x: Item,
      rank: Item -> int, dir: bool)
    requires Aligned(stage, ctx, f, v, s, x, rank) && f.Branch? && dir == GoesRight(f, x, rank)
    ensures Measure(NextStage(stage), Flipped(f).Kid(dir), x, rank) < Measure(stage, f, x, rank)
  {
    assert Size(Flipped(f).left) == Size(f.left) && Size(Flipped(f).right) == Size(f.right);
  }

  /** A red-red edge with a grandparent appears only where the helpers are the ancestor chain, the
      uncle is black, and the node there is new or just reddened by a flip. */
  lemma {:induction false} ViolationIsAligned(stage: Stage, ctx: Ctx, f: Tree, f1: Tree, h: nat, v: Helpers, s: Tree,
      x: Item, canAlloc: bool, rank: Item -> int)
    requires Aligned(stage, ctx, f, v, s, x, rank) && ZipRB(ctx, f, h)
    requires if f.Leaf? then canAlloc && NoKidRed(f1) && f1.red && f1.left.Leaf? && f1.right.Leaf? else f1 == Flipped(f)
    requires f1.IsRed() && ctx.IsRed()
    ensures v.g == null ==> RotatesAtNull(s, x, canAlloc, rank)
    ensures v.g != null ==> stage == Normal && RedRed(ctx, f1, h) && (f.Branch? ==> BothKidsRed(f))
  {
    FlippedRB(f, h);
  }

  /** If no red-red edge is found directly below the root, RotatesAtNull cannot be the case. */
  lemma {:induction false} CalmIsNotNull(stage: Stage, ctx: Ctx, f: Tree, f1: Tree, v: Helpers, s: Tree, x: Item,
      canAlloc: bool, rank: Item -> int)
    requires Aligned(stage, ctx, f, v, s, x, rank) && stage in {Start, First}
    requires if f.Leaf? then (canAlloc ==> f1.IsRed()) else f1 == Flipped(f)
    requires (f.Branch? || canAlloc) ==> !(f1.IsRed() && ctx.IsRed())
    requires stage == Start ==> rank(s.data) == rank(x)
    requires RootColour(stage, ctx, f, s)
    ensures !RotatesAtNull(s, x, canAlloc, rank)
  {
  }

  /** After the single rotation. */
  lemma {:induction false} OuterAligned(ctx: Ctx, f: Tree, h: nat, v: Helpers, s: Tree, x: Item, rank: Item -> int,
      dir: bool)
    requires Aligned(Normal, ctx, f, v, s, x, rank) && BothKidsRed(f) && RB(f, h) && ctx.dir == ctx.up.dir
    ensures var f1 := Flipped(f);
            Aligned(Turned, Below(OuterCtx(ctx), f1, dir), f1.Kid(dir), MovedDown(v, f.node, dir), s, x, rank)
  {
    FlippedRB(f, h);
  }

  /** After the double rotation: x lies between q and the red child it goes to, so from there the
      way leads back into the part of q's old subtree that is still to be searched. */
  lemma {:induction false} InnerAligned(ctx: Ctx, f: Tree, h: nat, v: Helpers, s: Tree, x: Item, rank: Item -> int,
      dir: bool)
    requires Aligned(Normal, ctx, f, v, s, x, rank) && BothKidsRed(f) && RedRed(ctx, Flipped(f), h) && RB(f, h) &&
               ctx.dir != ctx.up.dir
    requires rank(f.data) != rank(x) && dir == GoesRight(f, x, rank)
    requires Between(ctx, x, rank)
    ensures var t := InnerTree(ctx, Flipped(f));
            && Aligned(TurnedTwice, Below(ctx.up.up, t, dir), t.Kid(dir), MovedDown(v, f.node, dir), s, x, rank)
            && Measure(TurnedTwice, t.Kid(dir), x, rank) < Measure(Normal, f, x, rank)
  {
    FlippedRB(f, h);
    var f1 := Flipped(f);
    var t := InnerTree(ctx, f1);
    BetweenAscends(ctx, x, rank);
    BetweenAscends(ctx.up, x, rank);
    assert t.Kid(dir).Kid(GoesRight(t.Kid(dir), x, rank)) == f1.Kid(dir);
    assert Size(f1.left) == Size(f.left) && Size(f1.right) == Size(f.right);
  }

  /* ---------- one turn of the loop ---------- */

  ghost predicate HasRedEdge(ctx: Ctx, f: Tree) { ctx.IsRed() && f.IsRed() }

  /** The tree after lines 253-262, seen from the link to q. */
  ghost function Repaired(ctx: Ctx, f: Tree): (Ctx, Tree)
    requires HasRedEdge(ctx, f) ==> TwoFrames(ctx)
  {
    if !HasRedEdge(ctx, f) then (ctx, f)
    else if ctx.dir == ctx.up.dir then (OuterCtx(ctx), f)
    else (ctx.up.up, InnerTree(ctx, f))
  }

  lemma {:induction false} RepairedItems(ctx: Ctx, f: Tree)
    requires HasRedEdge(ctx, f) ==> TwoFrames(ctx)
    ensures var (c, t) := Repaired(ctx, f); Items(c, t) == Items(ctx, f)
  {
    if HasRedEdge(ctx, f) {
      var tree := AtGrandparent(ctx, f);
      AscendItems(ctx, f);
      AscendItems(ctx.up, Join(ctx.node, ctx.red, ctx.data, ctx.dir, f, ctx.sib));
      if ctx.dir == ctx.up.dir {
        OuterIsRotated(ctx, f);
        RotatedItems(tree, !ctx.up.dir);
        AscendItems(OuterCtx(ctx), f);
      } else {
        InnerIsRotatedTwice(ctx, f);
        RotatedTwiceKeeps(tree, !ctx.up.dir);
      }
    }
  }

  lemma {:induction false} RepairedRB(ctx: Ctx, f: Tree, h: nat) returns (k: nat)
    requires RB(f, h) && CtxRB(ctx, h) && (HasRedEdge(ctx, f) ==> RedRed(ctx, f, h))
    ensures var (c, t) := Repaired(ctx, f);
            ZipRB(c, t, k) && (RootRed(c, t) <==> RootRed(ctx, f)) && HeadOf(c) == HeadOf(ctx)
  {
    k := h;
    if HasRedEdge(ctx, f) {
      assert HeadOf(ctx) == HeadOf(ctx.up) == HeadOf(ctx.up.up);
      if ctx.dir == ctx.up.dir {
        OuterRB(ctx, f, h);
      } else {
        InnerRB(ctx, f, h);
        k := h + 1;
      }
    }
  }

  lemma {:induction false} RepairedBetween(ctx: Ctx, f: Tree, x: Item, rank: Item -> int)
    requires HasRedEdge(ctx, f) ==> TwoFrames(ctx)
    requires Between(ctx, x, rank)
    ensures Between(Repaired(ctx, f).0, x, rank)
  {
    if HasRedEdge(ctx, f) {
      BetweenAscends(ctx, x, rank);
      BetweenAscends(ctx.up, x, rank);
      if ctx.dir == ctx.up.dir {
        OuterSides(ctx);
      }
    }
  }

  lemma {:induction false} OuterSides(ctx: Ctx)
    requires TwoFrames(ctx) && ctx.dir == ctx.up.dir
    ensures OuterCtx(ctx).Pre() == ctx.Pre() && OuterCtx(ctx).Post() == ctx.Post()
  {
    var g, up := ctx.up, ctx.up.up;
    if ctx.dir {
      assert ctx.Pre() == up.Pre() + (g.sib.Items() + [g.data] + ctx.sib.Items()) + [ctx.data];
    } else {
      assert ctx.Post() == [ctx.data] + (ctx.sib.Items() + [g.data] + g.sib.Items()) + up.Post();
    }
  }

  /** In a sorted tree the comparison at f's root decides for everything on one side of it. */
  lemma {:induction false} SearchDescends(ctx: Ctx, f: Tree, dir: bool, lo: int, hi: int, rank: Item -> int)
    requires f.Branch? && Ascending(Items(ctx, f), rank)
    requires AllBelow(ctx.Pre(), lo, rank) && AllFrom(ctx.Post(), hi, rank)
    requires if dir then rank(f.data) < lo else hi <= rank(f.data)
    ensures AllBelow(Below(ctx, f, dir).Pre(), lo, rank) && AllFrom(Below(ctx, f, dir).Post(), hi, rank)
  {
    SidesOfRoot(ctx, f, rank);
    if dir {
      BelowConcat(ctx.Pre() + f.left.Items(), [f.data], lo, rank);
      BelowConcat(ctx.Pre(), f.left.Items(), lo, rank);
    } else {
      FromConcat([f.data] + f.right.Items(), ctx.Post(), hi, rank);
      FromConcat([f.data], f.right.Items(), hi, rank);
    }
  }

  lemma {:induction false} SidesOfRoot(ctx: Ctx, f: Tree, rank: Item -> int)
    requires f.Branch? && Ascending(Items(ctx, f), rank)
    ensures AllBelow(f.left.Items(), rank(f.data), rank) && AllFrom(f.right.Items(), rank(f.data) + 1, rank)
  {
    var pre, l, r, post, d := ctx.Pre(), f.left.Items(), f.right.Items(), ctx.Post(), [f.data];
    assert Items(ctx, f) == pre + (l + (d + (r + post)));
    AscendingConcat(pre, l + (d + (r + post)), rank);
    AscendingConcat(l, d + (r + post), rank);
    AscendingConcat(d, r + post, rank);
    FromConcat(r, post, rank(f.data) + 1, rank);
  }

  ghost function StageAfter(stage: Stage, ctx: Ctx, f1: Tree): Stage
    requires HasRedEdge(ctx, f1) ==> TwoFrames(ctx)
  {
    if !HasRedEdge(ctx, f1) then NextStage(stage) else if ctx.dir == ctx.up.dir then Turned else TurnedTwice
  }

  /** A turn that does not find x moves the helpers to the next stage, and the measure goes down. */
  lemma {:induction false} TurnAligned(stage: Stage, ctx: Ctx, f: Tree, h: nat, v: Helpers, s: Tree, x: Item,
      rank: Item -> int, dir: bool)
    requires Aligned(stage, ctx, f, v, s, x, rank) && ZipRB(ctx, f, h) && f.Branch?
    requires rank(f.data) != rank(x) && dir == GoesRight(f, x, rank) && Between(ctx, x, rank)
    requires HasRedEdge(ctx, Flipped(f)) ==> v.g != null
    ensures HasRedEdge(ctx, Flipped(f)) ==> TwoFrames(ctx)
    ensures var (c, t) := Repaired(ctx, Flipped(f)); var next := StageAfter(stage, ctx, Flipped(f));
            && t.Branch? && t.node == f.node && t.data == f.data
            && Aligned(next, Below(c, t, dir), t.Kid(dir), MovedDown(v, f.node, dir), s, x, rank)
            && Measure(next, t.Kid(dir), x, rank) < Measure(stage, f, x, rank)
  {
    var f1 := Flipped(f);
    if HasRedEdge(ctx, f1) {
      ViolationIsAligned(stage, ctx, f, f1, h, v, s, x, true, rank);
      if ctx.dir == ctx.up.dir {
        OuterAligned(ctx, f, h, v, s, x, rank, dir);
        assert Size(f1.left) == Size(f.left) && Size(f1.right) == Size(f.right);
      } else {
        InnerAligned(ctx, f, h, v, s, x, rank, dir);
      }
    } else {
      CalmAligned(stage, ctx, f, h, v, s, x, rank, dir);
      CalmShrinks(stage, ctx, f, v, s, x, rank, dir);
    }
  }

  /** The loop invariant of insertion, apart from memory: s is the tree before the call. */
  ghost predicate OnTheWay(stage: Stage, ctx: Ctx, f: Tree, h: nat, v: Helpers, s: Tree, x: Item, canAlloc: bool,
      rank: Item -> int) {
    && Ascending(s.Items(), rank) && Items(ctx, f) == s.Items()
    && ZipRB(ctx, f, h)
    && Aligned(stage, ctx, f, v, s, x, rank)
    && RootColour(stage, ctx, f, s)
    && Between(ctx, x, rank)
    && (stage !in {Start, First} ==> !RotatesAtNull(s, x, canAlloc, rank))
  }

  /** How the descent leaves the tree: c and t are the link to q and the subtree there. */
  ghost predicate Arrived(c: Ctx, t: Tree, k: nat, s: Tree, x: Item, canAlloc: bool, rank: Item -> int,
      items: seq<Item>) {
    && ZipRB(c, t, k) && Items(c, t) == items
    && (c.Down? || t.Branch?)
    && (RootRed(c, t) <==> s.IsRed() || BothKidsRed(s))
    && !RotatesAtNull(s, x, canAlloc, rank)
  }

  lemma {:induction false} Starts(s: Tree, head: Node, x: Item, canAlloc: bool, rank: Item -> int)
    requires s.Branch? && Balanced(s) && Ascending(s.Items(), rank)
    ensures OnTheWay(Start, Top(head), s, BlackHeight(s), Helpers(head, null, null, false, false), s, x, canAlloc, rank)
  {
    assert Items(Top(head), s) == s.Items();
  }

  lemma {:induction false} NullGrandparent(stage: Stage, ctx: Ctx, f: Tree, f1: Tree, h: nat, v: Helpers, s: Tree,
      x: Item, canAlloc: bool, rank: Item -> int)
    requires OnTheWay(stage, ctx, f, h, v, s, x, canAlloc, rank)
    requires if f.Leaf? then canAlloc && NoKidRed(f1) && f1.red && f1.left.Leaf? && f1.right.Leaf? else f1 == Flipped(f)
    requires HasRedEdge(ctx, f1)
    ensures v.g == null ==> RotatesAtNull(s, x, canAlloc, rank)
    ensures v.g != null ==> TwoFrames(ctx) && v.t == ctx.up.up.Holder() && v.g == ctx.up.node && v.last == ctx.up.dir
  {
    ViolationIsAligned(stage, ctx, f, f1, h, v, s, x, canAlloc, rank);
  }

  lemma {:induction false} RootColourAfter(stage: Stage, ctx: Ctx, f: Tree, f1: Tree, s: Tree)
    requires RootColour(stage, ctx, f, s) && (stage == Start ==> ctx.Top? && f == s && f.Branch?)
    requires if f.Branch? then f1 == Flipped(f) else ctx.Down?
    requires stage != Start ==> ctx.Down?
    ensures RootRed(ctx, f1) <==> s.IsRed() || BothKidsRed(s)
  {
  }

  /** A node equal to x was found at q. */
  lemma {:induction false} Finds(stage: Stage, ctx: Ctx, f: Tree, h: nat, v: Helpers, s: Tree, x: Item,
      canAlloc: bool, rank: Item -> int) returns (k: nat)
    requires OnTheWay(stage, ctx, f, h, v, s, x, canAlloc, rank)
    requires f.Branch? && rank(f.data) == rank(x) && (HasRedEdge(ctx, Flipped(f)) ==> v.g != null)
    ensures Holds(s.Items(), x, rank)
    ensures HasRedEdge(ctx, Flipped(f)) ==> TwoFrames(ctx)
    ensures var (c, t) := Repaired(ctx, Flipped(f)); Arrived(c, t, k, s, x, canAlloc, rank, s.Items())
  {
    var f1 := Flipped(f);
    assert Items(ctx, f)[|ctx.Pre() + f.left.Items()|] == f.data;
    FlippedRB(f, h);
    FlippedKeeps(f);
    if HasRedEdge(ctx, f1) {
      ViolationIsAligned(stage, ctx, f, f1, h, v, s, x, canAlloc, rank);
    } else if stage in {Start, First} {
      CalmIsNotNull(stage, ctx, f, f1, v, s, x, canAlloc, rank);
    }
    RootColourAfter(stage, ctx, f, f1, s);
    RepairedItems(ctx, f1);
    k := RepairedRB(ctx, f1, h);
  }

  /** The new node was linked in at q. */
  lemma {:induction false} LinksIn(stage: Stage, ctx: Ctx, f1: Tree, h: nat, v: Helpers, s: Tree, x: Item,
      rank: Item -> int) returns (k: nat)
    requires OnTheWay(stage, ctx, Leaf, h, v, s, x, true, rank)
    requires f1.Branch? && f1 == Branch(f1.node, true, x, Leaf, Leaf)
    requires HasRedEdge(ctx, f1) ==> v.g != null
    ensures !Holds(s.Items(), x, rank)
    ensures HasRedEdge(ctx, f1) ==> TwoFrames(ctx)
    ensures var (c, t) := Repaired(ctx, f1); Arrived(c, t, k, s, x, true, rank, Inserted(s.Items(), x, rank))
  {
    if HasRedEdge(ctx, f1) {
      ViolationIsAligned(stage, ctx, Leaf, f1, h, v, s, x, true, rank);
    } else if stage in {Start, First} {
      CalmIsNotNull(stage, ctx, Leaf, f1, v, s, x, true, rank);
    }
    RootColourAfter(stage, ctx, Leaf, f1, s);
    NotHeld(ctx, x, rank);
    InsertedBetween(ctx.Pre(), ctx.Post(), x, rank);
    assert f1.Items() == [x];
    RepairedItems(ctx, f1);
    k := RepairedRB(ctx, f1, h);
  }

  lemma {:induction false} NotHeld(ctx: Ctx, x: Item, rank: Item -> int)
    requires Between(ctx, x, rank)
    ensures Items(ctx, Leaf) == ctx.Pre() + ctx.Post() && !Holds(Items(ctx, Leaf), x, rank)
  {
    assert Items(ctx, Leaf) == ctx.Pre() + ctx.Post();
  }

  /** No node could be allocated at q. */
  lemma {:induction false} Fails(stage: Stage, ctx: Ctx, h: nat, v: Helpers, s: Tree, x: Item, rank: Item -> int)
    requires OnTheWay(stage, ctx, Leaf, h, v, s, x, false, rank)
    ensures !Holds(s.Items(), x, rank)
    ensures Arrived(ctx, Leaf, h, s, x, false, rank, s.Items())
  {
    NotHeld(ctx, x, rank);
    if stage in {Start, First} {
      CalmIsNotNull(stage, ctx, Leaf, Leaf, v, s, x, false, rank);
    }
  }

  /** x was not found at q: the invariant holds one link further down. */
  lemma {:induction false} Continues(stage: Stage, ctx: Ctx, f: Tree, h: nat, v: Helpers, s: Tree, x: Item,
      canAlloc: bool, rank: Item -> int, dir: bool)
    returns (next: Stage, k: nat)
    requires OnTheWay(stage, ctx, f, h, v, s, x, canAlloc, rank)
    requires f.Branch? && rank(f.data) != rank(x) && dir == GoesRight(f, x, rank)
    requires HasRedEdge(ctx, Flipped(f)) ==> v.g != null
    ensures HasRedEdge(ctx, Flipped(f)) ==> TwoFrames(ctx)
    ensures var (c, t) := Repaired(ctx, Flipped(f));
            && t.Branch? && t.node == f.node && t.data == f.data
            && OnTheWay(next, Below(c, t, dir), t.Kid(dir), k, MovedDown(v, f.node, dir), s, x, canAlloc, rank)
            && HeadOf(Below(c, t, dir)) == HeadOf(ctx)
            && Measure(next, t.Kid(dir), x, rank) < Measure(stage, f, x, rank)
  {
    var f1 := Flipped(f);
    next := StageAfter(stage, ctx, f1);
    TurnAligned(stage, ctx, f, h, v, s, x, rank, dir);
    var (c, t) := Repaired(ctx, f1);
    FlippedRB(f, h);
    FlippedKeeps(f);
    if HasRedEdge(ctx, f1) {
      ViolationIsAligned(stage, ctx, f, f1, h, v, s, x, canAlloc, rank);
    }
    RootColourAfter(stage, ctx, f, f1, s);
    RepairedItems(ctx, f1);
    var m := RepairedRB(ctx, f1, h);
    RepairedBetween(ctx, f1, x, rank);
    SearchDescends(c, t, dir, rank(x), rank(x) + 1, rank);
    k := BelowKeeps(c, t, m, dir);
    if stage == First && !HasRedEdge(ctx, f1) {
      CalmIsNotNullBelow(ctx, f, v, s, x, canAlloc, rank);
    }
  }

  lemma {:induction false} CalmIsNotNullBelow(ctx: Ctx, f: Tree, v: Helpers, s: Tree, x: Item, canAlloc: bool,
      rank: Item -> int)
    requires Aligned(First, ctx, f, v, s, x, rank) && f.Branch? && RootColour(First, ctx, f, s)
    requires !HasRedEdge(ctx, Flipped(f))
    ensures !RotatesAtNull(s, x, canAlloc, rank)
  {
    CalmIsNotNull(First, ctx, f, Flipped(f), v, s, x, canAlloc, rank);
  }

  /** Found or linked in: what the search leaves behind. */
  lemma {:induction false} Arrives(stage: Stage, ctx: Ctx, f: Tree, f1: Tree, h: nat, v: Helpers, s: Tree, x: Item,
      canAlloc: bool, rank: Item -> int)
    returns (k: nat)
    requires OnTheWay(stage, ctx, f, h, v, s, x, canAlloc, rank)
    requires if f.Leaf? then canAlloc && f1.Branch? && f1 == Branch(f1.node, true, x, Leaf, Leaf) else f1 == Flipped(f)
    requires HasRedEdge(ctx, f1) ==> v.g != null && TwoFrames(ctx)
    requires f1.Branch? && rank(f1.data) == rank(x)
    ensures f.Leaf? <==> !Holds(s.Items(), x, rank)
    ensures var (c, t) := Repaired(ctx, f1);
            Arrived(c, t, k, s, x, canAlloc, rank, Inserted(s.Items(), x, rank)) && HeadOf(c) == HeadOf(ctx)
  {
    if f.Leaf? {
      k := LinksIn(stage, ctx, f1, h, v, s, x, rank);
    } else {
      k := Finds(stage, ctx, f, h, v, s, x, canAlloc, rank);
      InsertedHeld(s.Items(), x, rank);
    }
    if HasRedEdge(ctx, f1) {
      assert HeadOf(ctx) == HeadOf(ctx.up) == HeadOf(ctx.up.up);
    }
  }

  /** Continues, with the memory that the helpers point into. */
  lemma {:induction false} Advances(stage: Stage, ctx: Ctx, f: Tree, h: nat, v: Helpers, s: Tree, x: Item,
      canAlloc: bool, rank: Item -> int, n: Node, dir: bool)
    returns (next: Stage, c2: Ctx, f2: Tree, k: nat)
    requires OnTheWay(stage, ctx, f, h, v, s, x, canAlloc, rank)
    requires f.Branch? && rank(f.data) != rank(x) && dir == GoesRight(f, x, rank)
    requires HasRedEdge(ctx, Flipped(f)) ==> v.g != null && TwoFrames(ctx)
    requires var (c, t) := Repaired(ctx, Flipped(f)); Zip(c, t, n)
    ensures Zip(c2, f2, n.link.At(dir)) && OnTheWay(next, c2, f2, k, MovedDown(v, n, dir), s, x, canAlloc, rank)
    ensures var (c, t) := Repaired(ctx, Flipped(f)); t.Branch? && c2 == Below(c, t, dir) && f2 == t.Kid(dir)
    ensures HeadOf(c2) == HeadOf(ctx) && Measure(next, f2, x, rank) < Measure(stage, f, x, rank)
    ensures var (c, t) := Repaired(ctx, Flipped(f)); c2.Nodes() + f2.Nodes() == c.Nodes() + t.Nodes()
  {
    var (c, t) := Repaired(ctx, Flipped(f));
    next, k := Continues(stage, ctx, f, h, v, s, x, canAlloc, rank, dir);
    DescendZip(c, t, n, dir);
    c2, f2 := Below(c, t, dir), t.Kid(dir);
  }

  lemma {:induction false} HelperFacts(stage: Stage, ctx: Ctx, f: Tree, h: nat, v: Helpers, s: Tree, x: Item,
      canAlloc: bool, rank: Item -> int)
    requires OnTheWay(stage, ctx, f, h, v, s, x, canAlloc, rank)
    ensures v.p == if ctx.Down? then ctx.node else null
    ensures f.Leaf? ==> ctx.Down? && v.dir == ctx.dir
  {
  }

  /** The tree under the false root once the search has ended. */
  lemma {:induction false} Unplug(c: Ctx, t: Tree, k: nat, s: Tree, x: Item, canAlloc: bool, rank: Item -> int,
      items: seq<Item>)
    requires Zip(c, t, t.Root()) && Arrived(c, t, k, s, x, canAlloc, rank, items)
    ensures var u := Plug(c, t);
            && u.Branch? && Planted(u, HeadOf(c).link.right) && HeadOf(c).link.right == u.node && u.Items() == items
            && u.Nodes() + {HeadOf(c)} == c.Nodes() + t.Nodes() && HeadOf(c) !in u.Nodes()
            && (u.red <==> s.IsRed() || BothKidsRed(s))
  {
    PlugRep(c, t, t.Root());
    PlugNodes(c, t);
    PlugRoot(c, t);
    var j := PlugRB(c, t, k);
    BlackHeightUnique(Plug(c, t), j);
  }

  lemma {:induction false} InsertedEmpty(x: Item, rank: Item -> int)
    ensures Inserted([], x, rank) == [x] && !Holds([], x, rank)
    ensures forall canAlloc :: !RotatesAtNull(Leaf, x, canAlloc, rank)
  {
  }
}
