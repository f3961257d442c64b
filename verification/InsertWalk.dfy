/** Where insertion leads: the tree it leaves behind, as a function of the tree before. */
module InsertWalk {
  import opened References
  import opened Ordering
  import opened Shape
  import opened Balance
  import opened InsertDescent

  /** Where the search stands at the top of the loop, or stopped because an equal item was found. */
  datatype Spot = At(ctx: Ctx, f: Tree) | Found(ctx: Ctx, f: Tree)

  /** One turn of the loop of lines 237-280.  The search stays at a null link, and at a red-red edge
      without a grandparent, which halts. */
  ghost function Next(p: Spot, x: Item, rank: Item -> int): Spot {
    if p.Found? || p.f.Leaf? || (HasRedEdge(p.ctx, Flipped(p.f)) && !TwoFrames(p.ctx)) then p
    else
      var (c, t) := Repaired(p.ctx, Flipped(p.f));
      if rank(t.data) == rank(x) then Found(c, t)
      else At(Below(c, t, GoesRight(t, x, rank)), t.Kid(GoesRight(t, x, rank)))
  }

  ghost function Walked(p: Spot, x: Item, rank: Item -> int, turns: nat): Spot
    decreases turns
  {
    if turns == 0 then p else Walked(Next(p, x, rank), x, rank, turns - 1)
  }

  /** Line 245 and, for the new node, lines 253-262; n is the new node, if there is one. */
  ghost function Linked(p: Spot, x: Item, n: Node?): (Ctx, Tree) {
    if n == null || p.Found? || p.f.Branch? then (p.ctx, p.f)
    else
      var f := Branch(n, true, x, Leaf, Leaf);
      if HasRedEdge(p.ctx, f) && !TwoFrames(p.ctx) then (p.ctx, f) else Repaired(p.ctx, f)
  }

  ghost function WalkFrom(head: Node, s: Tree, x: Item, rank: Item -> int): Spot {
    Walked(At(Top(head), s), x, rank, 2 * Size(s) + 1)
  }

  /** What lines 219-283 make of s: n is the node they link in, null if there is none because an equal
      item is stored or no memory is to be had. */
  ghost function Grown(s: Tree, x: Item, n: Node?, rank: Item -> int): Tree {
    if s.Leaf? then if n == null then Leaf else Branch(n, true, x, Leaf, Leaf)
    else
      var (c, t) := Linked(WalkFrom(s.node, s, x, rank), x, n);
      Plug(c, t)
  }

  /** Lines 219-288 when they succeed. */
  ghost function Settle(s: Tree, x: Item, n: Node, rank: Item -> int): Tree { Painted(Grown(s, x, n, rank), false) }

  lemma {:induction false} WalkedOn(p: Spot, x: Item, rank: Item -> int, turns: nat)
    ensures Walked(p, x, rank, turns + 1) == Next(Walked(p, x, rank, turns), x, rank)
    decreases turns
  {
    if turns > 0 {
      WalkedOn(Next(p, x, rank), x, rank, turns - 1);
    }
  }

  /** Once stopped, the search stays where it is. */
  lemma {:induction false} Stays(p: Spot, x: Item, rank: Item -> int, turns: nat, more: nat)
    requires turns <= more && Next(Walked(p, x, rank, turns), x, rank) == Walked(p, x, rank, turns)
    ensures Walked(p, x, rank, more) == Walked(p, x, rank, turns)
    decreases more
  {
    if turns < more {
      Stays(p, x, rank, turns, more - 1);
      WalkedOn(p, x, rank, more - 1);
    }
  }

  /** After some turns the search for x in s, below the false root head, has come to ctx and f. */
  ghost predicate Reached(head: Node, s: Tree, x: Item, rank: Item -> int, turns: nat, stage: Stage, ctx: Ctx,
      f: Tree) {
    && Walked(At(Top(head), s), x, rank, turns) == At(ctx, f)
    && turns + Measure(stage, f, x, rank) <= 2 * Size(s)
  }

  lemma {:induction false} SetsOut(head: Node, s: Tree, x: Item, rank: Item -> int)
    ensures Reached(head, s, x, rank, 0, Start, Top(head), s)
  {
  }

  /** A turn that does not find x. */
  lemma {:induction false} Proceeds(head: Node, s: Tree, x: Item, rank: Item -> int, turns: nat, stage: Stage, ctx: Ctx,
      f: Tree, next: Stage)
    requires Reached(head, s, x, rank, turns, stage, ctx, f) && f.Branch? && rank(f.data) != rank(x)
    requires HasRedEdge(ctx, Flipped(f)) ==> TwoFrames(ctx)
    requires var (c, t) := Repaired(ctx, Flipped(f));
             t.Branch? && Measure(next, t.Kid(GoesRight(f, x, rank)), x, rank) < Measure(stage, f, x, rank)
    ensures var (c, t) := Repaired(ctx, Flipped(f)); var dir := GoesRight(f, x, rank);
            Reached(head, s, x, rank, turns + 1, next, Below(c, t, dir), t.Kid(dir))
  {
    WalkedOn(At(Top(head), s), x, rank, turns);
  }

  /** The turn in which the loop ends. */
  lemma {:induction false} Stops(head: Node, s: Tree, x: Item, rank: Item -> int, turns: nat, stage: Stage, ctx: Ctx,
      f: Tree, n: Node?)
    requires Reached(head, s, x, rank, turns, stage, ctx, f)
    requires f.Branch? ==> n == null && rank(f.data) == rank(x) && (HasRedEdge(ctx, Flipped(f)) ==> TwoFrames(ctx))
    requires n != null ==> (HasRedEdge(ctx, Branch(n, true, x, Leaf, Leaf)) ==> TwoFrames(ctx))
    ensures Linked(WalkFrom(head, s, x, rank), x, n) ==
              if f.Branch? then Repaired(ctx, Flipped(f))
              else if n == null then (ctx, Leaf)
              else Repaired(ctx, Branch(n, true, x, Leaf, Leaf))
  {
    var p := At(Top(head), s);
    if f.Branch? {
      WalkedOn(p, x, rank, turns);
      Stays(p, x, rank, turns + 1, 2 * Size(s) + 1);
    } else {
      Stays(p, x, rank, turns, 2 * Size(s) + 1);
    }
  }

  /* ---------- the false root does not matter ---------- */

  ghost function Rehead(ctx: Ctx, head: Node): Ctx {
    if ctx.Top? then Top(head) else Down(ctx.node, ctx.red, ctx.data, ctx.dir, ctx.sib, Rehead(ctx.up, head))
  }

  ghost function ReheadSpot(p: Spot, head: Node): Spot { p.(ctx := Rehead(p.ctx, head)) }

  lemma {:induction false} ReheadRepaired(ctx: Ctx, f: Tree, head: Node)
    ensures HasRedEdge(Rehead(ctx, head), f) <==> HasRedEdge(ctx, f)
    ensures TwoFrames(Rehead(ctx, head)) <==> TwoFrames(ctx)
    ensures (HasRedEdge(ctx, f) ==> TwoFrames(ctx)) ==>
              Repaired(Rehead(ctx, head), f) == (Rehead(Repaired(ctx, f).0, head), Repaired(ctx, f).1)
  {
    if TwoFrames(ctx) {
      assert Rehead(ctx.up, head).up == Rehead(ctx.up.up, head);
    }
  }

  lemma {:induction false} ReheadNext(p: Spot, x: Item, rank: Item -> int, head: Node)
    ensures Next(ReheadSpot(p, head), x, rank) == ReheadSpot(Next(p, x, rank), head)
  {
    ReheadRepaired(p.ctx, Flipped(p.f), head);
  }

  lemma {:induction false} ReheadWalked(p: Spot, x: Item, rank: Item -> int, head: Node, turns: nat)
    ensures Walked(ReheadSpot(p, head), x, rank, turns) == ReheadSpot(Walked(p, x, rank, turns), head)
    decreases turns
  {
    if turns > 0 {
      ReheadNext(p, x, rank, head);
      ReheadWalked(Next(p, x, rank), x, rank, head, turns - 1);
    }
  }

  lemma {:induction false} ReheadPlug(ctx: Ctx, f: Tree, head: Node)
    ensures Plug(Rehead(ctx, head), f) == Plug(ctx, f)
    decreases ctx
  {
    if ctx.Down? {
      ReheadPlug(ctx.up, Join(ctx.node, ctx.red, ctx.data, ctx.dir, f, ctx.sib), head);
    }
  }

  lemma {:induction false} AnyHead(head: Node, s: Tree, x: Item, n: Node?, rank: Item -> int)
    requires s.Branch?
    ensures var (c, t) := Linked(WalkFrom(head, s, x, rank), x, n); Plug(c, t) == Grown(s, x, n, rank)
  {
    var p := WalkFrom(head, s, x, rank);
    ReheadWalked(At(Top(head), s), x, rank, s.node, 2 * Size(s) + 1);
    assert WalkFrom(s.node, s, x, rank) == ReheadSpot(p, s.node);
    if n != null {
      ReheadRepaired(p.ctx, Branch(n, true, x, Leaf, Leaf), s.node);
    }
    var (c, t) := Linked(p, x, n);
    ReheadPlug(c, t, s.node);
  }

  /* ---------- working out Grown ---------- */

  ghost function Raised(p: (Ctx, Tree)): (Ctx, Tree) {
    if p.0.Top? then p else (p.0.up, Join(p.0.node, p.0.red, p.0.data, p.0.dir, p.1, p.0.sib))
  }

  ghost function RaisedFive(p: (Ctx, Tree)): (Ctx, Tree) { Raised(Raised(Raised(Raised(Raised(p))))) }

  lemma {:induction false} PlugRaised(p: (Ctx, Tree))
    ensures Plug(p.0, p.1) == Plug(Raised(p).0, Raised(p).1)
  {
  }

  lemma {:induction false} PlugFive(p: (Ctx, Tree))
    requires RaisedFive(p).0.Top?
    ensures Plug(p.0, p.1) == RaisedFive(p).1
  {
    PlugRaised(p);
    PlugRaised(Raised(p));
    PlugRaised(Raised(Raised(p)));
    PlugRaised(Raised(Raised(Raised(p))));
    PlugRaised(Raised(Raised(Raised(Raised(p)))));
  }

  lemma {:induction false} GrownIn(s: Tree, x: Item, n: Node?, rank: Item -> int, turns: nat)
    requires s.Branch? && turns <= 2 * Size(s) + 1
    requires var p := Walked(At(Top(s.node), s), x, rank, turns);
             Next(p, x, rank) == p && RaisedFive(Linked(p, x, n)).0.Top?
    ensures Grown(s, x, n, rank) == RaisedFive(Linked(Walked(At(Top(s.node), s), x, rank, turns), x, n)).1
  {
    Stays(At(Top(s.node), s), x, rank, turns, 2 * Size(s) + 1);
    PlugFive(Linked(WalkFrom(s.node, s, x, rank), x, n));
  }

  /* ---------- one failed insertion does not lead to a halt ---------- */

  /** No insertion into t halts. */
  ghost predicate Calm(t: Tree) {
    t.IsRed() ==> t.left.Branch? && t.right.Branch? && !BothKidsRed(t.left) && !BothKidsRed(t.right)
  }

  lemma {:induction false} CalmNeverHalts(t: Tree, x: Item, canAlloc: bool, rank: Item -> int)
    requires Calm(t)
    ensures !RotatesAtNull(t, x, canAlloc, rank)
  {
  }

  ghost function Depth(ctx: Ctx): nat { if ctx.Top? then 0 else 1 + Depth(ctx.up) }

  /** Two links down, calm is a matter of colour only. */
  lemma {:induction false} ColourIsEnough(ctx: Ctx, a: Tree, b: Tree)
    requires Depth(ctx) >= 2 && a.IsRed() == b.IsRed() && Calm(Plug(ctx, a))
    ensures Calm(Plug(ctx, b))
    decreases ctx
  {
    var a1 := Join(ctx.node, ctx.red, ctx.data, ctx.dir, a, ctx.sib);
    var b1 := Join(ctx.node, ctx.red, ctx.data, ctx.dir, b, ctx.sib);
    if Depth(ctx) == 2 {
      var up := ctx.up;
      assert Depth(up.up) == 0;
      assert Plug(ctx, a) == Plug(up, a1) == Join(up.node, up.red, up.data, up.dir, a1, up.sib);
      assert Plug(ctx, b) == Plug(up, b1) == Join(up.node, up.red, up.data, up.dir, b1, up.sib);
    } else {
      ColourIsEnough(ctx.up, a1, b1);
    }
  }

  /** What a search below a root that it reddened itself knows of the first links. */
  ghost predicate Shallow(ctx: Ctx, f: Tree) {
    && Calm(Plug(ctx, f))
    && (Depth(ctx) == 1 ==> Quiet(f))
    && (Depth(ctx) == 2 ==> !ctx.red && !f.IsRed() && !ctx.sib.IsRed())
    && (Depth(ctx) == 3 && ctx.red ==> Quiet(f))
  }

  lemma {:induction false} FlipStaysCalm(ctx: Ctx, f: Tree, h: nat)
    requires RB(f, h) && Shallow(ctx, f) && Depth(ctx) >= 1 && f.Branch?
    ensures Calm(Plug(ctx, Flipped(f)))
  {
    var f1 := Flipped(f);
    if Depth(ctx) == 2 && BothKidsRed(f) {
      var up := ctx.up;
      assert Depth(up.up) == 0;
      var t := Join(ctx.node, ctx.red, ctx.data, ctx.dir, f, ctx.sib);
      var t1 := Join(ctx.node, ctx.red, ctx.data, ctx.dir, f1, ctx.sib);
      assert Plug(ctx, f) == Plug(up, t) == Join(up.node, up.red, up.data, up.dir, t, up.sib);
      assert Plug(ctx, f1) == Plug(up, t1) == Join(up.node, up.red, up.data, up.dir, t1, up.sib);
    } else if Depth(ctx) > 2 {
      ColourIsEnough(ctx.up, Join(ctx.node, ctx.red, ctx.data, ctx.dir, f, ctx.sib),
                     Join(ctx.node, ctx.red, ctx.data, ctx.dir, f1, ctx.sib));
    }
  }

  lemma {:induction false} RepairStaysCalm(ctx: Ctx, f: Tree, h: nat)
    requires RedRed(ctx, f, h) && Depth(ctx) >= 4 && Calm(Plug(ctx, f))
    ensures var (c, t) := Repaired(ctx, f); Calm(Plug(c, t))
  {
    var g, up := AtGrandparent(ctx, f), ctx.up.up;
    assert Plug(ctx, f) == Plug(ctx.up, Join(ctx.node, ctx.red, ctx.data, ctx.dir, f, ctx.sib)) == Plug(up, g);
    assert !g.IsRed();
    if ctx.dir == ctx.up.dir {
      var o := OuterCtx(ctx);
      ColourIsEnough(up, g, Join(o.node, o.red, o.data, o.dir, f, o.sib));
    } else {
      ColourIsEnough(up, g, InnerTree(ctx, f));
    }
  }

  lemma {:induction false} BelowPlug(c: Ctx, t: Tree, dir: bool)
    requires t.Branch?
    ensures Plug(Below(c, t, dir), t.Kid(dir)) == Plug(c, t) && Depth(Below(c, t, dir)) == Depth(c) + 1
  {
  }

  lemma {:induction false} ShallowNext(ctx: Ctx, f: Tree, h: nat, dir: bool)
    requires ZipRB(ctx, f, h) && f.Branch?
    requires if ctx.Top? then BothKidsRed(f) else Shallow(ctx, f)
    requires HasRedEdge(ctx, Flipped(f)) ==> RedRed(ctx, Flipped(f), h) && BothKidsRed(f)
    ensures var (c, t) := Repaired(ctx, Flipped(f)); Shallow(Below(c, t, dir), t.Kid(dir))
  {
    var f1 := Flipped(f);
    FlippedRB(f, h);
    var (c, t) := Repaired(ctx, f1);
    BelowPlug(c, t, dir);
    if ctx.Down? {
      FlipStaysCalm(ctx, f, h);
      if HasRedEdge(ctx, f1) {
        RepairStaysCalm(ctx, f1, h);
      }
    }
  }

  lemma {:induction false} DiffersHere(stage: Stage, ctx: Ctx, f: Tree, h: nat, v: Helpers, s: Tree, x: Item,
      rank: Item -> int)
    requires OnTheWay(stage, ctx, f, h, v, s, x, false, rank) && !Holds(s.Items(), x, rank) && f.Branch?
    ensures rank(f.data) != rank(x)
  {
    assert Items(ctx, f)[|ctx.Pre() + f.left.Items()|] == f.data;
  }

  /** From a black root, a search that ends without a node leaves a calm tree. */
  lemma {:induction false} CalmWalk(stage: Stage, ctx: Ctx, f: Tree, h: nat, v: Helpers, s: Tree, x: Item,
      rank: Item -> int, turns: nat)
    requires OnTheWay(stage, ctx, f, h, v, s, x, false, rank) && !s.IsRed() && !Holds(s.Items(), x, rank)
    requires stage != Start && BothKidsRed(s) ==> Shallow(ctx, f)
    ensures var p := Walked(At(ctx, f), x, rank, turns); p.At? && Calm(Plug(p.ctx, p.f))
    decreases turns
  {
    hide Shallow, Items, Between, Holds;
    if turns == 0 {
      CalmHere(stage, ctx, f, h, v, s, x, rank);
    } else if f.Leaf? {
      CalmWalk(stage, ctx, f, h, v, s, x, rank, turns - 1);
    } else {
      var dir := GoesRight(f, x, rank);
      DiffersHere(stage, ctx, f, h, v, s, x, rank);
      if HasRedEdge(ctx, Flipped(f)) {
        RedEdgeHere(stage, ctx, f, h, v, s, x, rank);
      }
      var next, k := Continues(stage, ctx, f, h, v, s, x, false, rank, dir);
      if BothKidsRed(s) {
        ShallowNext(ctx, f, h, dir);
      }
      var (c, t) := Repaired(ctx, Flipped(f));
      CalmWalk(next, Below(c, t, dir), t.Kid(dir), k, MovedDown(v, f.node, dir), s, x, rank, turns - 1);
    }
  }

  lemma {:induction false} CalmHere(stage: Stage, ctx: Ctx, f: Tree, h: nat, v: Helpers, s: Tree, x: Item,
      rank: Item -> int)
    requires OnTheWay(stage, ctx, f, h, v, s, x, false, rank) && !s.IsRed()
    requires stage != Start && BothKidsRed(s) ==> Shallow(ctx, f)
    ensures Calm(Plug(ctx, f))
  {
    PlugRoot(ctx, f);
  }

  lemma {:induction false} RedEdgeHere(stage: Stage, ctx: Ctx, f: Tree, h: nat, v: Helpers, s: Tree, x: Item,
      rank: Item -> int)
    requires OnTheWay(stage, ctx, f, h, v, s, x, false, rank) && !s.IsRed() && f.Branch?
    requires HasRedEdge(ctx, Flipped(f))
    ensures v.g != null && TwoFrames(ctx) && RedRed(ctx, Flipped(f), h) && BothKidsRed(f)
  {
    ViolationIsAligned(stage, ctx, f, Flipped(f), h, v, s, x, false, rank);
  }

  /** So a failed insertion into a tree with a black root leaves a tree into which no insertion halts. */
  lemma {:induction false} FailsCalmly(s: Tree, x: Item, rank: Item -> int)
    requires Balanced(s) && Ascending(s.Items(), rank) && !s.IsRed() && !Holds(s.Items(), x, rank)
    ensures Calm(Grown(s, x, null, rank))
  {
    if s.Branch? {
      Starts(s, s.node, x, false, rank);
      CalmWalk(Start, Top(s.node), s, BlackHeight(s), Helpers(s.node, null, null, false, false), s, x, rank,
               2 * Size(s) + 1);
    }
  }
}
