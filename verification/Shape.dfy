/** Tree nodes in memory, and the mathematical trees and contexts they represent. */
module Shape {
  import opened References
  import opened Ordering

  datatype Links = Links(left: Node?, right: Node?) {
    function At(dir: bool): Node? { if dir then right else left }
    function With(dir: bool, n: Node?): Links { if dir then Links(left, n) else Links(n, right) }
  }

  class Node {
    var red: bool
    var data: Item
    var link: Links

    constructor (red: bool, data: Item)
      ensures this.red == red && this.data == data && link == Links(null, null)
    {
      this.red, this.data, link := red, data, Links(null, null);
    }
  }

  /** A subtree: for every node its colour, its data and its two subtrees. */
  datatype Tree = Leaf | Branch(node: Node, red: bool, data: Item, left: Tree, right: Tree) {
    ghost function Kid(dir: bool): Tree
      requires Branch?
    {
      if dir then right else left
    }

    /** lustre_rb_tree_is_red: a null link is not red. */
    ghost predicate IsRed() { Branch? && red }

    ghost function Root(): Node? { if Leaf? then null else node }

    ghost function Nodes(): (s: set<Node>)
      ensures Branch? ==> node in s
    {
      if Leaf? then {} else {node} + left.Nodes() + right.Nodes()
    }

    ghost function Items(): seq<Item> { if Leaf? then [] else left.Items() + [data] + right.Items() }

    /** No node occurs twice. */
    ghost predicate Distinct() {
      Branch? ==>
        && node !in left.Nodes() && node !in right.Nodes() && left.Nodes() !! right.Nodes()
        && left.Distinct() && right.Distinct()
    }
  }

  /** A branch whose subtree in direction dir is a and in the other direction b. */
  ghost function Join(node: Node, red: bool, data: Item, dir: bool, a: Tree, b: Tree): Tree {
    if dir then Branch(node, red, data, b, a) else Branch(node, red, data, a, b)
  }

  lemma {:induction false} JoinNodes(node: Node, red: bool, data: Item, dir: bool, a: Tree, b: Tree)
    ensures var t := Join(node, red, data, dir, a, b);
            && t.Nodes() == {node} + a.Nodes() + b.Nodes()
            && (t.Distinct() <==> node !in a.Nodes() && node !in b.Nodes() && a.Nodes() !! b.Nodes() && a.Distinct() && b.Distinct())
  {
  }

  /** The subtree t seen from direction dir. */
  lemma {:induction false} Split(t: Tree, dir: bool)
    requires t.Branch?
    ensures t == Join(t.node, t.red, t.data, dir, t.Kid(dir), t.Kid(!dir))
    ensures t.Nodes() == {t.node} + t.Kid(dir).Nodes() + t.Kid(!dir).Nodes()
    ensures t.Distinct() <==> && t.node !in t.Kid(dir).Nodes() && t.node !in t.Kid(!dir).Nodes()
                              && t.Kid(dir).Nodes() !! t.Kid(!dir).Nodes() && t.Kid(dir).Distinct() && t.Kid(!dir).Distinct()
  {
  }

  /** n is the root of t in memory. */
  ghost predicate Rep(t: Tree, n: Node?)
    reads t.Nodes()
  {
    match t
    case Leaf => n == null
    case Branch(m, red, data, l, r) =>
      n == m && m.red == red && m.data == data && Rep(l, m.link.left) && Rep(r, m.link.right)
  }

  /** lustre_rb_tree_is_red. */
  predicate IsRed(n: Node?)
    reads n
  {
    n != null && n.red
  }

  lemma {:induction false} RepJoin(node: Node, red: bool, data: Item, dir: bool, a: Tree, b: Tree, n: Node?)
    ensures Rep(Join(node, red, data, dir, a, b), n) <==>
            && n == node && node.red == red && node.data == data
            && Rep(a, node.link.At(dir)) && Rep(b, node.link.At(!dir))
  {
  }

  /** A tree with one link taken out, seen from that link: the link is the dir link of node, the
      other link of node leads to sib, and so on up to the false root's link 1. */
  datatype Ctx = Top(head: Node) | Down(node: Node, red: bool, data: Item, dir: bool, sib: Tree, up: Ctx) {
    ghost function Holder(): Node { if Top? then head else node }

    ghost function Dir(): bool { Top? || dir }

    ghost predicate IsRed() { Down? && red }

    ghost function Nodes(): (s: set<Node>)
      ensures Holder() in s
    {
      if Top? then {head} else {node} + sib.Nodes() + up.Nodes()
    }

    ghost predicate Distinct() {
      Down? ==>
        && node !in sib.Nodes() && node !in up.Nodes() && sib.Nodes() !! up.Nodes()
        && sib.Distinct() && up.Distinct()
    }

    /** The items to the left of the link. */
    ghost function Pre(): seq<Item> {
      if Top? then [] else if dir then up.Pre() + sib.Items() + [data] else up.Pre()
    }

    /** The items to the right of the link. */
    ghost function Post(): seq<Item> {
      if Top? then [] else if dir then up.Post() else [data] + sib.Items() + up.Post()
    }
  }

  /** In memory the link that ctx describes holds c. */
  ghost predicate CtxRep(ctx: Ctx, c: Node?)
    reads ctx.Nodes()
  {
    match ctx
    case Top(head) => head.link == Links(null, c)
    case Down(n, red, data, dir, sib, up) =>
      && n.red == red && n.data == data && n.link.At(dir) == c && Rep(sib, n.link.At(!dir))
      && CtxRep(up, n)
  }

  ghost predicate Apart(ctx: Ctx, f: Tree) {
    ctx.Distinct() && f.Distinct() && ctx.Nodes() !! f.Nodes()
  }

  /** Memory holds f at the link ctx, and the whole is a tree. */
  ghost predicate Zip(ctx: Ctx, f: Tree, c: Node?)
    reads ctx.Nodes(), f.Nodes()
  {
    CtxRep(ctx, c) && Rep(f, c) && Apart(ctx, f)
  }

  ghost function Items(ctx: Ctx, f: Tree): seq<Item> { ctx.Pre() + f.Items() + ctx.Post() }

  ghost function Plug(ctx: Ctx, f: Tree): Tree
    decreases ctx
  {
    if ctx.Top? then f else Plug(ctx.up, Join(ctx.node, ctx.red, ctx.data, ctx.dir, f, ctx.sib))
  }

  /* ---------- moving the link up and down ---------- */

  lemma {:induction false} Ascend(ctx: Ctx, f: Tree, c: Node?)
    requires ctx.Down?
    ensures var t := Join(ctx.node, ctx.red, ctx.data, ctx.dir, f, ctx.sib);
            Zip(ctx, f, c) <==> (Zip(ctx.up, t, ctx.node) && ctx.node.link.At(ctx.dir) == c)
  {
  }

  lemma {:induction false} AscendItems(ctx: Ctx, f: Tree)
    requires ctx.Down?
    ensures var t := Join(ctx.node, ctx.red, ctx.data, ctx.dir, f, ctx.sib);
            Items(ctx, f) == Items(ctx.up, t)
  {
  }

  /** The false root at the end of ctx. */
  ghost function HeadOf(ctx: Ctx): Node { if ctx.Top? then ctx.head else HeadOf(ctx.up) }

  lemma {:induction false} PlugNodes(ctx: Ctx, f: Tree)
    requires Apart(ctx, f)
    decreases ctx
    ensures var t := Plug(ctx, f);
            t.Nodes() + {HeadOf(ctx)} == ctx.Nodes() + f.Nodes() && HeadOf(ctx) !in t.Nodes()
  {
    if ctx.Down? {
      JoinNodes(ctx.node, ctx.red, ctx.data, ctx.dir, f, ctx.sib);
      PlugNodes(ctx.up, Join(ctx.node, ctx.red, ctx.data, ctx.dir, f, ctx.sib));
    }
  }

  lemma {:induction false} PlugRep(ctx: Ctx, f: Tree, c: Node?)
    requires Zip(ctx, f, c)
    decreases ctx
    ensures var t := Plug(ctx, f);
            Rep(t, HeadOf(ctx).link.right) && t.Distinct() && t.Items() == Items(ctx, f)
  {
    if ctx.Down? {
      var t := Join(ctx.node, ctx.red, ctx.data, ctx.dir, f, ctx.sib);
      Ascend(ctx, f, c);
      AscendItems(ctx, f);
      PlugRep(ctx.up, t, ctx.node);
    }
  }
}
