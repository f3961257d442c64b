/** Places in a tree, and how far along the in-order sequence they are. */
module Trails {
  import opened References
  import opened Ordering
  import opened Shape
  import opened Heights

  /** A way down from the root. */
  datatype Trail = Here | Into(up: Trail, dir: bool) {
    ghost function Depth(): nat { if Here? then 0 else 1 + up.Depth() }
  }

  /** The way stays inside t. */
  ghost predicate Inside(t: Tree, w: Trail)
    decreases w, 0
  {
    w.Into? ==> Inside(t, w.up) && At(t, w.up).Branch?
  }

  /** The subtree at the end of the way. */
  ghost function At(t: Tree, w: Trail): Tree
    requires Inside(t, w)
    decreases w, 1
  {
    if w.Here? then t else At(t, w.up).Kid(w.dir)
  }

  /** The nodes in ascending order. */
  ghost function NodeSeq(t: Tree): seq<Node> {
    if t.Leaf? then [] else NodeSeq(t.left) + [t.node] + NodeSeq(t.right)
  }

  /** The number of items that a walk in direction dir meets before it enters the subtree at w. */
  ghost function Passed(t: Tree, w: Trail, dir: bool): nat
    requires Inside(t, w)
  {
    if w.Here? then 0
    else if w.dir == dir then Passed(t, w.up, dir) + |At(t, w.up).Kid(!dir).Items()| + 1
    else Passed(t, w.up, dir)
  }

  /** The number of items that a walk in direction dir meets before the node at w. */
  ghost function Index(t: Tree, w: Trail, dir: bool): nat
    requires Inside(t, w) && At(t, w).Branch?
  {
    Passed(t, w, dir) + |At(t, w).Kid(!dir).Items()|
  }

  lemma {:induction false} SeqLengths(t: Tree)
    ensures |NodeSeq(t)| == |t.Items()|
    decreases t
  {
    if t.Branch? {
      SeqLengths(t.left);
      SeqLengths(t.right);
    }
  }

  lemma {:induction false} Lengths(t: Tree, w: Trail)
    requires Inside(t, w)
    ensures Passed(t, w, true) + |At(t, w).Items()| + Passed(t, w, false) == |t.Items()|
    decreases w
  {
    if w.Into? {
      Lengths(t, w.up);
    }
  }

  lemma {:induction false} KidSlice(u: Tree, dir: bool)
    requires u.Branch?
    ensures var l := |u.left.Items()|; var a, b := if dir then l + 1 else 0, if dir then |u.Items()| else l;
            && a <= b <= |u.Items()| == |NodeSeq(u)|
            && u.Kid(dir).Items() == u.Items()[a..b] && NodeSeq(u.Kid(dir)) == NodeSeq(u)[a..b]
  {
    SeqLengths(u);
    SeqLengths(u.left);
  }

  lemma {:induction false} SliceOfSlice<T>(s: seq<T>, u: seq<T>, i: nat, a: nat, b: nat)
    requires i + |u| <= |s| && u == s[i..i + |u|] && a <= b <= |u|
    ensures u[a..b] == s[i + a..i + b]
  {
    assert forall k :: 0 <= k < b - a ==> u[a..b][k] == s[i + a + k];
  }

  /** One step of Stretch: what lies below the kid of u in direction dir, u itself starting at i. */
  lemma {:induction false} KidStretch(t: Tree, u: Tree, i: nat, dir: bool)
    requires u.Branch? && i + |u.Items()| <= |t.Items()| == |NodeSeq(t)| && |NodeSeq(u)| == |u.Items()|
    requires u.Items() == t.Items()[i..i + |u.Items()|] && NodeSeq(u) == NodeSeq(t)[i..i + |u.Items()|]
    ensures var k, j := u.Kid(dir), i + if dir then |u.left.Items()| + 1 else 0;
            && j + |k.Items()| <= |t.Items()| && |NodeSeq(k)| == |k.Items()|
            && k.Items() == t.Items()[j..j + |k.Items()|] && NodeSeq(k) == NodeSeq(t)[j..j + |k.Items()|]
  {
    hide Tree.Items, NodeSeq;
    var l := |u.left.Items()|;
    var a, b := if dir then l + 1 else 0, if dir then |u.Items()| else l;
    SeqLengths(u.Kid(dir));
    KidSlice(u, dir);
    SliceOfSlice(t.Items(), u.Items(), i, a, b);
    SliceOfSlice(NodeSeq(t), NodeSeq(u), i, a, b);
  }

  /** A subtree's items, and its nodes, are a stretch of the whole, as long as what lies before and
      after leaves. */
  lemma {:induction false} Stretch(t: Tree, w: Trail)
    requires Inside(t, w)
    ensures var i, u := Passed(t, w, true), At(t, w);
            && i + |u.Items()| <= |t.Items()| == |NodeSeq(t)| && |NodeSeq(u)| == |u.Items()|
            && u.Items() == t.Items()[i..i + |u.Items()|] && NodeSeq(u) == NodeSeq(t)[i..i + |u.Items()|]
    decreases w
  {
    hide Tree.Items, NodeSeq;
    SeqLengths(t);
    if w.Into? {
      Stretch(t, w.up);
      KidStretch(t, At(t, w.up), Passed(t, w.up, true), w.dir);
    }
  }

  /** The two directions count from opposite ends, and the index finds the node and its data. */
  lemma {:induction false} IndexFinds(t: Tree, w: Trail)
    requires Inside(t, w) && At(t, w).Branch?
    ensures Index(t, w, true) + Index(t, w, false) + 1 == |t.Items()| == |NodeSeq(t)|
    ensures t.Items()[Index(t, w, true)] == At(t, w).data && NodeSeq(t)[Index(t, w, true)] == At(t, w).node
  {
    Lengths(t, w);
    Stretch(t, w);
    var u := At(t, w);
    SeqLengths(u.left);
    assert u.Items()[|u.left.Items()|] == u.data && NodeSeq(u)[|u.left.Items()|] == u.node;
  }

  lemma {:induction false} DepthBound(t: Tree, w: Trail)
    requires Inside(t, w)
    ensures w.Depth() + Height(At(t, w)) <= Height(t)
    decreases w
  {
    if w.Into? {
      DepthBound(t, w.up);
    }
  }
}
