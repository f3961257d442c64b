/** lustre_rb_tree_single and lustre_rb_tree_double: what they do to a subtree, and the pointer
    surgery that does it. */
module Rotations {
  import opened References
  import opened Ordering
  import opened Shape

  /** Rotate t in direction dir: its other child comes up black, t goes down red. */
  ghost function Rotated(t: Tree, dir: bool): Tree
    requires t.Branch? && t.Kid(!dir).Branch?
  {
    var s := t.Kid(!dir);
    Join(s.node, false, s.data, dir, Join(t.node, true, t.data, dir, t.Kid(dir), s.Kid(dir)), s.Kid(!dir))
  }

  ghost predicate CanRotateTwice(t: Tree, dir: bool) {
    t.Branch? && t.Kid(!dir).Branch? && t.Kid(!dir).Kid(dir).Branch?
  }

  /** Rotate the other child away from dir, then t towards dir: the inner grandchild comes up. */
  ghost function RotatedTwice(t: Tree, dir: bool): Tree
    requires CanRotateTwice(t, dir)
  {
    Rotated(Join(t.node, t.red, t.data, dir, t.Kid(dir), Rotated(t.Kid(!dir), !dir)), dir)
  }

  lemma {:induction false} RotatedNodes(t: Tree, dir: bool)
    requires t.Branch? && t.Kid(!dir).Branch?
    ensures Rotated(t, dir).Nodes() == t.Nodes()
    ensures t.Distinct() ==> Rotated(t, dir).Distinct()
  {
    var s := t.Kid(!dir);
    Split(t, dir);
    Split(s, dir);
    JoinNodes(t.node, true, t.data, dir, t.Kid(dir), s.Kid(dir));
    JoinNodes(s.node, false, s.data, dir, Join(t.node, true, t.data, dir, t.Kid(dir), s.Kid(dir)), s.Kid(!dir));
  }

  lemma {:induction false} RotatedItems(t: Tree, dir: bool)
    requires t.Branch? && t.Kid(!dir).Branch?
    ensures Rotated(t, dir).Items() == t.Items()
  {
    var s := t.Kid(!dir);
    if dir {
      assert t.Items() == s.left.Items() + [s.data] + s.right.Items() + [t.data] + t.right.Items();
    } else {
      assert t.Items() == t.left.Items() + [t.data] + s.left.Items() + [s.data] + s.right.Items();
    }
  }

  /** A rotation in either direction keeps the in-order contents and the nodes. */
  lemma {:induction false} RotatedTwiceKeeps(t: Tree, dir: bool)
    requires CanRotateTwice(t, dir)
    ensures RotatedTwice(t, dir).Items() == t.Items()
    ensures RotatedTwice(t, dir).Nodes() == t.Nodes()
    ensures t.Distinct() ==> RotatedTwice(t, dir).Distinct()
  {
    var kid := Rotated(t.Kid(!dir), !dir);
    RotatedNodes(t.Kid(!dir), !dir);
    RotatedItems(t.Kid(!dir), !dir);
    var u := Join(t.node, t.red, t.data, dir, t.Kid(dir), kid);
    Split(t, dir);
    JoinNodes(t.node, t.red, t.data, dir, t.Kid(dir), kid);
    RotatedNodes(u, dir);
    RotatedItems(u, dir);
  }

  method Single(node: Node, dir: bool, ghost t: Tree) returns (save: Node)
    requires t.Branch? && t.Kid(!dir).Branch? && t.Distinct() && Rep(t, node)
    modifies node`red, node`link, t.Kid(!dir).node`red, t.Kid(!dir).node`link
    ensures save == t.Kid(!dir).node
    ensures Rep(Rotated(t, dir), save)
  {
    save := node.link.At(!dir);
    node.link := node.link.With(!dir, save.link.At(dir));
    save.link := save.link.With(dir, node);
    node.red := true;
    save.red := false;
  }

  method Double(node: Node, dir: bool, ghost t: Tree) returns (save: Node)
    requires CanRotateTwice(t, dir) && t.Distinct() && Rep(t, node)
    modifies node`red, node`link
    modifies t.Kid(!dir).node`red, t.Kid(!dir).node`link
    modifies t.Kid(!dir).Kid(dir).node`red, t.Kid(!dir).Kid(dir).node`link
    ensures save == t.Kid(!dir).Kid(dir).node
    ensures Rep(RotatedTwice(t, dir), save)
  {
    ghost var near, far := t.Kid(dir), t.Kid(!dir);
    ghost var kid := Rotated(far, !dir);
    ghost var u := Join(node, t.red, t.data, dir, near, kid);
    Split(t, dir);
    Split(far, dir);
    RepJoin(node, t.red, t.data, dir, near, far, node);
    RotatedNodes(far, !dir);
    assert allocated(near.Nodes());
    var child := Single(node.link.At(!dir), !dir, far);
    assert Rep(near, node.link.At(dir));
    node.link := node.link.With(!dir, child);
    assert Rep(near, node.link.At(dir)) && Rep(kid, child);
    RepJoin(node, t.red, t.data, dir, near, kid, node);
    JoinNodes(node, t.red, t.data, dir, near, kid);
    save := Single(node, dir, u);
  }
}
