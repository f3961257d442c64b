/** struct lustre_rb_tree_iterator: an explicit stack of ancestors instead of parent links. */
module TreeIterators {
  import opened Accesses
  import opened Options
  import opened References
  import opened Ordering
  import opened Shape
  import opened Balance
  import opened Heights
  import opened Trails
  import opened Search
  import opened RbTrees

  /** path holds the nodes passed on the way, the root first. */
  ghost predicate PathHolds(t: Tree, w: Trail, path: seq<Node?>)
    requires Inside(t, w)
    decreases w
  {
    if w.Here? then path == []
    else path != [] && path[|path| - 1] == At(t, w.up).node && PathHolds(t, w.up, path[..|path| - 1])
  }

  lemma {:induction false} PathDepth(t: Tree, w: Trail, path: seq<Node?>)
    requires Inside(t, w) && PathHolds(t, w, path)
    ensures |path| == w.Depth()
    decreases w
  {
    if w.Into? {
      PathDepth(t, w.up, path[..|path| - 1]);
    }
  }

  lemma {:induction false} PathPush(t: Tree, w: Trail, path: seq<Node?>, dir: bool)
    requires Inside(t, w) && PathHolds(t, w, path) && At(t, w).Branch? && Inside(t, Into(w, dir))
    ensures PathHolds(t, Into(w, dir), path + [At(t, w).node])
  {
    assert (path + [At(t, w).node])[..|path|] == path;
  }

  lemma {:induction false} RepAt(t: Tree, w: Trail, root: Node?)
    requires Inside(t, w) && Rep(t, root) && t.Distinct()
    ensures Rep(At(t, w), At(t, w).Root()) && At(t, w).Distinct()
    ensures At(t, w).Branch? ==> At(t, w).node in t.Nodes()
    ensures At(t, w).Nodes() <= t.Nodes()
    decreases w
  {
    if w.Into? {
      RepAt(t, w.up, root);
    }
  }

  lemma {:induction false} KidInMemory(t: Tree, w: Trail, dir: bool, root: Node?)
    requires Planted(t, root) && Inside(t, w) && At(t, w).Branch? && At(t, w).Kid(dir).Branch?
    ensures Inside(t, Into(w, dir)) && At(t, Into(w, dir)).node == At(t, w).node.link.At(dir)
    ensures At(t, w).node in t.Nodes()
  {
    RepAt(t, w, root);
  }

  class TreeIterator {
    const tree: RbTree
    const path: array<Node?>
    var currentNode: Node?
    var top: nat

    /** The way from the root to currentNode. */
    ghost var trail: Trail
    /** The nodes whose links were read, and, in lustre_rb_tree_free, those that were freed. */
    ghost var log: seq<Access<Node>>

    ghost predicate Valid()
      reads `currentNode, `top, `trail, path, tree, tree.shape.Nodes()
    {
      && tree.Sound() && Fits(tree.shape) && path.Length == HEIGHT_LIMIT
      && (currentNode != null ==> Standing() && top <= path.Length && PathHolds(tree.shape, trail, path[..top]))
    }

    ghost predicate Standing()
      reads `currentNode, `trail, tree
    {
      Inside(tree.shape, trail) && At(tree.shape, trail).Branch? && At(tree.shape, trail).node == currentNode
    }

    /** How many items come before currentNode in direction dir. */
    ghost function Position(dir: bool): (i: nat)
      requires Standing()
      reads `currentNode, `trail, tree
    {
      Index(tree.shape, trail, dir)
    }

    /** currentNode is the node with the i-th smallest item. */
    ghost predicate StandsAt(i: nat)
      reads `currentNode, `trail, tree
    {
      && currentNode != null && Standing() && Position(true) == i
      && i < |tree.Contents()| == |NodeSeq(tree.shape)| && currentNode == NodeSeq(tree.shape)[i]
    }

    /** lustre_rb_tree_iterator_alloc, when the allocation succeeds. */
    constructor (tree: RbTree)
      requires tree.Sound() && Fits(tree.shape)
      ensures Valid() && this.tree == tree && currentNode == null && log == [] && fresh(path)
    {
      this.tree := tree;
      path := new Node?[HEIGHT_LIMIT](_ => null);
      currentNode, top, trail, log := null, 0, Here, [];
    }

    /** The links of the current node are read. */
    ghost method Note()
      requires Valid() && currentNode != null
      modifies `log
      ensures Valid() && log == old(log) + [Read(currentNode)]
    {
      hide Ascending, Orders, Balanced, Fits;
      assert allocated(tree.shape.Nodes());
      log := log + [Read(currentNode)];
    }

    /** Lines 93-94 and 109-110: push the current node and move to its child. */
    method Enter(dir: bool)
      requires Valid() && currentNode != null && At(tree.shape, trail).Kid(dir).Branch?
      modifies `currentNode, `top, `trail, `log, path
      ensures Valid() && currentNode != null && trail == Into(old(trail), dir)
      ensures log == old(log) + [Read(old(currentNode))]
    {
      hide Ascending, Orders, Planted, PathHolds;
      ghost var t := tree.shape;
      Note();
      PathDepth(t, trail, path[..top]);
      DepthBound(t, Into(trail, dir));
      KidInMemory(t, trail, dir, tree.root);
      assert allocated(t.Nodes());
      PathPush(t, trail, path[..top], dir);
      ghost var pushed := path[..top] + [currentNode];
      path[top] := currentNode;
      top := top + 1;
      currentNode := currentNode.link.At(dir);
      trail := Into(trail, dir);
      assert path[..top] == pushed;
    }

    /** Lines 92-95 and 112-115: down to the last node in direction dir. */
    method Slide(dir: bool)
      requires Valid() && currentNode != null
      modifies `currentNode, `top, `trail, `log, path
      ensures Valid() && currentNode != null
      ensures Position(!dir) == Passed(tree.shape, old(trail), !dir)
      ensures ReadsOn(old(log), log)
    {
      hide Ascending, Orders, Balanced, Fits, ReadsOn, PathHolds;
      ghost var t := tree.shape;
      ReadsOneMore(log, log, currentNode);
      Note();
      RepAt(t, trail, tree.root);
      while currentNode.link.At(dir) != null
        invariant Valid() && currentNode != null
        invariant ReadsOn(old(log), log)
        invariant Passed(t, trail, !dir) == Passed(t, old(trail), !dir)
        invariant Rep(At(t, trail), currentNode)
        decreases Height(At(t, trail))
      {
        ReadsOneMore(old(log), log, currentNode);
        Enter(dir);
        ReadsOneMore(old(log), log, currentNode);
        Note();
        RepAt(t, trail, tree.root);
      }
    }

    /** lustre_rb_tree_iterator_start. */
    method Start(dir: bool) returns (node: Node?)
      requires Valid()
      modifies `currentNode, `top, `trail, `log, path
      ensures Valid() && node == currentNode
      ensures currentNode == null <==> tree.Contents() == []
      ensures currentNode != null ==> Position(!dir) == 0
      ensures ReadsOn(old(log), log)
    {
      currentNode, top, trail := tree.root, 0, Here;
      if currentNode != null {
        Slide(dir);
      }
      node := currentNode;
    }

    /** Lines 124-126: pop the parent. */
    method Pop() returns (last: Node)
      requires Valid() && currentNode != null && top > 0
      modifies `currentNode, `top, `trail
      ensures Valid() && currentNode != null && last == old(currentNode)
      ensures old(trail).Into? && trail == old(trail).up && top == old(top) - 1
      ensures currentNode.link.At(old(trail).dir) == last != currentNode.link.At(!old(trail).dir)
    {
      hide Ascending, Orders, Balanced, Fits, Height;
      ghost var t, w := tree.shape, trail;
      PathDepth(t, w, path[..top]);
      RepAt(t, w, tree.root);
      RepAt(t, w.up, tree.root);
      assert path[..top][..top - 1] == path[..top - 1];
      last := currentNode;
      top := top - 1;
      currentNode := path[top];
      trail := w.up;
    }

    /** Lines 118-127: back up to the first ancestor that lies further on in direction dir. */
    method Climb(dir: bool)
      requires Valid() && currentNode != null && At(tree.shape, trail).Kid(dir).Leaf?
      modifies `currentNode, `top, `trail, `log
      ensures Valid() && old(log) <= log
      ensures var i := old(Position(dir)) + 1;
              if i < |tree.Contents()| then currentNode != null && Position(dir) == i else currentNode == null
    {
      hide Ascending, Orders, Planted, Fits;
      ghost var t, i := tree.shape, Position(dir) + 1;
      while true
        invariant Valid() && currentNode != null && old(log) <= log
        invariant Passed(t, trail, dir) + |At(t, trail).Items()| == i
        decreases top
      {
        if top == 0 {
          PathDepth(t, trail, path[..top]);
          assert allocated(t.Nodes());
          currentNode := null;
          break;
        }
        var last := Pop();
        Lengths(t, trail);
        Note();
        if last != currentNode.link.At(dir) {
          break;
        }
      }
    }

    /** lustre_rb_tree_iterator_move. */
    method Move(dir: bool) returns (node: Node?)
      requires Valid() && currentNode != null
      modifies `currentNode, `top, `trail, `log, path
      ensures Valid() && node == currentNode && old(log) + [Read(old(currentNode))] <= log
      ensures var i := old(Position(dir)) + 1;
              if i < |tree.Contents()| then currentNode != null && Position(dir) == i else currentNode == null
    {
      hide Ascending, Orders;
      RepAt(tree.shape, trail, tree.root);
      Note();
      if currentNode.link.At(dir) != null {
        Enter(dir);
        Lengths(tree.shape, trail);
        Slide(!dir);
      } else {
        Climb(dir);
      }
      node := currentNode;
    }

    /** What the public calls return for the node they moved to. */
    method Datum(node: Node?) returns (data: Option<Item>)
      requires Valid() && node == currentNode
      ensures Valid()
      ensures if currentNode == null then data == None
              else Position(true) + Position(false) + 1 == |tree.Contents()| && StandsAt(Position(true))
                   && data == Some(tree.Contents()[Position(true)])
    {
      if node == null {
        return None;
      }
      IndexFinds(tree.shape, trail);
      RepAt(tree.shape, trail, tree.root);
      data := Some(node.data);
    }

    method First() returns (data: Option<Item>)
      requires Valid()
      modifies `currentNode, `top, `trail, `log, path
      ensures Valid()
      ensures if tree.Contents() == [] then currentNode == null && data == None
              else StandsAt(0) && data == Some(tree.Contents()[0])
    {
      hide Ascending, Orders, Index, Balanced, Planted;
      var node := Start(false);
      data := Datum(node);
    }

    method Last() returns (data: Option<Item>)
      requires Valid()
      modifies `currentNode, `top, `trail, `log, path
      ensures Valid()
      ensures var n := |tree.Contents()|;
              if n == 0 then currentNode == null && data == None
              else StandsAt(n - 1) && data == Some(tree.Contents()[n - 1])
    {
      hide Ascending, Orders, Index, Balanced, Planted;
      var node := Start(true);
      data := Datum(node);
    }

    /** The next item in ascending order, or none after the last. */
    method Next() returns (data: Option<Item>)
      requires Valid() && currentNode != null
      modifies `currentNode, `top, `trail, `log, path
      ensures Valid()
      ensures var i := old(Position(true)) + 1;
              if i < |tree.Contents()| then StandsAt(i) && data == Some(tree.Contents()[i])
              else currentNode == null && data == None
    {
      hide Ascending, Orders, Index, Balanced, Planted;
      var node := Move(true);
      data := Datum(node);
    }

    /** The previous item, or none before the first. */
    method Prev() returns (data: Option<Item>)
      requires Valid() && currentNode != null
      modifies `currentNode, `top, `trail, `log, path
      ensures Valid()
      ensures var i := old(Position(true)) - 1;
              if 0 <= i < |tree.Contents()| then StandsAt(i) && data == Some(tree.Contents()[i])
              else currentNode == null && data == None
    {
      hide Ascending, Orders, Index, Balanced, Planted;
      IndexFinds(tree.shape, trail);
      var node := Move(false);
      data := Datum(node);
    }
  }

  /** First, then Next until it returns nothing: the stored items in ascending order. */
  method Enumerate(it: TreeIterator) returns (items: seq<Item>)
    requires it.Valid()
    modifies it`currentNode, it`top, it`trail, it`log, it.path
    ensures it.Valid() && items == it.tree.Contents() && Ascending(items, it.tree.rank)
  {
    hide Orders, Index, Planted, Fits, Passed;
    items := [];
    ghost var all := it.tree.Contents();
    var data := it.First();
    while data.Some?
      invariant it.Valid() && (data.Some? <==> it.currentNode != null)
      invariant |items| <= |all| && items == all[..|items|]
      invariant if data.Some? then it.StandsAt(|items|) && data.value == all[|items|] else |items| == |all|
      decreases |all| - |items|
    {
      items := items + [data.value];
      data := it.Next();
    }
  }

  /** Last, then Prev until it returns nothing: the same in descending order. */
  method EnumerateBack(it: TreeIterator) returns (items: seq<Item>)
    requires it.Valid()
    modifies it`currentNode, it`top, it`trail, it`log, it.path
    ensures it.Valid() && items == Reversed(it.tree.Contents())
  {
    hide Orders, Index, Planted, Fits, Passed, Ascending;
    items := [];
    ghost var all := it.tree.Contents();
    var data := it.Last();
    while data.Some?
      invariant it.Valid() && (data.Some? <==> it.currentNode != null)
      invariant |items| <= |all| && items == Reversed(all)[..|items|]
      invariant if data.Some? then |items| < |all| && it.StandsAt(|all| - 1 - |items|) else |items| == |all|
      invariant data.Some? ==> data.value == all[|all| - 1 - |items|]
      decreases |all| - |items|
    {
      items := items + [data.value];
      data := it.Prev();
    }
  }

  /** Next and then Prev lead back to the same node, unless Next fell off the end. */
  method NextThenPrev(it: TreeIterator) returns (back: Option<Item>)
    requires it.Valid() && it.currentNode != null && it.Position(true) + 1 < |it.tree.Contents()|
    modifies it`currentNode, it`top, it`trail, it`log, it.path
    ensures it.Valid() && it.currentNode == old(it.currentNode)
    ensures back == Some(it.tree.Contents()[old(it.Position(true))])
  {
    hide Orders, Index, Planted, Fits, Passed, Ascending;
    IndexFinds(it.tree.shape, it.trail);
    back := it.Next();
    back := it.Prev();
  }

  /** NodeSeq lists every node of the tree exactly once. */
  lemma {:induction false} NodeSeqOnce(t: Tree)
    requires t.Distinct()
    ensures multiset(NodeSeq(t)) == multiset(t.Nodes())
    decreases t
  {
    if t.Branch? {
      NodeSeqOnce(t.left);
      NodeSeqOnce(t.right);
      assert multiset(t.Nodes()) == multiset(t.left.Nodes()) + multiset{t.node} + multiset(t.right.Nodes());
    }
  }

  ghost predicate Begins<T>(a: seq<T>, b: seq<T>) { |a| <= |b| && a == b[..|a|] }

  lemma {:induction false} BeginsFurther<T>(a: seq<T>, b: seq<T>)
    requires Begins(a, b) && |a| < |b|
    ensures Begins(a + [b[|a|]], b)
  {
  }

  lemma {:induction false} EmptyBegins<T>(b: seq<T>)
    ensures Begins([], b)
  {
  }

  lemma {:induction false} BeginsWhole<T>(a: seq<T>, b: seq<T>)
    requires Begins(a, b) && |a| == |b|
    ensures a == b
  {
  }

  /** Lines 166-168. */
  method FreeNode(it: TreeIterator, node: Node, ghost released: seq<Item>, ghost freed: seq<Node>)
    returns (next: Node?, ghost released': seq<Item>, ghost freed': seq<Node>)
    requires it.Valid() && node == it.currentNode && it.Position(false) == |released| == |freed|
    requires Begins(released, Reversed(it.tree.Contents())) && Begins(freed, Reversed(NodeSeq(it.tree.shape)))
    modifies it.tree`ledger, it`currentNode, it`top, it`trail, it`log, it.path
    ensures it.Valid() && next == it.currentNode
    ensures |released'| == |freed'| == |released| + 1 <= |it.tree.Contents()| && freed'[|freed|] == node
    ensures Stale(it.log)
    ensures Begins(released', Reversed(it.tree.Contents())) && Begins(freed', Reversed(NodeSeq(it.tree.shape)))
    ensures if next != null then it.Position(false) == |released'| else |released'| == |it.tree.Contents()|
    ensures released' != [] && released'[..|released'| - 1] == released
    ensures it.tree.ledger == old(it.tree.ledger).Dec(released'[|released|])
  {
    hide Orders, Index, Planted, Fits, Passed, Ascending, NodeSeq, Begins, Tree.Items;
    SeqLengths(it.tree.shape);
    var data := it.Datum(node);
    assert allocated(it.tree.shape.Nodes());
    BeginsFurther(released, Reversed(it.tree.Contents()));
    BeginsFurther(freed, Reversed(NodeSeq(it.tree.shape)));
    it.tree.ledger := it.tree.ledger.Dec(data.value);
    released', freed' := released + [data.value], freed + [node];
    assert freed'[|freed|] == node;
    it.log := it.log + [Freed(node)];
    next := it.Move(false);
    assert it.log[|old(it.log)|] == Freed(node) && it.log[|old(it.log)| + 1] == Read(node);
  }

  lemma {:induction false} OnceInTree(tree: RbTree)
    requires tree.Sound()
    ensures multiset(NodeSeq(tree.shape)) == multiset(tree.shape.Nodes())
  {
    NodeSeqOnce(tree.shape);
  }

  /** lustre_rb_tree_free: release every item and free every node, from the last to the first.
      As written, the loop frees a node and then has the iterator read its links; log records
      the order. */
  method Free(tree: RbTree, canAlloc: bool)
    returns (freedTree: bool, ghost released: seq<Item>, ghost freed: seq<Node>, ghost log: seq<Access<Node>>)
    requires tree.Valid() && Fits(tree.shape)
    modifies tree`ledger
    ensures freedTree == canAlloc
    ensures !canAlloc ==> released == [] && freed == [] && log == []
    ensures canAlloc ==> released == Reversed(tree.Contents()) && freed == Reversed(NodeSeq(tree.shape))
    ensures canAlloc ==> multiset(freed) == multiset(tree.shape.Nodes())
    ensures canAlloc ==> Accounts(tree.ledger, []) && (Stale(log) <==> tree.Contents() != [])
    ensures tree.ledger == old(tree.ledger).DecAll(released)
  {
    hide Orders, Index, Planted, Fits, Passed, Ascending, Accounts, Begins, NodeSeq;
    released, freed, log := [], [], [];
    if !canAlloc {
      return false, released, freed, log;
    }
    ghost var all, nodes := tree.Contents(), NodeSeq(tree.shape);
    assert multiset(Reversed(nodes)) == multiset(tree.shape.Nodes()) by {
      ReversedMultiset(nodes);
      OnceInTree(tree);
    }
    AllReleased(tree.ledger, all);
    SeqLengths(tree.shape);
    EmptyBegins(Reversed(all));
    EmptyBegins(Reversed(nodes));
    var it := new TreeIterator(tree);
    var node := it.Start(true);
    while node != null
      invariant it.Valid() && node == it.currentNode && fresh(it) && fresh(it.path)
      invariant |released| == |freed| <= |all| && Begins(released, Reversed(all)) && Begins(freed, Reversed(nodes))
      invariant if node != null then it.Position(false) == |released| else |released| == |all|
      invariant tree.ledger == old(tree.ledger).DecAll(released)
      invariant Stale(it.log) <==> released != []
      decreases |all| - |released|
    {
      node, released, freed := FreeNode(it, node, released, freed);
    }
    BeginsWhole(released, Reversed(all));
    BeginsWhole(freed, Reversed(nodes));
    freedTree, log := true, it.log;
  }
}
