/** A run after which an insertion halts: twelve insertions, two that fail for want of memory, and one
    more. */
module HaltingRun {
  import opened References
  import opened Ordering
  import opened Shape
  import opened Balance
  import opened InsertDescent
  import opened InsertWalk
  import opened RbTrees
  import opened Words

  /** The items sort by address. */
  ghost predicate ByAddress(rank: Item -> int) {
    forall a, b :: rank(a) < rank(b) <==> a.address < b.address
  }

  /** The nodes by the addresses of their items. */
  type Nodes = map<int, Node>

  const ADDRESSES := {2, 4, 6, 8, 10, 12, 14, 16, 18, 20, 22, 24}

  ghost predicate Complete(m: Nodes) { ADDRESSES <= m.Keys }

  ghost function Black(m: Nodes, k: Address, l: Tree, r: Tree): Tree
    requires k in m
  {
    Branch(m[k], false, Item(k), l, r)
  }

  ghost function Red(m: Nodes, k: Address, l: Tree, r: Tree): Tree
    requires k in m
  {
    Branch(m[k], true, Item(k), l, r)
  }

  ghost function BlackOne(m: Nodes, k: Address): Tree
    requires k in m
  {
    Black(m, k, Leaf, Leaf)
  }

  ghost function RedOne(m: Nodes, k: Address): Tree
    requires k in m
  {
    Red(m, k, Leaf, Leaf)
  }

  /* ---------- the run ---------- */

  const ORDER: seq<Address> := [10, 18, 6, 22, 14, 20, 8, 24, 4, 16, 12, 2]

  /** The tree after i insertions; the last two fail. */
  ghost function After(m: Nodes, i: nat): Tree
    requires Complete(m) && i <= 14
  {
    match i
    case 0 => Leaf
    case 1 =>
      BlackOne(m, 10)
    case 2 =>
      Black(m, 10, Leaf, RedOne(m, 18))
    case 3 =>
      Black(m, 10, RedOne(m, 6), RedOne(m, 18))
    case 4 =>
      Black(m, 10, BlackOne(m, 6), Black(m, 18, Leaf, RedOne(m, 22)))
    case 5 =>
      Black(m, 10, BlackOne(m, 6), Black(m, 18, RedOne(m, 14), RedOne(m, 22)))
    case 6 =>
      Black(m, 10, BlackOne(m, 6), Red(m, 18, BlackOne(m, 14), Black(m, 22, RedOne(m, 20), Leaf)))
    case 7 =>
      Black(m, 10,
            Black(m, 6, Leaf, RedOne(m, 8)),
            Red(m, 18, BlackOne(m, 14), Black(m, 22, RedOne(m, 20), Leaf)))
    case 8 =>
      Black(m, 10,
            Black(m, 6, Leaf, RedOne(m, 8)),
            Red(m, 18, BlackOne(m, 14), Black(m, 22, RedOne(m, 20), RedOne(m, 24))))
    case 9 =>
      Black(m, 10,
            Black(m, 6, RedOne(m, 4), RedOne(m, 8)),
            Red(m, 18, BlackOne(m, 14), Black(m, 22, RedOne(m, 20), RedOne(m, 24))))
    case 10 =>
      Black(m, 10,
            Black(m, 6, RedOne(m, 4), RedOne(m, 8)),
            Red(m, 18, Black(m, 14, Leaf, RedOne(m, 16)), Black(m, 22, RedOne(m, 20), RedOne(m, 24))))
    case 11 =>
      Black(m, 10,
            Black(m, 6, RedOne(m, 4), RedOne(m, 8)),
            Red(m, 18, Black(m, 14, RedOne(m, 12), RedOne(m, 16)), Black(m, 22, RedOne(m, 20), RedOne(m, 24))))
    case 12 =>
      Black(m, 10,
            Red(m, 6, Black(m, 4, RedOne(m, 2), Leaf), BlackOne(m, 8)),
            Red(m, 18, Black(m, 14, RedOne(m, 12), RedOne(m, 16)), Black(m, 22, RedOne(m, 20), RedOne(m, 24))))
    case 13 =>
      Red(m, 10,
          Black(m, 6, Black(m, 4, RedOne(m, 2), Leaf), BlackOne(m, 8)),
          Black(m, 18, Red(m, 14, BlackOne(m, 12), BlackOne(m, 16)), Black(m, 22, RedOne(m, 20), RedOne(m, 24))))
    case _ =>
      Red(m, 10,
          Black(m, 6, Black(m, 4, RedOne(m, 2), Leaf), BlackOne(m, 8)),
          Black(m, 18, Red(m, 14, BlackOne(m, 12), BlackOne(m, 16)), Red(m, 22, BlackOne(m, 20), BlackOne(m, 24))))
  }

  lemma {:induction false} Adds18(m: Nodes, rank: Item -> int)
    requires Complete(m) && ByAddress(rank)
    ensures Settle(After(m, 1), Item(18), m[18], rank) == After(m, 2)
  {
    GrownIn(After(m, 1), Item(18), m[18], rank, 1);
  }

  lemma {:induction false} Adds6(m: Nodes, rank: Item -> int)
    requires Complete(m) && ByAddress(rank)
    ensures Settle(After(m, 2), Item(6), m[6], rank) == After(m, 3)
  {
    GrownIn(After(m, 2), Item(6), m[6], rank, 1);
  }

  lemma {:induction false} Adds22(m: Nodes, rank: Item -> int)
    requires Complete(m) && ByAddress(rank)
    ensures Settle(After(m, 3), Item(22), m[22], rank) == After(m, 4)
  {
    GrownIn(After(m, 3), Item(22), m[22], rank, 2);
  }

  lemma {:induction false} Adds14(m: Nodes, rank: Item -> int)
    requires Complete(m) && ByAddress(rank)
    ensures Settle(After(m, 4), Item(14), m[14], rank) == After(m, 5)
  {
    GrownIn(After(m, 4), Item(14), m[14], rank, 2);
  }

  lemma {:induction false} Adds20(m: Nodes, rank: Item -> int)
    requires Complete(m) && ByAddress(rank)
    ensures Settle(After(m, 5), Item(20), m[20], rank) == After(m, 6)
  {
    GrownIn(After(m, 5), Item(20), m[20], rank, 3);
  }

  lemma {:induction false} Adds8(m: Nodes, rank: Item -> int)
    requires Complete(m) && ByAddress(rank)
    ensures Settle(After(m, 6), Item(8), m[8], rank) == After(m, 7)
  {
    GrownIn(After(m, 6), Item(8), m[8], rank, 2);
  }

  lemma {:induction false} Adds24(m: Nodes, rank: Item -> int)
    requires Complete(m) && ByAddress(rank)
    ensures Settle(After(m, 7), Item(24), m[24], rank) == After(m, 8)
  {
    GrownIn(After(m, 7), Item(24), m[24], rank, 3);
  }

  lemma {:induction false} Adds4(m: Nodes, rank: Item -> int)
    requires Complete(m) && ByAddress(rank)
    ensures Settle(After(m, 8), Item(4), m[4], rank) == After(m, 9)
  {
    GrownIn(After(m, 8), Item(4), m[4], rank, 2);
  }

  lemma {:induction false} Adds16(m: Nodes, rank: Item -> int)
    requires Complete(m) && ByAddress(rank)
    ensures Settle(After(m, 9), Item(16), m[16], rank) == After(m, 10)
  {
    GrownIn(After(m, 9), Item(16), m[16], rank, 3);
  }

  lemma {:induction false} Adds12(m: Nodes, rank: Item -> int)
    requires Complete(m) && ByAddress(rank)
    ensures Settle(After(m, 10), Item(12), m[12], rank) == After(m, 11)
  {
    GrownIn(After(m, 10), Item(12), m[12], rank, 3);
  }

  lemma {:induction false} Adds2(m: Nodes, rank: Item -> int)
    requires Complete(m) && ByAddress(rank)
    ensures Settle(After(m, 11), Item(2), m[2], rank) == After(m, 12)
  {
    GrownIn(After(m, 11), Item(2), m[2], rank, 3);
  }

  lemma {:induction false} Misses11(m: Nodes, rank: Item -> int)
    requires Complete(m) && ByAddress(rank)
    ensures Grown(After(m, 12), Item(11), null, rank) == After(m, 13)
  {
    GrownIn(After(m, 12), Item(11), null, rank, 4);
  }

  lemma {:induction false} Misses19(m: Nodes, rank: Item -> int)
    requires Complete(m) && ByAddress(rank)
    ensures Grown(After(m, 13), Item(19), null, rank) == After(m, 14)
  {
    GrownIn(After(m, 13), Item(19), null, rank, 4);
  }

  /** Twelve trees, each grown from the one before. */
  ghost predicate Chain(trees: seq<Tree>, nodes: seq<Node>, rank: Item -> int) {
    && |trees| == |nodes| + 1 && |nodes| <= |ORDER| && trees[0] == Leaf
    && forall i :: 0 <= i < |nodes| ==> trees[i + 1] == Settle(trees[i], Item(ORDER[i]), nodes[i], rank)
  }

  /** The nodes by address. */
  ghost predicate Named(m: Nodes, nodes: seq<Node>) {
    Complete(m) && |nodes| == |ORDER| && forall i :: 0 <= i < |nodes| ==> ORDER[i] in m && m[ORDER[i]] == nodes[i]
  }

  lemma {:induction false} CanName(nodes: seq<Node>) returns (m: Nodes)
    requires |nodes| == |ORDER|
    ensures Named(m, nodes)
  {
    m := map[10 := nodes[0], 18 := nodes[1], 6 := nodes[2], 22 := nodes[3], 14 := nodes[4], 20 := nodes[5],
             8 := nodes[6], 24 := nodes[7], 4 := nodes[8], 16 := nodes[9], 12 := nodes[10], 2 := nodes[11]];
  }

  lemma {:induction false} NamedAt(m: Nodes, nodes: seq<Node>, trees: seq<Tree>, rank: Item -> int, i: nat)
    requires Named(m, nodes) && Chain(trees, nodes, rank) && i < |nodes|
    ensures trees[i + 1] == Settle(trees[i], Item(ORDER[i]), m[ORDER[i]], rank) && trees[0] == Leaf
  {
  }

  lemma {:induction false} ChainEnds(trees: seq<Tree>, nodes: seq<Node>, rank: Item -> int) returns (m: Nodes)
    requires Chain(trees, nodes, rank) && |nodes| == |ORDER| && ByAddress(rank)
    ensures Complete(m) && trees[12] == After(m, 12)
  {
    hide After, Settle, ByAddress, Chain, Named;
    m := CanName(nodes);
    FirstAdded(m, rank);
    NamedAt(m, nodes, trees, rank, 0);
    Adds18(m, rank);
    NamedAt(m, nodes, trees, rank, 1);
    Adds6(m, rank);
    NamedAt(m, nodes, trees, rank, 2);
    Adds22(m, rank);
    NamedAt(m, nodes, trees, rank, 3);
    Adds14(m, rank);
    NamedAt(m, nodes, trees, rank, 4);
    Adds20(m, rank);
    NamedAt(m, nodes, trees, rank, 5);
    Adds8(m, rank);
    NamedAt(m, nodes, trees, rank, 6);
    Adds24(m, rank);
    NamedAt(m, nodes, trees, rank, 7);
    Adds4(m, rank);
    NamedAt(m, nodes, trees, rank, 8);
    Adds16(m, rank);
    NamedAt(m, nodes, trees, rank, 9);
    Adds12(m, rank);
    NamedAt(m, nodes, trees, rank, 10);
    Adds2(m, rank);
    NamedAt(m, nodes, trees, rank, 11);
  }

  lemma {:induction false} FirstAdded(m: Nodes, rank: Item -> int)
    requires Complete(m)
    ensures Settle(Leaf, Item(10), m[10], rank) == After(m, 1)
  {
  }

  function CompareAddresses(a: Item, b: Item): int8 {
    if a.address < b.address then -1 else if a.address == b.address then 0 else 1
  }

  ghost predicate Keyed(s: seq<Item>, keys: set<Address>) { forall z :: z in s ==> z.address in keys }

  lemma {:induction false} KeyedInserted(s: seq<Item>, keys: set<Address>, k: Address, rank: Item -> int)
    requires Keyed(s, keys) && k !in keys && ByAddress(rank)
    ensures !Holds(s, Item(k), rank) && Keyed(Inserted(s, Item(k), rank), keys + {k})
  {
    hide Inserted;
    forall z | z in Inserted(s, Item(k), rank)
      ensures z.address in keys + {k}
    {
      InsertedMember(s, Item(k), z, rank);
    }
  }

  /** An insertion of a new item, with memory. */
  method Add(tree: RbTree, k: Address, ghost keys: set<Address>) returns (ghost n: Node)
    requires tree.Valid() && !tree.shape.IsRed() && ByAddress(tree.rank)
    requires Keyed(tree.Contents(), keys) && k !in keys
    modifies tree`root, tree`size, tree`shape, tree`ledger, tree`drift
    modifies tree.shape.Nodes()`red, tree.shape.Nodes()`link
    ensures tree.Valid() && !tree.shape.IsRed() && Keyed(tree.Contents(), keys + {k})
    ensures tree.shape == Settle(old(tree.shape), Item(k), n, tree.rank)
    ensures fresh(tree.shape.Nodes() - old(tree.shape.Nodes()))
  {
    hide Holds, Inserted, Grown, Painted, Accounts, Wrapped, Tree.Nodes, Tree.Items, Keyed, ByAddress;
    KeyedInserted(tree.Contents(), keys, k, tree.rank);
    ghost var added;
    var result;
    result, added := tree.Insert(Item(k), true);
    n := added;
  }

  lemma {:induction false} OrderIsDistinct(i: nat)
    requires i < |ORDER|
    ensures ORDER[i] !in ORDER[..i]
  {
    forall j | 0 <= j < i
      ensures ORDER[j] != ORDER[i]
    {
    }
  }

  ghost function Added(i: nat): set<Address>
    requires i <= |ORDER|
  {
    set k | k in ORDER[..i]
  }

  lemma {:induction false} NothingBuilt(t: Tree, rank: Item -> int)
    requires t == Leaf
    ensures Chain([t], [], rank) && Keyed(t.Items(), Added(0)) && !t.IsRed()
  {
  }

  lemma {:induction false} ChainGrows(trees: seq<Tree>, nodes: seq<Node>, rank: Item -> int, n: Node, t: Tree)
    requires Chain(trees, nodes, rank) && |nodes| < |ORDER|
    requires t == Settle(trees[|nodes|], Item(ORDER[|nodes|]), n, rank)
    ensures Chain(trees + [t], nodes + [n], rank)
  {
    hide Settle;
  }

  /** The first twelve insertions. */
  method Build(tree: RbTree) returns (ghost m: Nodes)
    requires tree.Valid() && tree.shape == Leaf && ByAddress(tree.rank)
    modifies tree`root, tree`size, tree`shape, tree`ledger, tree`drift
    ensures tree.Valid() && Complete(m) && tree.shape == After(m, 12) && fresh(tree.shape.Nodes())
    ensures Keyed(tree.Contents(), Added(12))
  {
    hide Settle, After, ByAddress, Wrapped, Accounts, Chain, Ascending, Orders, Keyed, Tree.Items;
    NothingBuilt(tree.shape, tree.rank);
    var i := 0;
    ghost var trees: seq<Tree>, nodes: seq<Node> := [Leaf], [];
    while i < |ORDER|
      invariant 0 <= i <= |ORDER| && |nodes| == i && |trees| == i + 1 && trees[i] == tree.shape
      invariant Chain(trees, nodes, tree.rank)
      invariant tree.Valid() && !tree.shape.IsRed() && fresh(tree.shape.Nodes())
      invariant Keyed(tree.Contents(), Added(i))
    {
      ghost var before := tree.shape.Nodes();
      label Before:
      OrderIsDistinct(i);
      ghost var n := Add(tree, ORDER[i], Added(i));
      assert fresh@Before(tree.shape.Nodes() - before);
      assert forall x :: x in tree.shape.Nodes() && x !in before ==> fresh@Before(x);
      assert ORDER[..i + 1] == ORDER[..i] + [ORDER[i]];
      assert Added(i + 1) == Added(i) + {ORDER[i]};
      ChainGrows(trees, nodes, tree.rank, n, tree.shape);
      trees, nodes := trees + [tree.shape], nodes + [n];
      i := i + 1;
    }
    m := ChainEnds(trees, nodes, tree.rank);
  }

  lemma {:induction false} NotYet(s: seq<Item>, k: Address, rank: Item -> int)
    requires Keyed(s, Added(12)) && k !in ORDER && ByAddress(rank)
    ensures !Holds(s, Item(k), rank)
  {
    KeyedInserted(s, Added(12), k, rank);
  }

  lemma {:induction false} WhatHalts(m: Nodes, rank: Item -> int)
    requires Complete(m) && ByAddress(rank)
    ensures !RotatesAtNull(After(m, 12), Item(11), false, rank)
    ensures !RotatesAtNull(After(m, 13), Item(19), false, rank)
    ensures RotatesAtNull(After(m, 14), Item(13), true, rank)
  {
  }

  lemma {:induction false} AddressesAreOrdered()
    ensures TotalPreorder(CompareAddresses)
    ensures forall rank :: Orders(CompareAddresses, rank) ==> ByAddress(rank)
  {
    forall rank | Orders(CompareAddresses, rank)
      ensures ByAddress(rank)
    {
      forall a, b
        ensures rank(a) < rank(b) <==> a.address < b.address
      {
        assert CompareAddresses(a, b) < 0 <==> rank(a) < rank(b);
      }
    }
  }

  /** Two insertions that fail are enough: on a new tree, twelve insertions with memory and the two
      without leave a tree on which the next one halts, although memory is to be had again. */
  method TwoFailuresHalt() returns (first: KernReturn, second: KernReturn, third: KernReturn)
    ensures first == NoSpace && second == NoSpace && third == Bug
  {
    hide After, ByAddress, Holds, Keyed, RotatesAtNull, Wrapped, Accounts, Inserted, Grown, Tree.Nodes, Tree.Items;
    AddressesAreOrdered();
    var tree := new RbTree(Operations(CompareAddresses, CompareAddresses));
    ghost var m := Build(tree);
    Misses11(m, tree.rank);
    Misses19(m, tree.rank);
    WhatHalts(m, tree.rank);
    NotYet(tree.Contents(), 11, tree.rank);
    NotYet(tree.Contents(), 19, tree.rank);
    ghost var added;
    first, added := tree.Insert(Item(11), false);
    second, added := tree.Insert(Item(19), false);
    third, added := tree.Insert(Item(13), true);
  }
}
