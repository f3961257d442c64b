/** Data pointers, the comparators the tree calls on them, and the sorted sequences that say
    what the tree stores. */
module Ordering {
  import opened References

  newtype int8 = x: int | -128 <= x < 128

  type Comparator = (Item, Item) -> int8

  /** What a comparator must satisfy: swapping the arguments swaps the sign, and "not after" is
      transitive.  Different items may compare equal. */
  ghost predicate TotalPreorder(cmp: Comparator) {
    && (forall a, b :: cmp(a, b) < 0 <==> 0 < cmp(b, a))
    && (forall a, b, c :: cmp(a, b) <= 0 && cmp(b, c) <= 0 ==> cmp(a, c) <= 0)
  }

  /** The comparator sorts by "rank". */
  ghost predicate Orders(cmp: Comparator, rank: Item -> int) {
    forall a, b :: (cmp(a, b) < 0 <==> rank(a) < rank(b)) && (cmp(a, b) == 0 <==> rank(a) == rank(b))
  }

  ghost function Before(cmp: Comparator, x: Item): set<Item> {
    set a: Address | 0 < a < 0x1_0000_0000_0000_0000 && cmp(Item(a), x) < 0 :: Item(a)
  }

  ghost function RankOf(cmp: Comparator): Item -> int {
    x => |Before(cmp, x)|
  }

  /** Ranking is no restriction: there are finitely many addresses, so every consistent comparator
      sorts by the number of items before an item. */
  lemma {:induction false} EveryPreorderIsRanked(cmp: Comparator)
    requires TotalPreorder(cmp)
    ensures Orders(cmp, RankOf(cmp))
  {
    forall a, b
      ensures cmp(a, b) < 0 <==> RankOf(cmp)(a) < RankOf(cmp)(b)
      ensures cmp(a, b) == 0 <==> RankOf(cmp)(a) == RankOf(cmp)(b)
    {
      if cmp(a, b) < 0 {
        RankGrows(cmp, a, b);
      } else if cmp(b, a) < 0 {
        RankGrows(cmp, b, a);
      } else {
        BeforeGrows(cmp, a, b);
        BeforeGrows(cmp, b, a);
        assert Before(cmp, a) == Before(cmp, b);
      }
    }
  }

  lemma {:induction false} Transitive(cmp: Comparator, a: Item, b: Item, c: Item)
    requires TotalPreorder(cmp)
    ensures cmp(a, b) <= 0 && cmp(b, c) <= 0 ==> cmp(a, c) <= 0
  {
  }

  lemma {:induction false} BeforeGrows(cmp: Comparator, a: Item, b: Item)
    requires TotalPreorder(cmp) && cmp(a, b) <= 0
    ensures Before(cmp, a) <= Before(cmp, b)
  {
    forall y | y in Before(cmp, a)
      ensures y in Before(cmp, b)
    {
      Transitive(cmp, a, b, y);
      assert y == Item(y.address);
    }
  }

  lemma {:induction false} RankGrows(cmp: Comparator, a: Item, b: Item)
    requires TotalPreorder(cmp) && cmp(a, b) < 0
    ensures |Before(cmp, a)| < |Before(cmp, b)|
  {
    BeforeGrows(cmp, a, b);
    assert a == Item(a.address) && a in Before(cmp, b);
    assert a !in Before(cmp, a);
    SmallerSet(Before(cmp, a), Before(cmp, b), a);
  }

  lemma {:induction false} SmallerSet<T>(s: set<T>, t: set<T>, x: T)
    requires s <= t && x in t && x !in s
    ensures |s| < |t|
  {
    var rest := t - s;
    assert x in rest;
    assert t == s + rest;
  }

  /* ---------- strictly ascending sequences ---------- */

  ghost predicate Ascending(s: seq<Item>, rank: Item -> int) {
    forall i, j :: 0 <= i < j < |s| ==> rank(s[i]) < rank(s[j])
  }

  ghost predicate AllBelow(s: seq<Item>, r: int, rank: Item -> int) {
    forall i :: 0 <= i < |s| ==> rank(s[i]) < r
  }

  ghost predicate AllFrom(s: seq<Item>, r: int, rank: Item -> int) {
    forall i :: 0 <= i < |s| ==> r <= rank(s[i])
  }

  lemma {:induction false} BelowConcat(a: seq<Item>, b: seq<Item>, r: int, rank: Item -> int)
    ensures AllBelow(a + b, r, rank) <==> AllBelow(a, r, rank) && AllBelow(b, r, rank)
  {
    var s := a + b;
    assert forall i :: 0 <= i < |a| ==> s[i] == a[i];
    assert forall i :: 0 <= i < |b| ==> s[|a| + i] == b[i];
  }

  lemma {:induction false} FromConcat(a: seq<Item>, b: seq<Item>, r: int, rank: Item -> int)
    ensures AllFrom(a + b, r, rank) <==> AllFrom(a, r, rank) && AllFrom(b, r, rank)
  {
    var s := a + b;
    assert forall i :: 0 <= i < |a| ==> s[i] == a[i];
    assert forall i :: 0 <= i < |b| ==> s[|a| + i] == b[i];
  }

  lemma {:induction false} AscendingConcat(a: seq<Item>, b: seq<Item>, rank: Item -> int)
    requires Ascending(a + b, rank)
    ensures Ascending(a, rank) && Ascending(b, rank)
    ensures b != [] ==> AllBelow(a, rank(b[0]), rank)
    ensures a != [] ==> AllFrom(b, rank(a[|a| - 1]) + 1, rank)
  {
    var s := a + b;
    assert forall i :: 0 <= i < |a| ==> s[i] == a[i];
    assert forall i :: 0 <= i < |b| ==> s[|a| + i] == b[i];
  }

  /** Some stored item compares equal to x. */
  ghost predicate Holds(s: seq<Item>, x: Item, rank: Item -> int) {
    exists i :: 0 <= i < |s| && rank(s[i]) == rank(x)
  }

  /** Put x at its place, unless an equal item is there. */
  ghost function Inserted(s: seq<Item>, x: Item, rank: Item -> int): seq<Item> {
    if s == [] || rank(x) < rank(s[0]) then [x] + s
    else if rank(x) == rank(s[0]) then s
    else [s[0]] + Inserted(s[1..], x, rank)
  }

  /** Drop the item equal to x, if there is one. */
  ghost function Removed(s: seq<Item>, x: Item, rank: Item -> int): seq<Item> {
    if s == [] then []
    else if rank(x) == rank(s[0]) then s[1..]
    else [s[0]] + Removed(s[1..], x, rank)
  }

  lemma {:induction false} InsertedMember(s: seq<Item>, x: Item, z: Item, rank: Item -> int)
    requires z in Inserted(s, x, rank)
    ensures z == x || z in s
  {
    if s != [] && rank(s[0]) < rank(x) && z != s[0] {
      assert z in Inserted(s[1..], x, rank);
      InsertedMember(s[1..], x, z, rank);
    }
  }

  lemma {:induction false} InsertedBetween(pre: seq<Item>, post: seq<Item>, x: Item, rank: Item -> int)
    requires AllBelow(pre, rank(x), rank) && AllFrom(post, rank(x) + 1, rank)
    ensures Inserted(pre + post, x, rank) == pre + [x] + post
  {
    if pre == [] {
      assert pre + post == post;
    } else {
      assert (pre + post)[1..] == pre[1..] + post;
      InsertedBetween(pre[1..], post, x, rank);
      assert pre == [pre[0]] + pre[1..];
    }
  }

  lemma {:induction false} InsertedDuplicate(pre: seq<Item>, y: Item, post: seq<Item>, x: Item, rank: Item -> int)
    requires AllBelow(pre, rank(x), rank) && rank(y) == rank(x)
    ensures Inserted(pre + [y] + post, x, rank) == pre + [y] + post
  {
    var s := pre + [y] + post;
    if pre != [] {
      assert s[1..] == pre[1..] + [y] + post;
      InsertedDuplicate(pre[1..], y, post, x, rank);
    }
  }

  lemma {:induction false} RemovedFrom(pre: seq<Item>, y: Item, post: seq<Item>, x: Item, rank: Item -> int)
    requires AllBelow(pre, rank(x), rank) && rank(y) == rank(x)
    ensures Removed(pre + [y] + post, x, rank) == pre + post
  {
    var s := pre + [y] + post;
    if pre == [] {
      assert s[1..] == post == pre + post;
    } else {
      assert s[1..] == pre[1..] + [y] + post;
      RemovedFrom(pre[1..], y, post, x, rank);
      assert pre + post == [pre[0]] + (pre[1..] + post);
    }
  }

  lemma {:induction false} RemovedAbsent(s: seq<Item>, x: Item, rank: Item -> int)
    requires !Holds(s, x, rank)
    ensures Removed(s, x, rank) == s
  {
    if s != [] {
      assert rank(s[0]) != rank(x);
      forall i | 0 <= i < |s[1..]|
        ensures rank(s[1..][i]) != rank(x)
      {
        assert s[1..][i] == s[i + 1];
      }
      RemovedAbsent(s[1..], x, rank);
    }
  }

  /** Where x belongs in an ascending sequence that holds no equal item. */
  lemma {:induction false} SplitPoint(s: seq<Item>, x: Item, rank: Item -> int) returns (k: nat)
    requires Ascending(s, rank) && !Holds(s, x, rank)
    ensures k <= |s| && AllBelow(s[..k], rank(x), rank) && AllFrom(s[k..], rank(x) + 1, rank)
  {
    k := 0;
    while k < |s| && rank(s[k]) < rank(x)
      invariant k <= |s| && AllBelow(s[..k], rank(x), rank)
    {
      k := k + 1;
    }
  }

  lemma {:induction false} AscendingParts(pre: seq<Item>, y: Item, post: seq<Item>, x: Item, rank: Item -> int)
    requires Ascending(pre + [y] + post, rank) && rank(y) == rank(x)
    ensures AllBelow(pre, rank(x), rank) && Ascending(pre + post, rank) && !Holds(pre + post, x, rank)
  {
    var s, rest := pre + [y] + post, pre + post;
    assert s[|pre|] == y;
    forall i | 0 <= i < |pre|
      ensures rank(pre[i]) < rank(x)
    {
      assert s[i] == pre[i];
    }
    forall i | 0 <= i < |rest|
      ensures rest[i] == s[if i < |pre| then i else i + 1] && rank(rest[i]) != rank(x)
    {
    }
  }

  lemma {:induction false} AscendingJoin(pre: seq<Item>, x: Item, post: seq<Item>, rank: Item -> int)
    requires Ascending(pre + post, rank)
    requires AllBelow(pre, rank(x), rank) && AllFrom(post, rank(x) + 1, rank)
    ensures Ascending(pre + [x] + post, rank)
  {
    var s, t := pre + [x] + post, pre + post;
    forall i, j | 0 <= i < j < |s|
      ensures rank(s[i]) < rank(s[j])
    {
      assert i < |pre| ==> s[i] == t[i] == pre[i];
      assert j < |pre| ==> s[j] == t[j];
      assert i > |pre| ==> s[i] == t[i - 1];
      assert j > |pre| ==> s[j] == t[j - 1] == post[j - |pre| - 1];
    }
  }

  lemma {:induction false} InsertedHeld(s: seq<Item>, x: Item, rank: Item -> int)
    requires Ascending(s, rank) && Holds(s, x, rank)
    ensures Inserted(s, x, rank) == s
  {
    var k :| 0 <= k < |s| && rank(s[k]) == rank(x);
    assert s == s[..k] + [s[k]] + s[k + 1..];
    AscendingParts(s[..k], s[k], s[k + 1..], x, rank);
    InsertedDuplicate(s[..k], s[k], s[k + 1..], x, rank);
  }

  lemma {:induction false} InsertedNew(s: seq<Item>, x: Item, rank: Item -> int)
    requires Ascending(s, rank) && !Holds(s, x, rank)
    ensures Ascending(Inserted(s, x, rank), rank)
    ensures multiset(Inserted(s, x, rank)) == multiset(s) + multiset{x}
  {
    var k := SplitPoint(s, x, rank);
    var pre, post := s[..k], s[k..];
    assert s == pre + post;
    InsertedBetween(pre, post, x, rank);
    AscendingJoin(pre, x, post, rank);
  }

  /** Insertion adds exactly x, or nothing when an equal item is stored, and keeps the order. */
  lemma {:induction false} InsertedIsSetInsertion(s: seq<Item>, x: Item, rank: Item -> int)
    requires Ascending(s, rank)
    ensures Ascending(Inserted(s, x, rank), rank)
    ensures multiset(Inserted(s, x, rank)) == if Holds(s, x, rank) then multiset(s) else multiset(s) + multiset{x}
    ensures Holds(s, x, rank) ==> Inserted(s, x, rank) == s
  {
    if Holds(s, x, rank) {
      InsertedHeld(s, x, rank);
    } else {
      InsertedNew(s, x, rank);
    }
  }

  /** The index of the item that compares equal to x. */
  ghost function MatchAt(s: seq<Item>, x: Item, rank: Item -> int): (k: nat)
    requires Holds(s, x, rank)
    ensures k < |s| && rank(s[k]) == rank(x)
  {
    var k :| 0 <= k < |s| && rank(s[k]) == rank(x); k
  }

  /** Removal takes exactly the equal item, or nothing when there is none, and keeps the order. */
  lemma {:induction false} RemovedIsSetRemoval(s: seq<Item>, x: Item, rank: Item -> int)
    requires Ascending(s, rank)
    ensures Ascending(Removed(s, x, rank), rank)
    ensures !Holds(Removed(s, x, rank), x, rank)
    ensures !Holds(s, x, rank) ==> Removed(s, x, rank) == s
    ensures Holds(s, x, rank) ==> multiset(s) == multiset(Removed(s, x, rank)) + multiset{s[MatchAt(s, x, rank)]}
  {
    if !Holds(s, x, rank) {
      RemovedAbsent(s, x, rank);
    } else {
      var k := MatchAt(s, x, rank);
      var pre, post := s[..k], s[k + 1..];
      assert s == pre + [s[k]] + post;
      AscendingParts(pre, s[k], post, x, rank);
      RemovedFrom(pre, s[k], post, x, rank);
    }
  }

  /* ---------- reference counts ---------- */

  lemma {:induction false} InsertedLength(s: seq<Item>, x: Item, rank: Item -> int)
    requires Ascending(s, rank)
    ensures |Inserted(s, x, rank)| == if Holds(s, x, rank) then |s| else |s| + 1
  {
    InsertedIsSetInsertion(s, x, rank);
    assert |multiset(Inserted(s, x, rank))| == |Inserted(s, x, rank)| && |multiset(s)| == |s|;
  }

  lemma {:induction false} RemovedLength(s: seq<Item>, x: Item, rank: Item -> int)
    requires Ascending(s, rank)
    ensures |Removed(s, x, rank)| == if Holds(s, x, rank) then |s| - 1 else |s|
  {
    RemovedIsSetRemoval(s, x, rank);
    assert |multiset(Removed(s, x, rank))| == |Removed(s, x, rank)| && |multiset(s)| == |s|;
  }

  /** Inserting x takes one reference to it, unless an equal item is stored. */
  ghost function Acquired(l: Ledger, s: seq<Item>, x: Item, rank: Item -> int): Ledger {
    if Holds(s, x, rank) then l else l.Inc(x)
  }

  /** Removing x releases one reference to the stored item that equals it, if there is one. */
  ghost function Released(l: Ledger, s: seq<Item>, x: Item, rank: Item -> int): Ledger {
    if Holds(s, x, rank) then l.Dec(s[MatchAt(s, x, rank)]) else l
  }

  lemma {:induction false} InsertedAccounts(l: Ledger, s: seq<Item>, x: Item, rank: Item -> int)
    requires Accounts(l, s) && Ascending(s, rank)
    ensures Accounts(Acquired(l, s, x, rank), Inserted(s, x, rank))
  {
    InsertedIsSetInsertion(s, x, rank);
  }

  lemma {:induction false} RemovedAccounts(l: Ledger, s: seq<Item>, x: Item, rank: Item -> int)
    requires Accounts(l, s) && Ascending(s, rank)
    ensures Accounts(Released(l, s, x, rank), Removed(s, x, rank))
  {
    RemovedIsSetRemoval(s, x, rank);
  }

  lemma {:induction false} InsertedAscends(s: seq<Item>, x: Item, rank: Item -> int)
    requires Ascending(s, rank)
    ensures Ascending(Inserted(s, x, rank), rank)
  {
    InsertedIsSetInsertion(s, x, rank);
  }

  lemma {:induction false} RemovedAscends(s: seq<Item>, x: Item, rank: Item -> int)
    requires Ascending(s, rank)
    ensures Ascending(Removed(s, x, rank), rank)
  {
    RemovedIsSetRemoval(s, x, rank);
  }
}
