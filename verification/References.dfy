/** Data pointers and their reference counts, as the callbacks of a tree or a list move them. */
module References {
  /** A non-null data pointer. */
  type Address = a: nat | 0 < a < 0x1_0000_0000_0000_0000 witness 1
  datatype Item = Item(address: Address)

  /** The ref_count_inc and ref_count_dec calls made so far. */
  datatype Ledger = Ledger(incs: multiset<Item>, decs: multiset<Item>) {
    ghost function Inc(x: Item): Ledger { Ledger(incs + multiset{x}, decs) }
    ghost function Dec(x: Item): Ledger { Ledger(incs, decs + multiset{x}) }
    ghost function DecAll(s: seq<Item>): Ledger { if s == [] then this else DecAll(s[..|s| - 1]).Dec(s[|s| - 1]) }
  }

  /** For every item: increments minus decrements is its number of occurrences in s. */
  ghost predicate Accounts(l: Ledger, s: seq<Item>) { l.incs == l.decs + multiset(s) }

  lemma {:induction false} DecAllCounts(l: Ledger, s: seq<Item>)
    ensures l.DecAll(s).incs == l.incs && l.DecAll(s).decs == l.decs + multiset(s)
  {
    if s != [] {
      DecAllCounts(l, s[..|s| - 1]);
      assert s == s[..|s| - 1] + [s[|s| - 1]];
    }
  }

  ghost function Reversed<T>(s: seq<T>): (r: seq<T>)
    ensures |r| == |s| && forall i :: 0 <= i < |s| ==> r[i] == s[|s| - 1 - i]
  {
    seq(|s|, i requires 0 <= i < |s| => s[|s| - 1 - i])
  }

  lemma {:induction false} ReversedMultiset<T>(s: seq<T>)
    ensures multiset(Reversed(s)) == multiset(s)
  {
    if s != [] {
      var rest := s[1..];
      ReversedMultiset(rest);
      assert Reversed(s) == Reversed(rest) + [s[0]];
      assert s == [s[0]] + rest;
    }
  }

  /** Releasing every stored item once leaves nothing owed. */
  lemma {:induction false} AllReleased(l: Ledger, s: seq<Item>)
    requires Accounts(l, s)
    ensures Accounts(l.DecAll(Reversed(s)), [])
  {
    DecAllCounts(l, Reversed(s));
    ReversedMultiset(s);
  }
}
