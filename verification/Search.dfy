/** What lustre_rb_tree_find looks up, as intended and as written. */
module Search {
  import opened Options
  import opened References
  import opened Ordering
  import opened Shape

  /** Looking for key, the find comparator agrees with the order of the tree: the items before the
      matches are those it puts before the key. */
  ghost predicate FollowsOrder(find: Comparator, key: Item, rank: Item -> int) {
    forall a, b :: rank(a) <= rank(b) ==>
                     (find(b, key) < 0 ==> find(a, key) < 0) && (0 < find(a, key) ==> 0 < find(b, key))
  }

  ghost predicate Matches(s: seq<Item>, find: Comparator, key: Item) {
    exists i :: 0 <= i < |s| && find(s[i], key) == 0
  }

  /** The item that the descent meets first, with the comparator's sign as rb_tree.h declares it. */
  ghost function Lookup(t: Tree, find: Comparator, key: Item): Option<Item> {
    if t.Leaf? then None
    else if find(t.data, key) == 0 then Some(t.data)
    else Lookup(t.Kid(find(t.data, key) < 0), find, key)
  }

  /** The same with line 177 as written: an unsigned result is never below zero. */
  ghost function LookupUnsigned(t: Tree, find: Comparator, key: Item): Option<Item> {
    if t.Leaf? then None
    else if find(t.data, key) == 0 then Some(t.data)
    else LookupUnsigned(t.left, find, key)
  }

  lemma {:induction false} MatchesConcat(a: seq<Item>, b: seq<Item>, find: Comparator, key: Item)
    ensures Matches(a + b, find, key) <==> Matches(a, find, key) || Matches(b, find, key)
  {
    var s := a + b;
    assert forall i :: 0 <= i < |a| ==> s[i] == a[i];
    assert forall i :: 0 <= i < |b| ==> s[|a| + i] == b[i];
  }

  lemma {:induction false} MatchesBranch(t: Tree, find: Comparator, key: Item)
    requires t.Branch?
    ensures Matches(t.Items(), find, key) <==>
            Matches(t.left.Items(), find, key) || find(t.data, key) == 0 || Matches(t.right.Items(), find, key)
  {
    MatchesConcat(t.left.Items() + [t.data], t.right.Items(), find, key);
    MatchesConcat(t.left.Items(), [t.data], find, key);
    assert [t.data][0] == t.data;
  }

  /** In a sorted tree the matches lie where the comparison points. */
  lemma {:induction false} MatchesSide(t: Tree, find: Comparator, key: Item, rank: Item -> int)
    requires t.Branch? && Ascending(t.Items(), rank) && FollowsOrder(find, key, rank)
    ensures Ascending(t.left.Items(), rank) && Ascending(t.right.Items(), rank)
    ensures find(t.data, key) < 0 ==> !Matches(t.left.Items(), find, key)
    ensures 0 < find(t.data, key) ==> !Matches(t.right.Items(), find, key)
  {
    var l, d, r := t.left.Items(), [t.data], t.right.Items();
    assert t.Items() == l + (d + r);
    AscendingConcat(l, d + r, rank);
    AscendingConcat(d, r, rank);
  }

  /** Whatever is returned is stored and matches; in a sorted tree with a find comparator that
      follows its order, a match is found whenever there is one. */
  lemma {:induction false} LookupFinds(t: Tree, find: Comparator, key: Item, rank: Item -> int)
    ensures var r := Lookup(t, find, key);
            && (r.Some? ==> r.value in t.Items() && find(r.value, key) == 0)
            && (Ascending(t.Items(), rank) && FollowsOrder(find, key, rank) ==> (r.Some? <==> Matches(t.Items(), find, key)))
    decreases t
  {
    if t.Branch? {
      MatchesBranch(t, find, key);
      if find(t.data, key) != 0 {
        LookupFinds(t.Kid(find(t.data, key) < 0), find, key, rank);
        if Ascending(t.Items(), rank) && FollowsOrder(find, key, rank) {
          MatchesSide(t, find, key, rank);
        }
      }
    }
  }

  /** Some node on the path of left links from the root matches. */
  ghost predicate OnLeftSpine(t: Tree, find: Comparator, key: Item) {
    t.Branch? && (find(t.data, key) == 0 || OnLeftSpine(t.left, find, key))
  }

  /** As written, find gives the right answer exactly when no stored item matches or one on the
      left spine does. */
  lemma {:induction false} UnsignedFindIsExact(t: Tree, find: Comparator, key: Item, rank: Item -> int)
    requires Ascending(t.Items(), rank) && FollowsOrder(find, key, rank)
    ensures LookupUnsigned(t, find, key) == Lookup(t, find, key) <==>
            !Matches(t.Items(), find, key) || OnLeftSpine(t, find, key)
    ensures LookupUnsigned(t, find, key).Some? <==> OnLeftSpine(t, find, key)
    ensures OnLeftSpine(t, find, key) ==> Matches(t.Items(), find, key)
    decreases t
  {
    LookupFinds(t, find, key, rank);
    if t.Branch? {
      MatchesBranch(t, find, key);
      MatchesSide(t, find, key, rank);
      UnsignedFindIsExact(t.left, find, key, rank);
    }
  }

  /** A two-node tree in which find as written misses the item to the right of the root. */
  lemma {:induction false} UnsignedFindMisses(m: Node, n: Node, a: Item, b: Item, find: Comparator, rank: Item -> int)
    requires rank(a) < rank(b) && find(a, b) < 0 && find(b, b) == 0
    ensures var t := Branch(m, false, a, Leaf, Branch(n, true, b, Leaf, Leaf));
            Lookup(t, find, b) == Some(b) && LookupUnsigned(t, find, b) == None
  {
    var kid := Branch(n, true, b, Leaf, Leaf);
    assert Lookup(kid, find, b) == Some(b);
  }
}
