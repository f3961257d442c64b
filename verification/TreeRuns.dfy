/** Whole runs of insertions and removals: the tree is a finite ordered set, its references are
    conserved, and what its count is worth. */
module TreeRuns {
  import opened Options
  import opened References
  import opened Ordering
  import opened Shape
  import opened Balance
  import opened InsertDescent
  import opened InsertWalk
  import opened Search
  import opened RbTrees
  import opened Words

  /** canAlloc: memory can be had for a new node. */
  datatype Call = Insert(item: Item, canAlloc: bool) | Remove(item: Item)

  /** What clients of a tree can observe. */
  datatype View = View(items: seq<Item>, size: Word, ledger: Ledger)

  ghost function ViewOf(tree: RbTree): View
    reads tree
  {
    View(tree.Contents(), tree.size, tree.ledger)
  }

  /** An insertion that needs memory and gets none. */
  ghost predicate Fails(v: View, call: Call, rank: Item -> int) {
    call.Insert? && !call.canAlloc && !Holds(v.items, call.item, rank)
  }

  ghost function After(v: View, call: Call, rank: Item -> int): View {
    match call
    case Insert(x, canAlloc) =>
      if Fails(v, call, rank) then v
      else View(Inserted(v.items, x, rank), Increment(v.size), Acquired(v.ledger, v.items, x, rank))
    case Remove(x) => View(Removed(v.items, x, rank), Decrement(v.size), Released(v.ledger, v.items, x, rank))
  }

  /** One call on a tree in memory.  Only an insertion can halt, only below a red root, and a red root
      is left only by an insertion that failed. */
  method Apply(tree: RbTree, call: Call) returns (result: KernReturn)
    requires tree.Valid()
    modifies tree`root, tree`size, tree`shape, tree`ledger, tree`drift
    modifies tree.shape.Nodes()`red, tree.shape.Nodes()`link, tree.shape.Nodes()`data
    ensures result.Bug? <==> call.Insert? && RotatesAtNull(old(tree.shape), call.item, call.canAlloc, tree.rank)
    ensures result.Bug? ==> old(tree.shape).IsRed()
    ensures !result.Bug? ==> tree.Valid() && ViewOf(tree) == After(old(ViewOf(tree)), call, tree.rank)
    ensures !result.Bug? ==> fresh(tree.shape.Nodes() - old(tree.shape.Nodes()))
    ensures !result.Bug? ==> tree.drift == old(tree.drift) + Drift(old(tree.Contents()), call, tree.rank)
    ensures !result.Bug? && tree.shape.IsRed() ==> result.NoSpace?
    ensures !result.Bug? ==> (result.NoSpace? <==> Fails(old(ViewOf(tree)), call, tree.rank))
    ensures result.NoSpace? ==> tree.shape == Grown(old(tree.shape), call.item, null, tree.rank)
    ensures result.InvalidArgument? <==> call.Remove? && !Holds(old(tree.Contents()), call.item, tree.rank)
  {
    hide Holds, Inserted, Removed, Acquired, Released, Grown, Painted, Tree.Nodes, Tree.Items, Wrapped, Accounts;
    match call {
      case Insert(x, canAlloc) =>
        ghost var added;
        result, added := tree.Insert(x, canAlloc);
      case Remove(x) => result := tree.Remove(x);
    }
  }

  /** How far a call moves size away from the number of items. */
  ghost function Drift(items: seq<Item>, call: Call, rank: Item -> int): int {
    if Holds(items, call.item, rank) then (if call.Insert? then 1 else 0) else if call.Remove? then -1 else 0
  }

  ghost function Start(): View { View([], 0, Ledger(multiset{}, multiset{})) }

  ghost function Run(calls: seq<Call>, rank: Item -> int): View {
    if calls == [] then Start() else After(Run(calls[..|calls| - 1], rank), calls[|calls| - 1], rank)
  }

  /** Over every run the items stay strictly ascending, and for every item increments minus
      decrements is its number of occurrences. */
  lemma {:induction false} RunIsSound(calls: seq<Call>, rank: Item -> int)
    ensures Ascending(Run(calls, rank).items, rank) && Accounts(Run(calls, rank).ledger, Run(calls, rank).items)
  {
    if calls != [] {
      var v, call := Run(calls[..|calls| - 1], rank), calls[|calls| - 1];
      RunIsSound(calls[..|calls| - 1], rank);
      match call {
        case Insert(x, _) =>
          InsertedAscends(v.items, x, rank);
          InsertedAccounts(v.ledger, v.items, x, rank);
        case Remove(x) =>
          RemovedAscends(v.items, x, rank);
          RemovedAccounts(v.ledger, v.items, x, rank);
      }
    }
  }

  /* ---------- which item a run stores ---------- */

  /** Reading the run backwards: the item stored for y's place in the order, by the last call about
      it; an insertion keeps the item that is already there, and otherwise needs memory. */
  ghost function Stored(calls: seq<Call>, y: Item, rank: Item -> int): Option<Item> {
    if calls == [] then None
    else
      var before, last := Stored(calls[..|calls| - 1], y, rank), calls[|calls| - 1];
      if rank(last.item) != rank(y) then before
      else if last.Remove? then None
      else if before.Some? || !last.canAlloc then before
      else Some(last.item)
  }

  ghost predicate HoldsExactly(s: seq<Item>, y: Item, stored: Option<Item>, rank: Item -> int) {
    && (Holds(s, y, rank) <==> stored.Some?)
    && (stored.Some? ==> rank(stored.value) == rank(y) && stored.value in s)
  }

  lemma {:induction false} InMultiset(s: seq<Item>, y: Item, rank: Item -> int)
    ensures Holds(s, y, rank) <==> exists z :: z in multiset(s) && rank(z) == rank(y)
  {
    if Holds(s, y, rank) {
      var i := MatchAt(s, y, rank);
      assert s[i] in multiset(s);
    }
    if exists z :: z in multiset(s) && rank(z) == rank(y) {
      var z :| z in multiset(s) && rank(z) == rank(y);
      assert z in s;
    }
  }

  lemma {:induction false} InsertedHolds(s: seq<Item>, x: Item, y: Item, before: Option<Item>, rank: Item -> int)
    requires Ascending(s, rank) && HoldsExactly(s, y, before, rank)
    ensures HoldsExactly(Inserted(s, x, rank), y,
                         if rank(x) != rank(y) || before.Some? then before else Some(x), rank)
  {
    InsertedIsSetInsertion(s, x, rank);
    InMultiset(s, x, rank);
    InMultiset(s, y, rank);
    var t := Inserted(s, x, rank);
    InMultiset(t, y, rank);
    if !Holds(s, x, rank) {
      assert x in multiset(t) && (forall z :: z in s ==> z in multiset(s));
      assert forall z :: z in multiset(t) <==> z in multiset(s) || z == x;
    }
  }

  lemma {:induction false} RemovedHolds(s: seq<Item>, x: Item, y: Item, before: Option<Item>, rank: Item -> int)
    requires Ascending(s, rank) && HoldsExactly(s, y, before, rank)
    ensures HoldsExactly(Removed(s, x, rank), y, if rank(x) == rank(y) then None else before, rank)
  {
    RemovedIsSetRemoval(s, x, rank);
    InMultiset(s, y, rank);
    var t := Removed(s, x, rank);
    InMultiset(t, y, rank);
    if Holds(s, x, rank) {
      var gone := s[MatchAt(s, x, rank)];
      assert forall z :: z in multiset(s) <==> z in multiset(t) || z == gone;
      assert forall z :: z in s ==> z in multiset(s);
    }
  }

  /** The tree holds exactly what the calls say: for every y an equal item is stored if and only if
      an insertion of one has succeeded since the last removal, and it is the first of those. */
  lemma {:induction false} RunStores(calls: seq<Call>, y: Item, rank: Item -> int)
    ensures HoldsExactly(Run(calls, rank).items, y, Stored(calls, y, rank), rank)
  {
    if calls != [] {
      var v, call := Run(calls[..|calls| - 1], rank), calls[|calls| - 1];
      var before := Stored(calls[..|calls| - 1], y, rank);
      RunStores(calls[..|calls| - 1], y, rank);
      RunIsSound(calls[..|calls| - 1], rank);
      match call {
        case Insert(x, _) => InsertedHolds(v.items, x, y, before, rank);
        case Remove(x) => RemovedHolds(v.items, x, y, before, rank);
      }
    }
  }

  /* ---------- runs in memory ---------- */

  /** The failed insertions since the last call of another kind. */
  ghost function Failures(calls: seq<Call>, rank: Item -> int): nat {
    if calls == [] then 0
    else
      var before, last := calls[..|calls| - 1], calls[|calls| - 1];
      if Fails(Run(before, rank), last, rank) then Failures(before, rank) + 1 else 0
  }

  /** Insertions of an item that was already stored. */
  ghost function Duplicates(calls: seq<Call>, rank: Item -> int): nat {
    if calls == [] then 0
    else
      var before, last := calls[..|calls| - 1], calls[|calls| - 1];
      Duplicates(before, rank) + if last.Insert? && Holds(Run(before, rank).items, last.item, rank) then 1 else 0
  }

  /** Removals of an item that was not stored. */
  ghost function Misses(calls: seq<Call>, rank: Item -> int): nat {
    if calls == [] then 0
    else
      var before, last := calls[..|calls| - 1], calls[|calls| - 1];
      Misses(before, rank) + if last.Remove? && !Holds(Run(before, rank).items, last.item, rank) then 1 else 0
  }

  lemma {:induction false} OneMore(calls: seq<Call>, i: nat, rank: Item -> int)
    requires i < |calls|
    ensures Run(calls[..i + 1], rank) == After(Run(calls[..i], rank), calls[i], rank)
    ensures Failures(calls[..i + 1], rank) ==
              if Fails(Run(calls[..i], rank), calls[i], rank) then Failures(calls[..i], rank) + 1 else 0
    ensures Duplicates(calls[..i + 1], rank) - Misses(calls[..i + 1], rank) ==
              Duplicates(calls[..i], rank) - Misses(calls[..i], rank)
              + Drift(Run(calls[..i], rank).items, calls[i], rank)
  {
    assert calls[..i + 1][..i] == calls[..i];
  }

  /** What few failures can do to the tree. */
  ghost predicate Coloured(t: Tree, failures: nat) {
    (failures == 0 ==> !t.IsRed()) && (failures == 1 ==> Calm(t))
  }

  /** The calls of a run, one after the other, on a new tree in memory, up to the first that halts:
      clients observe what Run says, and no call halts unless two insertions failed since the last
      call that was not a failed insertion.  last is the tree that the last call found. */
  method Drive(tree: RbTree, calls: seq<Call>) returns (done: nat, halted: bool, ghost last: Tree)
    requires tree.Valid() && tree.shape == Leaf && ViewOf(tree) == Start() && tree.drift == 0
    modifies tree`root, tree`size, tree`shape, tree`ledger, tree`drift
    ensures done <= |calls| && (halted <==> done < |calls|)
    ensures !halted ==> tree.Valid() && ViewOf(tree) == Run(calls, tree.rank)
    ensures !halted ==> tree.drift == Duplicates(calls, tree.rank) - Misses(calls, tree.rank)
    ensures !halted ==> forall y :: HoldsExactly(tree.Contents(), y, Stored(calls, y, tree.rank), tree.rank)
    ensures halted ==> calls[done].Insert? && Failures(calls[..done], tree.rank) >= 2
    ensures halted ==> last.Items() == Run(calls[..done], tree.rank).items
    ensures halted ==> RotatesAtNull(last, calls[done].item, calls[done].canAlloc, tree.rank)
  {
    hide Run, After, Fails, Failures, Duplicates, Misses, Drift, Coloured, RotatesAtNull, Calm, Grown, Wrapped, Accounts,
         Ascending, HoldsExactly, Stored, Tree.Items;
    done, halted, last := 0, false, Leaf;
    RunsFromStart(calls, tree.rank);
    while done < |calls|
      invariant done <= |calls| && !halted
      invariant tree.Valid() && fresh(tree.shape.Nodes())
      invariant ViewOf(tree) == Run(calls[..done], tree.rank)
      invariant tree.drift == Duplicates(calls[..done], tree.rank) - Misses(calls[..done], tree.rank)
      invariant Coloured(tree.shape, Failures(calls[..done], tree.rank))
    {
      last := tree.shape;
      ghost var nodes := last.Nodes();
      OneMore(calls, done, tree.rank);
      if calls[done].Insert? && Failures(calls[..done], tree.rank) < 2 {
        FewFailuresAreCalm(last, Failures(calls[..done], tree.rank), calls[done], tree.rank);
      }
      label Before:
      var result := Apply(tree, calls[done]);
      if result == Bug {
        halted := true;
        return;
      }
      assert fresh@Before(tree.shape.Nodes() - nodes);
      assert forall n :: n in tree.shape.Nodes() && n !in nodes ==> fresh@Before(n);
      StaysColoured(last, tree.shape, Failures(calls[..done], tree.rank), Run(calls[..done], tree.rank), calls[done],
                    result.NoSpace?, tree.rank);
      done := done + 1;
    }
    assert calls[..done] == calls;
    forall y
      ensures HoldsExactly(tree.Contents(), y, Stored(calls, y, tree.rank), tree.rank)
    {
      RunStores(calls, y, tree.rank);
    }
  }

  lemma {:induction false} RunsFromStart(calls: seq<Call>, rank: Item -> int)
    ensures Run(calls[..0], rank) == Start() && Failures(calls[..0], rank) == 0
    ensures Duplicates(calls[..0], rank) == 0 == Misses(calls[..0], rank)
    ensures Coloured(Leaf, 0)
  {
  }

  lemma {:induction false} FewFailuresAreCalm(t: Tree, failures: nat, call: Call, rank: Item -> int)
    requires Coloured(t, failures) && failures < 2 && call.Insert?
    ensures !RotatesAtNull(t, call.item, call.canAlloc, rank)
  {
    if failures == 1 {
      CalmNeverHalts(t, call.item, call.canAlloc, rank);
    }
  }

  lemma {:induction false} StaysColoured(t: Tree, u: Tree, failures: nat, v: View, call: Call, failed: bool,
      rank: Item -> int)
    requires Coloured(t, failures) && Balanced(t) && Ascending(t.Items(), rank) && v.items == t.Items()
    requires failed <==> Fails(v, call, rank)
    requires if failed then u == Grown(t, call.item, null, rank) else !u.IsRed()
    ensures Coloured(u, if failed then failures + 1 else 0)
  {
    if failed && failures == 0 {
      FailsCalmly(t, call.item, rank);
    }
  }

  /* ---------- what count is worth ---------- */

  /** As written (line 288 on every success, line 385 always) the count is the number of stored items
      plus the duplicate insertions minus the fruitless removals, modulo 2^64. */
  lemma {:induction false} CountLaw(calls: seq<Call>, rank: Item -> int)
    ensures var v := Run(calls, rank);
            v.size == Wrapped(|v.items| + Duplicates(calls, rank) - Misses(calls, rank))
  {
    hide After, Wrapped, Ascending, Accounts, Holds;
    Wraps(0);
    if calls != [] {
      var before, call := calls[..|calls| - 1], calls[|calls| - 1];
      var v := Run(before, rank);
      CountLaw(before, rank);
      RunIsSound(before, rank);
      CallCounts(v, call, rank, Duplicates(before, rank) - Misses(before, rank));
    }
  }

  lemma {:induction false} CallCounts(v: View, call: Call, rank: Item -> int, extra: int)
    requires Ascending(v.items, rank) && v.size == Wrapped(|v.items| + extra)
    ensures After(v, call, rank).size == Wrapped(|After(v, call, rank).items| + extra + Drift(v.items, call, rank))
  {
    hide Inserted, Removed, Holds, Acquired, Released, Increment, Decrement, Wrapped;
    Wraps(|v.items| + extra);
    match call {
      case Insert(x, _) => InsertedLength(v.items, x, rank);
      case Remove(x) => RemovedLength(v.items, x, rank);
    }
  }

  /** So count is the cardinality of the set exactly when the duplicates and the misses balance. */
  lemma {:induction false} CountIsCardinality(calls: seq<Call>, rank: Item -> int)
    ensures var v := Run(calls, rank);
            v.size == Wrapped(|v.items|) <==> Wrapped(Duplicates(calls, rank) - Misses(calls, rank)) == 0
  {
    hide Run, Wrapped, Duplicates, Misses;
    CountLaw(calls, rank);
    WrapsAlike(|Run(calls, rank).items|, Duplicates(calls, rank) - Misses(calls, rank));
    assert |Run(calls, rank).items| + (Duplicates(calls, rank) - Misses(calls, rank))
        == |Run(calls, rank).items| + Duplicates(calls, rank) - Misses(calls, rank);
  }
}
