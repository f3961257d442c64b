/** What a reference-holding list is for: a sequence, and references that are never lost. */
module ListSpec {
  import opened References

  datatype Call = EnqueueHead(item: Item) | EnqueueTail(item: Item) | DequeueHead | DequeueTail | Empty

  /** items: what is linked, from the head on; handed: what was dequeued so far, whose references
      went to the callers; ledger: what was done to the reference counts. */
  datatype View = View(items: seq<Item>, handed: seq<Item>, ledger: Ledger)

  ghost function After(v: View, call: Call): View {
    match call
    case EnqueueHead(x) => View([x] + v.items, v.handed, v.ledger.Inc(x))
    case EnqueueTail(x) => View(v.items + [x], v.handed, v.ledger.Inc(x))
    case DequeueHead => if v.items == [] then v else View(v.items[1..], v.handed + [v.items[0]], v.ledger)
    case DequeueTail =>
      if v.items == [] then v
      else View(v.items[..|v.items| - 1], v.handed + [v.items[|v.items| - 1]], v.ledger)
    case Empty => View([], v.handed, v.ledger.DecAll(v.items))
  }

  ghost function Run(v: View, calls: seq<Call>): View {
    if calls == [] then v else After(Run(v, calls[..|calls| - 1]), calls[|calls| - 1])
  }

  /** For every item, increments equal decrements plus items dequeued plus entries still linked. */
  ghost predicate Conserves(v: View) { Accounts(v.ledger, v.handed + v.items) }

  lemma {:induction false} MiddleToEnd(a: seq<Item>, x: Item, b: seq<Item>)
    ensures multiset(a + ([x] + b)) == multiset(a + b + [x])
    ensures multiset(a + [x] + b) == multiset(a + (b + [x]))
  {
    assert a + [x] + b == a + ([x] + b);
    assert a + (b + [x]) == (a + b) + [x];
  }

  lemma {:induction false} IncAccounts(l: Ledger, s: seq<Item>, x: Item)
    requires Accounts(l, s)
    ensures Accounts(l.Inc(x), s + [x])
  {
  }

  lemma {:induction false} ReorderedAccounts(l: Ledger, s: seq<Item>, t: seq<Item>)
    requires Accounts(l, s) && multiset(s) == multiset(t)
    ensures Accounts(l, t)
  {
  }

  lemma {:induction false} EmptyAccounts(l: Ledger, s: seq<Item>, t: seq<Item>)
    requires Accounts(l, s + t)
    ensures Accounts(l.DecAll(t), s)
  {
    DecAllCounts(l, t);
    assert multiset(s + t) == multiset(s) + multiset(t);
  }

  lemma {:induction false} HeadAccounts(l: Ledger, s: seq<Item>, t: seq<Item>, x: Item)
    requires Accounts(l, s + t)
    ensures Accounts(l.Inc(x), s + ([x] + t))
  {
    hide Accounts, Ledger.Inc;
    IncAccounts(l, s + t, x);
    MiddleToEnd(s, x, t);
    ReorderedAccounts(l.Inc(x), s + t + [x], s + ([x] + t));
  }

  lemma {:induction false} TailAccounts(l: Ledger, s: seq<Item>, t: seq<Item>)
    requires Accounts(l, s + t) && t != []
    ensures Accounts(l, s + [t[|t| - 1]] + t[..|t| - 1])
  {
    hide Accounts;
    var init, x := t[..|t| - 1], t[|t| - 1];
    assert t == init + [x];
    MiddleToEnd(s, x, init);
    ReorderedAccounts(l, s + t, s + [x] + init);
  }

  lemma {:induction false} AfterConserves(v: View, call: Call)
    requires Conserves(v)
    ensures Conserves(After(v, call))
  {
    hide Accounts, Ledger.Inc, Ledger.DecAll;
    match call {
      case EnqueueHead(x) =>
        HeadAccounts(v.ledger, v.handed, v.items, x);
      case EnqueueTail(x) =>
        IncAccounts(v.ledger, v.handed + v.items, x);
        assert v.handed + (v.items + [x]) == v.handed + v.items + [x];
      case DequeueHead =>
        if v.items != [] { assert v.handed + [v.items[0]] + v.items[1..] == v.handed + v.items; }
      case DequeueTail =>
        if v.items != [] { TailAccounts(v.ledger, v.handed, v.items); }
      case Empty =>
        EmptyAccounts(v.ledger, v.handed, v.items);
        assert v.handed + [] == v.handed;
    }
  }

  lemma {:induction false} RunConserves(v: View, calls: seq<Call>)
    requires Conserves(v)
    ensures Conserves(Run(v, calls))
  {
    if calls != [] {
      RunConserves(v, calls[..|calls| - 1]);
      AfterConserves(Run(v, calls[..|calls| - 1]), calls[|calls| - 1]);
    }
  }

  ghost function Enqueued(calls: seq<Call>): seq<Item> {
    if calls == [] then []
    else Enqueued(calls[..|calls| - 1]) + (if calls[|calls| - 1].EnqueueTail? then [calls[|calls| - 1].item] else [])
  }

  /** Enqueued at the tail and dequeued at the head, the items come out in the order they went in. */
  lemma {:induction false} FirstInFirstOut(v: View, calls: seq<Call>)
    requires forall c :: c in calls ==> c.EnqueueTail? || c.DequeueHead?
    ensures Run(v, calls).handed + Run(v, calls).items == v.handed + v.items + Enqueued(calls)
  {
    if calls != [] {
      var init, last := calls[..|calls| - 1], calls[|calls| - 1];
      assert last in calls && forall c :: c in init ==> c in calls;
      FirstInFirstOut(v, init);
      var u := Run(v, init);
      if last.EnqueueTail? {
        assert u.handed + (u.items + [last.item]) == u.handed + u.items + [last.item];
        assert v.handed + v.items + Enqueued(init) + [last.item] == v.handed + v.items + (Enqueued(init) + [last.item]);
      } else if u.items != [] {
        assert u.handed + [u.items[0]] + u.items[1..] == u.handed + u.items;
      }
    }
  }

  ghost function Times(call: Call, n: nat): seq<Call> { seq(n, _ => call) }

  /** The calls that put xs behind, one after the other. */
  ghost function Pushes(xs: seq<Item>): seq<Call> { seq(|xs|, i requires 0 <= i < |xs| => Call.EnqueueTail(xs[i])) }

  lemma {:induction false} PushedBehind(v: View, xs: seq<Item>)
    ensures Run(v, Pushes(xs)).items == v.items + xs && Run(v, Pushes(xs)).handed == v.handed
  {
    if xs != [] {
      var init, last := xs[..|xs| - 1], xs[|xs| - 1];
      PushedBehind(v, init);
      assert Pushes(xs)[..|xs| - 1] == Pushes(init);
      assert v.items + init + [last] == v.items + xs;
    }
  }

  /** Enqueued at the tail and dequeued at the tail, the items come out last in, first out: after n
      dequeues the last n are out in reverse order and the others are still linked. */
  lemma {:induction false} LastInFirstOut(v: View, xs: seq<Item>, n: nat)
    requires n <= |xs|
    ensures var u := Run(v, Pushes(xs) + Times(DequeueTail, n));
            u.items == v.items + xs[..|xs| - n] && u.handed == v.handed + Reversed(xs[|xs| - n..])
  {
    var calls := Pushes(xs) + Times(DequeueTail, n);
    if n == 0 {
      assert calls == Pushes(xs);
      PushedBehind(v, xs);
    } else {
      var u := Run(v, calls[..|calls| - 1]);
      assert calls[..|calls| - 1] == Pushes(xs) + Times(DequeueTail, n - 1);
      LastInFirstOut(v, xs, n - 1);
      assert u.items[..|u.items| - 1] == v.items + xs[..|xs| - n];
      assert Reversed(xs[|xs| - n..]) == Reversed(xs[|xs| - (n - 1)..]) + [xs[|xs| - n]];
    }
  }

  /* ---------- the two ends are alike ---------- */

  ghost function Mirrored(v: View): View { v.(items := Reversed(v.items)) }

  ghost function MirroredCall(call: Call): Call {
    match call
    case EnqueueHead(x) => EnqueueTail(x)
    case EnqueueTail(x) => EnqueueHead(x)
    case DequeueHead => DequeueTail
    case DequeueTail => DequeueHead
    case Empty => Empty
  }

  ghost function MirroredCalls(calls: seq<Call>): seq<Call> {
    seq(|calls|, i requires 0 <= i < |calls| => MirroredCall(calls[i]))
  }

  lemma {:induction false} ReversedRelease(l: Ledger, s: seq<Item>)
    ensures l.DecAll(Reversed(s)) == l.DecAll(s)
  {
    hide Ledger.DecAll;
    DecAllCounts(l, s);
    DecAllCounts(l, Reversed(s));
    ReversedMultiset(s);
  }

  lemma {:induction false} MirroredAfter(v: View, call: Call)
    ensures After(Mirrored(v), MirroredCall(call)) == Mirrored(After(v, call))
  {
    hide Ledger.Inc, Ledger.DecAll;
    match call {
      case EnqueueHead(x) => assert Reversed([x] + v.items) == Reversed(v.items) + [x];
      case EnqueueTail(x) => assert Reversed(v.items + [x]) == [x] + Reversed(v.items);
      case DequeueHead =>
        if v.items != [] { assert Reversed(v.items[1..]) == Reversed(v.items)[..|v.items| - 1]; }
      case DequeueTail =>
        if v.items != [] { assert Reversed(v.items[..|v.items| - 1]) == Reversed(v.items)[1..]; }
      case Empty =>
        ReversedRelease(v.ledger, v.items);
        assert Reversed<Item>([]) == [];
    }
  }

  /** A run with head and tail exchanged, on the list read backwards, hands out the same items and
      leaves the same list read backwards. */
  lemma {:induction false} MirroredRun(v: View, calls: seq<Call>)
    ensures Run(Mirrored(v), MirroredCalls(calls)) == Mirrored(Run(v, calls))
  {
    hide After;
    if calls != [] {
      var init := calls[..|calls| - 1];
      MirroredRun(v, init);
      assert MirroredCalls(calls)[..|calls| - 1] == MirroredCalls(init);
      MirroredAfter(Run(v, init), calls[|calls| - 1]);
    }
  }

  /** After a run that ends by emptying the list, nothing is linked, and for every item increments
      equal decrements plus items handed out, which are those handed out before. */
  lemma {:induction false} EmptiedRun(v: View, calls: seq<Call>)
    requires Conserves(v)
    ensures var u := Run(v, calls + [Empty]);
            && u.items == [] && u.handed == Run(v, calls).handed
            && u.ledger.incs == u.ledger.decs + multiset(u.handed)
  {
    hide Ledger.DecAll;
    var u := Run(v, calls + [Empty]);
    assert (calls + [Empty])[..|calls|] == calls;
    RunConserves(v, calls + [Empty]);
    assert u.handed + u.items == u.handed;
  }
}
