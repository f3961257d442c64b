/** The list of list.c as it is written: entries are linked by next; prev is null in a new entry and
    otherwise whatever the repairs at lines 174-176 and 204-206 left there.  Each operation runs
    under the list's mutex from its first access to its last. */
module Lists {
  import opened Accesses
  import opened Options
  import opened References
  import opened ListSpec

  datatype KernReturn = Success | Failure

  class Entry {
    const data: Item
    var next: Entry?
    var prev: Entry?

    constructor (data: Item)
      ensures this.data == data && next == null && prev == null
    {
      this.data, next, prev := data, null, null;
    }
  }

  /** lustre_list_entry_alloc. */
  method NewEntry(data: Item, canAlloc: bool, ghost ledger: Ledger) returns (entry: Entry?, ghost after: Ledger)
    ensures entry == null <==> !canAlloc
    ensures entry != null ==> fresh(entry) && entry.data == data && entry.next == null && entry.prev == null
    ensures after == if canAlloc then ledger.Inc(data) else ledger
  {
    entry, after := null, ledger;
    if canAlloc {
      entry := new Entry(data);
      after := ledger.Inc(data);
    }
  }

  ghost function Data(s: seq<Entry>): (r: seq<Item>)
    ensures |r| == |s|
  {
    seq(|s|, i requires 0 <= i < |s| => s[i].data)
  }

  ghost function At(s: seq<Entry>, i: int): Entry? { if 0 <= i < |s| then s[i] else null }

  ghost predicate Distinct(s: seq<Entry>) { forall i, j :: 0 <= i < j < |s| ==> s[i] != s[j] }

  /** From head on, next visits exactly the entries of s and ends at tail. */
  ghost predicate Chained(head: Entry?, tail: Entry?, s: seq<Entry>)
    reads s`next
  {
    && Distinct(s)
    && head == At(s, 0)
    && tail == At(s, |s| - 1)
    && forall i {:trigger s[i].next} :: 0 <= i < |s| ==> s[i].next == At(s, i + 1)
  }

  /** Without its first entry a list is a list. */
  lemma {:induction false} ChainedRest(head: Entry, tail: Entry?, s: seq<Entry>)
    requires Chained(head, tail, s)
    ensures s != [] && s[0] == head && Chained(head.next, if tail == head then null else tail, s[1..])
  {
    var t := s[1..];
    forall i | 0 <= i < |t|
      ensures t[i].next == At(t, i + 1)
    {
      assert t[i] == s[i + 1] && (i + 1 < |t| ==> t[i + 1] == s[i + 2]);
    }
  }

  lemma {:induction false} ChainedOnto(entry: Entry, s: seq<Entry>)
    requires Chained(At(s, 0), At(s, |s| - 1), s) && entry !in s && entry.next == At(s, 0)
    ensures Chained(entry, At([entry] + s, |s|), [entry] + s)
  {
    var t := [entry] + s;
    forall i | 0 <= i < |t|
      ensures t[i].next == At(t, i + 1)
    {
      if i > 0 {
        assert t[i] == s[i - 1] && (i + 1 < |t| ==> t[i + 1] == s[i]);
      }
    }
  }

  lemma {:induction false} ChainedUpTo(s: seq<Entry>, entry: Entry)
    requires Distinct(s) && entry !in s && entry.next == null
    requires forall i {:trigger s[i].next} :: 0 <= i < |s| ==> s[i].next == if i + 1 < |s| then At(s, i + 1) else entry
    ensures Chained(At(s + [entry], 0), entry, s + [entry])
  {
    var t := s + [entry];
    forall i | 0 <= i < |t|
      ensures t[i].next == At(t, i + 1)
    {
      if i < |s| { assert t[i] == s[i]; }
    }
  }

  lemma {:induction false} DataOnto(entry: Entry, s: seq<Entry>)
    ensures Data([entry] + s) == [entry.data] + Data(s)
    ensures Data(s + [entry]) == Data(s) + [entry.data]
  {
  }

  lemma {:induction false} FreedThenRead(log: seq<Access<Entry>>, e: Entry)
    ensures Stale(log + [Freed(e)] + [Read(e)] + [Read(e)])
  {
    var longer := log + [Freed(e)] + [Read(e)] + [Read(e)];
    assert longer[|log|] == Freed(e) && longer[|log| + 1] == Read(e);
  }

  lemma {:induction false} DecNext(l: Ledger, s: seq<Item>, i: nat)
    requires i < |s|
    ensures l.DecAll(s[..i + 1]) == l.DecAll(s[..i]).Dec(s[i])
  {
    assert s[..i + 1][..i] == s[..i];
  }

  class List {
    var head: Entry?
    var tail: Entry?
    var size: nat
    ghost var entries: seq<Entry>
    ghost var handed: seq<Item>
    ghost var ledger: Ledger

    ghost predicate Valid()
      reads this, entries
    {
      Chained(head, tail, entries) && size == |entries|
    }

    ghost function View(): View
      reads this
    {
      ListSpec.View(Data(entries), handed, ledger)
    }

    constructor ()
      ensures Valid() && View() == ListSpec.View([], [], Ledger(multiset{}, multiset{}))
    {
      head, tail, size := null, null, 0;
      entries, handed, ledger := [], [], Ledger(multiset{}, multiset{});
    }

    method EnqueueHead(data: Item, canAlloc: bool) returns (result: KernReturn)
      requires Valid()
      modifies this
      ensures Valid() && (result.Success? <==> canAlloc)
      ensures View() == if canAlloc then After(old(View()), Call.EnqueueHead(data)) else old(View())
      ensures canAlloc ==> Data(entries) == [data] + old(Data(entries)) && size == old(size) + 1
      ensures canAlloc ==> ledger == Ledger(old(ledger.incs) + multiset{data}, old(ledger.decs))
      ensures canAlloc ==> handed == old(handed)
      ensures !canAlloc ==> unchanged(this)
    {
      hide Data;
      var entry;
      entry, ledger := NewEntry(data, canAlloc, ledger);
      if entry == null { return Failure; }
      if head != null {
        entry.next := head;
      }
      head := entry;
      if tail == null {
        tail := head;
      }
      size := size + 1;
      ChainedOnto(entry, entries);
      DataOnto(entry, entries);
      entries := [entry] + entries;
      result := Success;
    }

    method EnqueueTail(data: Item, canAlloc: bool) returns (result: KernReturn)
      requires Valid()
      modifies this, entries`next
      ensures Valid() && (result.Success? <==> canAlloc)
      ensures View() == if canAlloc then After(old(View()), Call.EnqueueTail(data)) else old(View())
      ensures canAlloc ==> Data(entries) == old(Data(entries)) + [data] && size == old(size) + 1
      ensures canAlloc ==> ledger == Ledger(old(ledger.incs) + multiset{data}, old(ledger.decs))
      ensures canAlloc ==> handed == old(handed)
      ensures !canAlloc ==> unchanged(this)
      ensures canAlloc ==> tail != null && fresh(tail) && tail.prev == null && entries == old(entries) + [tail]
    {
      hide Data;
      var entry;
      entry, ledger := NewEntry(data, canAlloc, ledger);
      if entry == null { return Failure; }
      if tail != null {
        tail.next := entry;
      }
      tail := entry;
      if head == null {
        head := tail;
      }
      size := size + 1;
      ChainedUpTo(entries, entry);
      DataOnto(entry, entries);
      entries := entries + [entry];
      result := Success;
    }

    /** The entry's reference goes to the caller. */
    method DequeueHead() returns (data: Option<Item>)
      requires Valid()
      modifies this, entries`prev
      ensures Valid() && View() == After(old(View()), Call.DequeueHead)
      ensures entries == if old(entries) == [] then [] else old(entries)[1..]
      ensures data == if old(entries) == [] then None else Some(old(entries)[0].data)
      ensures handed == old(handed) + (if data.Some? then [data.value] else []) && ledger == old(ledger)
      ensures size == if data.Some? then old(size) - 1 else 0
      ensures handed + Data(entries) == old(handed) + old(Data(entries))
    {
      data := None;
      if head != null {
        var entry := head;
        ChainedRest(head, tail, entries);
        assert |entries| > 2 ==> entries[1].next == entries[2];
        assert |entries| == 2 ==> entries[1].next == null;
        head := entry.next;
        if head != null && head.next != null {
          head.next.prev := head;
        }
        if tail == entry {
          tail := head;
        }
        data := Some(entry.data);
        size := size - 1;
        assert Data(entries[1..]) == Data(entries)[1..];
        entries := entries[1..];
        handed := handed + [entry.data];
      }
    }

    method Count() returns (count: nat)
      requires Valid()
      ensures count == |View().items|
    {
      count := size;
    }

    /** Where the repair at lines 204-206 writes. */
    ghost function Neighbour(): set<Entry>
      reads this, tail, if tail == null then {} else {tail.prev}
    {
      if tail != null && tail.prev != null && tail.prev.prev != null then {tail.prev.prev} else {}
    }

    /** As written it removes the last item exactly when the list is empty, or holds one entry whose
        prev is null; in every other case what is left is not the rest of the list. */
    method DequeueTail() returns (data: Option<Item>)
      requires Valid()
      modifies this, Neighbour()`next
      ensures data == if old(entries) == [] then None else Some(old(entries)[|old(entries)| - 1].data)
      ensures size == if old(entries) == [] then 0 else old(size) - 1
      ensures handed == old(handed) + (if data.Some? then [data.value] else []) && ledger == old(ledger)
      ensures tail == if old(tail) == null then null else old(tail.prev)
      ensures Chained(head, tail, if old(entries) == [] then [] else old(entries)[..|old(entries)| - 1])
         <==> old(DequeuesTail())
      ensures old(DequeuesTail()) ==> Valid() && entries == [] && View() == After(old(View()), Call.DequeueTail)
    {
      data := None;
      if tail != null {
        var entry := tail;
        tail := entry.prev;
        if tail != null && tail.prev != null {
          tail.prev.next := tail;
        }
        if head == entry {
          head := tail;
        }
        data := Some(entry.data);
        size := size - 1;
        handed := handed + [entry.data];
        ghost var init := entries[..|entries| - 1];
        assert if init == [] then |entries| == 1 else init[|init| - 1].next != null;
        entries := init;
        assert init == [] ==> Data(init) == old(Data(entries))[..0];
      }
    }

    ghost predicate DequeuesTail()
      reads this, tail
    {
      size == 0 || (size == 1 && tail != null && tail.prev == null)
    }

    /** As written, an entry is freed before its data and its next are read; log records the order. */
    method Empty() returns (ghost log: seq<Access<Entry>>)
      requires Valid()
      modifies this
      ensures Valid() && View() == After(old(View()), Call.Empty)
      ensures head == null && tail == null && size == 0 && entries == [] && handed == old(handed)
      ensures ledger.incs == old(ledger.incs) && ledger.decs == old(ledger.decs) + multiset(old(Data(entries)))
      ensures Stale(log) <==> old(entries) != []
    {
      hide Ledger.Dec;
      var entry := head;
      ghost var all, i := Data(entries), 0;
      log := [];
      assert all[..i] == [];
      while entry != null
        invariant Chained(head, tail, entries) && entries == old(entries) && handed == old(handed)
        invariant 0 <= i <= |all| && entry == At(entries, i)
        invariant ledger == old(ledger).DecAll(all[..i])
        invariant Stale(log) <==> i > 0
        decreases |all| - i
      {
        DecNext(old(ledger), all, i);
        ghost var e: Entry := entry;
        FreedThenRead(log, e);
        log := log + [Freed(e)];
        ledger := ledger.Dec(entry.data);
        log := log + [Read(e)];
        entry := entry.next;
        log := log + [Read(e)];
        i := i + 1;
      }
      assert all[..i] == all;
      DecAllCounts(old(ledger), all);
      head, tail, size := null, null, 0;
      entries := [];
      assert Data(entries) == [];
    }

    /** lustre_list_free drains the list but decrements nothing: the references of the items that
        were still linked are never given back. */
    method Free()
      requires Valid()
      modifies this, entries`prev
      ensures Valid() && View() == ListSpec.View([], old(handed) + old(Data(entries)), old(ledger))
    {
      hide Chained, Data;
      ghost var all, i := entries, 0;
      var data := DequeueHead();
      if data.Some? { i := 1; }
      while data.Some?
        invariant Valid() && ledger == old(ledger) && 0 <= i <= |all| && entries == all[i..]
        invariant handed + Data(entries) == old(handed) + old(Data(entries))
        invariant data.None? ==> entries == []
        decreases data.Some?, |entries|
      {
        data := DequeueHead();
        if data.Some? { i := i + 1; }
      }
      assert Data(entries) == [];
    }
  }
  /** The shortest failure: with two items enqueued the tail is gone after one is dequeued there. */
  method TailIsLost(x: Item, y: Item) returns (list: List, data: Option<Item>)
    ensures data == Some(y) && list.size == 1 && list.tail == null
  {
    list := new List();
    var first := list.EnqueueTail(x, true);
    var second := list.EnqueueTail(y, true);
    assert list.entries[1].data == Data(list.entries)[1] == y;
    data := list.DequeueTail();
  }
}
