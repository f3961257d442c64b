/** The list of list.c with its prev links repaired: a new entry is linked both ways, and dequeuing
    at one end clears the new end's outward link (in place of lines 174-176 and 204-206). */
module RepairedLists {
  import opened Accesses
  import opened Options
  import opened References
  import opened ListSpec
  import opened Lists

  /** From tail on, prev visits the entries of s backwards. */
  ghost predicate Backed(s: seq<Entry>)
    reads s`prev
  {
    forall i {:trigger s[i].prev} :: 0 <= i < |s| ==> s[i].prev == At(s, i - 1)
  }

  lemma {:induction false} BackedOnto(entry: Entry, s: seq<Entry>)
    requires entry.prev == null && forall i {:trigger s[i].prev} :: 0 <= i < |s| ==>
               s[i].prev == if i == 0 then entry else At(s, i - 1)
    ensures Backed([entry] + s)
  {
    var t := [entry] + s;
    forall i | 0 <= i < |t|
      ensures t[i].prev == At(t, i - 1)
    {
      if i > 0 { assert t[i] == s[i - 1] && At(t, i - 1) == if i == 1 then entry else s[i - 2]; }
    }
  }

  lemma {:induction false} BackedUpTo(s: seq<Entry>, entry: Entry)
    requires Backed(s) && entry.prev == At(s, |s| - 1)
    ensures Backed(s + [entry])
  {
    var t := s + [entry];
    forall i | 0 <= i < |t|
      ensures t[i].prev == At(t, i - 1)
    {
      if i < |s| { assert t[i] == s[i]; }
    }
  }

  lemma {:induction false} BackedRest(s: seq<Entry>)
    requires s != [] && forall i {:trigger s[i].prev} :: 0 <= i < |s| ==>
               s[i].prev == if i == 1 then null else At(s, i - 1)
    ensures Backed(s[1..])
  {
    var t := s[1..];
    forall i | 0 <= i < |t|
      ensures t[i].prev == At(t, i - 1)
    {
      assert t[i] == s[i + 1] && (i > 0 ==> t[i - 1] == s[i]);
    }
  }

  /** Without its last entry, whose predecessor's next is cleared, a list is a list. */
  lemma {:induction false} ChainedInit(head: Entry?, s: seq<Entry>)
    requires s != [] && Distinct(s) && head == (if |s| == 1 then null else s[0])
    requires forall i {:trigger s[i].next} :: 0 <= i < |s| - 1 ==>
               s[i].next == if i == |s| - 2 then null else At(s, i + 1)
    ensures Chained(head, At(s, |s| - 2), s[..|s| - 1])
  {
    var t := s[..|s| - 1];
    forall i | 0 <= i < |t|
      ensures t[i].next == At(t, i + 1)
    {
      assert t[i] == s[i];
    }
  }

  /** The first i entries are freed, and nothing was read after that. */
  ghost predicate FreedUpTo(log: seq<Access<Entry>>, s: seq<Entry>, i: nat)
    requires i <= |s|
  {
    && !Stale(log)
    && (forall k :: 0 <= k < i ==> Freed(s[k]) in log)
    && forall p :: 0 <= p < |log| && log[p].Freed? ==> exists k :: 0 <= k < i && s[k] == log[p].it
  }

  lemma {:induction false} FreedNext(log: seq<Access<Entry>>, s: seq<Entry>, i: nat)
    requires Distinct(s) && i < |s| && FreedUpTo(log, s, i)
    ensures FreedUpTo(log + [Read(s[i]), Read(s[i]), Freed(s[i])], s, i + 1)
  {
    var longer := log + [Read(s[i]), Read(s[i]), Freed(s[i])];
    assert longer[|longer| - 1] == Freed(s[i]);
    forall k | 0 <= k < i
      ensures Freed(s[k]) in longer
    {
      assert Freed(s[k]) in log;
    }
    forall a, b | 0 <= a < b < |longer| && longer[a].Freed?
      ensures longer[b] != Read(longer[a].it)
    {
      assert longer[a] == log[a];
    }
  }

  class DoublyLinkedList {
    var head: Entry?
    var tail: Entry?
    var size: nat
    ghost var entries: seq<Entry>
    ghost var handed: seq<Item>
    ghost var ledger: Ledger

    ghost predicate Valid()
      reads this, entries
    {
      Chained(head, tail, entries) && Backed(entries) && size == |entries|
    }

    ghost function View(): View
      reads this
    {
      ListSpec.View(Data(entries), handed, ledger)
    }

    constructor ()
      ensures Valid() && View() == ListSpec.View([], [], Ledger(multiset{}, multiset{}))
    {
      head, tail, size := null, null, 0;
      entries, handed, ledger := [], [], Ledger(multiset{}, multiset{});
    }

    method EnqueueHead(data: Item, canAlloc: bool) returns (result: KernReturn)
      requires Valid()
      modifies this, entries`prev
      ensures Valid() && (result.Success? <==> canAlloc)
      ensures View() == if canAlloc then After(old(View()), Call.EnqueueHead(data)) else old(View())
      ensures canAlloc ==> Data(entries) == [data] + old(Data(entries)) && size == old(size) + 1
      ensures canAlloc ==> ledger == Ledger(old(ledger.incs) + multiset{data}, old(ledger.decs))
      ensures canAlloc ==> handed == old(handed)
      ensures !canAlloc ==> unchanged(this)
    {
      hide Data;
      var entry;
      entry, ledger := NewEntry(data, canAlloc, ledger);
      if entry == null { return Failure; }
      if head != null {
        entry.next := head;
        head.prev := entry;
      }
      head := entry;
      if tail == null {
        tail := head;
      }
      size := size + 1;
      ChainedOnto(entry, entries);
      BackedOnto(entry, entries);
      DataOnto(entry, entries);
      entries := [entry] + entries;
      result := Success;
    }

    method EnqueueTail(data: Item, canAlloc: bool) returns (result: KernReturn)
      requires Valid()
      modifies this, entries`next
      ensures Valid() && (result.Success? <==> canAlloc)
      ensures View() == if canAlloc then After(old(View()), Call.EnqueueTail(data)) else old(View())
      ensures canAlloc ==> Data(entries) == old(Data(entries)) + [data] && size == old(size) + 1
      ensures canAlloc ==> ledger == Ledger(old(ledger.incs) + multiset{data}, old(ledger.decs))
      ensures canAlloc ==> handed == old(handed)
      ensures !canAlloc ==> unchanged(this)
    {
      hide Data;
      var entry;
      entry, ledger := NewEntry(data, canAlloc, ledger);
      if entry == null { return Failure; }
      if tail != null {
        tail.next := entry;
        entry.prev := tail;
      }
      tail := entry;
      if head == null {
        head := tail;
      }
      size := size + 1;
      ChainedUpTo(entries, entry);
      BackedUpTo(entries, entry);
      DataOnto(entry, entries);
      entries := entries + [entry];
      result := Success;
    }

    method DequeueHead() returns (data: Option<Item>)
      requires Valid()
      modifies this, entries`prev
      ensures Valid() && View() == After(old(View()), Call.DequeueHead)
      ensures data == if old(entries) == [] then None else Some(old(entries)[0].data)
      ensures if data.None? then unchanged(this)
              else entries == old(entries)[1..] && Data(entries) == old(Data(entries))[1..] && size == old(size) - 1
      ensures handed == old(handed) + (if data.Some? then [data.value] else []) && ledger == old(ledger)
    {
      data := None;
      if head != null {
        var entry := head;
        ChainedRest(head, tail, entries);
        head := entry.next;
        if head != null {
          head.prev := null;
        }
        if tail == entry {
          tail := head;
        }
        data := Some(entry.data);
        size := size - 1;
        BackedRest(entries);
        assert Data(entries[1..]) == Data(entries)[1..];
        entries := entries[1..];
        handed := handed + [entry.data];
      }
    }

    method DequeueTail() returns (data: Option<Item>)
      requires Valid()
      modifies this, entries`next
      ensures Valid() && View() == After(old(View()), Call.DequeueTail)
      ensures data == if old(entries) == [] then None else Some(old(entries)[|old(entries)| - 1].data)
      ensures var n := |old(entries)|;
              if data.None? then unchanged(this)
              else entries == old(entries)[..n - 1] && Data(entries) == old(Data(entries))[..n - 1] && size == n - 1
      ensures handed == old(handed) + (if data.Some? then [data.value] else []) && ledger == old(ledger)
    {
      data := None;
      if tail != null {
        var entry := tail;
        tail := entry.prev;
        if tail != null {
          tail.next := null;
        }
        if head == entry {
          head := tail;
        }
        data := Some(entry.data);
        size := size - 1;
        ghost var init := entries[..|entries| - 1];
        ChainedInit(head, entries);
        assert Data(init) == Data(entries)[..|init|];
        entries := init;
        handed := handed + [entry.data];
      }
    }

    /** With lines 231-233 in the order that reads an entry before it is freed. */
    method Empty() returns (ghost log: seq<Access<Entry>>)
      requires Valid()
      modifies this
      ensures Valid() && View() == After(old(View()), Call.Empty)
      ensures head == null && tail == null && size == 0 && entries == [] && handed == old(handed)
      ensures ledger.incs == old(ledger.incs) && ledger.decs == old(ledger.decs) + multiset(old(Data(entries)))
      ensures !Stale(log) && forall e :: e in old(entries) ==> Freed(e) in log
    {
      hide Ledger.Dec;
      var entry := head;
      ghost var all, i := Data(entries), 0;
      log := [];
      assert all[..i] == [];
      while entry != null
        invariant Chained(head, tail, entries) && entries == old(entries) && handed == old(handed)
        invariant 0 <= i <= |all| && entry == At(entries, i)
        invariant ledger == old(ledger).DecAll(all[..i])
        invariant FreedUpTo(log, entries, i)
        decreases |all| - i
      {
        DecNext(old(ledger), all, i);
        FreedNext(log, entries, i);
        ledger := ledger.Dec(entry.data);
        var next := entry.next;
        log := log + [Read(entries[i]), Read(entries[i]), Freed(entries[i])];
        entry := next;
        i := i + 1;
      }
      assert all[..i] == all;
      DecAllCounts(old(ledger), all);
      head, tail, size := null, null, 0;
      entries := [];
      assert Data(entries) == [];
    }
  }
}
