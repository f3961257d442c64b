/** lustre_vnop_read_dir (vnop.c:276-389): listing a directory of two entries, resumed at the offset
    that the previous call saved. */
module ReadDirs {
  datatype Name = Self | Parent   // "." and ".."

  const DIRECTORY: seq<Name> := [Self, Parent]

  const EINVAL := 22
  const ENOBUFS := 55

  /** What the kernel's uiomove does when asked: it moves the whole entry, or fails after some bytes. */
  datatype Copy = Done | Fault(error: int, moved: nat)

  ghost predicate Plausible(copies: seq<Copy>, size: nat) {
    |copies| == |DIRECTORY| && forall c :: c in copies && c.Fault? ==> c.error != 0 && c.moved <= size
  }

  /** Halted: the LUSTRE_BUG_ON at line 335 fired. */
  datatype Reply = Halted | Reply(error: int, eof: bool, count: int)

  /** The caller's buffer.  delivered is for the proof: the entries that arrived whole. */
  class Uio {
    var offset: int
    var resid: nat
    ghost var delivered: seq<Name>

    /** lustre_extension_uio_move (extensions.c:25-35). */
    method Move(name: Name, size: nat, copy: Copy) returns (error: int)
      requires copy.Fault? ==> copy.error != 0 && copy.moved <= size
      modifies this
      ensures error == if size > old(resid) then ENOBUFS else if copy.Done? then 0 else copy.error
      ensures delivered == if error == 0 then old(delivered) + [name] else old(delivered)
      ensures size > old(resid) ==> unchanged(this)
      ensures size <= old(resid) ==>
                var moved := if copy.Done? then size else copy.moved;
                resid == old(resid) - moved && offset == old(offset) + moved
    {
      if size > resid {
        error := ENOBUFS;
      } else {
        var moved := if copy.Done? then size else copy.moved;
        resid := resid - moved;
        offset := offset + moved;
        error := if copy.Done? then 0 else copy.error;
        delivered := if copy.Done? then delivered + [name] else delivered;
      }
    }
  }

  /* ---------- the specification: entry after entry until one cannot be delivered ---------- */

  datatype Progress = Progress(index: int, error: int)

  ghost function Served(k: int, resid: nat, size: nat, copies: seq<Copy>): Progress
    decreases |copies|
  {
    if !(0 <= k < |DIRECTORY|) then Progress(k, 0)
    else if size > resid then Progress(k, ENOBUFS)
    else if copies == [] then Progress(k, 0)
    else
      match copies[0]
      case Done => Served(k + 1, resid - size, size, copies[1..])
      case Fault(error, _) => Progress(k, error)
  }

  /** The entries from index a up to index b. */
  ghost function Names(a: int, b: int): seq<Name> {
    if 0 <= a <= b <= |DIRECTORY| then DIRECTORY[a..b] else []
  }

  /** One call: the flags it rejects (line 309), the room in its buffer, and what uiomove does. */
  datatype Request = Request(rejected: bool, resid: nat, copies: seq<Copy>)

  /** The index after the call. */
  ghost function IndexAfter(k: int, r: Request, size: nat): int {
    if r.rejected then k else Served(k, r.resid, size, r.copies).index
  }

  /** What the call reports.  Running out of room is no error. */
  ghost function ReplyTo(k: int, r: Request, size: nat): Reply {
    if r.rejected then Reply(EINVAL, false, 0)
    else
      var p := Served(k, r.resid, size, r.copies);
      Reply(if p.error == ENOBUFS then 0 else p.error, p.index >= |DIRECTORY|, p.index - k)
  }

  method ReadDir(uio: Uio, extended: bool, reqSeekOff: bool, size: nat, copies: seq<Copy>) returns (reply: Reply)
    requires Plausible(copies, size)
    modifies uio
    ensures reply.Halted? <==> !extended && !reqSeekOff && old(uio.offset) % 7 != 0
    ensures reply.Halted? || extended || reqSeekOff ==> unchanged(uio)
    ensures !reply.Halted? && old(uio.offset) % 7 == 0 ==>
              var k, r := old(uio.offset) / 7, Request(extended || reqSeekOff, old(uio.resid), copies);
              && reply == ReplyTo(k, r, size)
              && uio.offset == 7 * IndexAfter(k, r, size)
              && uio.delivered == old(uio.delivered) + Names(k, IndexAfter(k, r, size))
    ensures !reply.Halted? && old(uio.offset) % 7 != 0 ==> reply == Reply(EINVAL, false, 0)
    ensures extended || reqSeekOff ==> reply == Reply(EINVAL, false, 0)
    // At or past the end, or before the start, there is nothing to deliver.
    ensures !reply.Halted? && !extended && !reqSeekOff && !(0 <= old(uio.offset) < 14) ==>
              reply == Reply(0, old(uio.offset) >= 14, 0) && unchanged(uio)
    // Else the entries from there on, as many as fit and are copied; only a failure of uiomove is an
    // error, and not if it fails with ENOBUFS.
    ensures !reply.Halted? && !extended && !reqSeekOff && 0 <= old(uio.offset) < 14 ==>
              var k, n := old(uio.offset) / 7, reply.count;
              && 0 <= n <= 2 - k && uio.offset == 7 * (k + n) && (reply.eof <==> k + n == 2)
              && uio.delivered == old(uio.delivered) + DIRECTORY[k..k + n]
              && size * n <= old(uio.resid) && (forall i :: 0 <= i < n ==> copies[i].Done?)
              && if k + n == 2 || size * (n + 1) > old(uio.resid) then
                   reply.error == 0 && uio.resid == old(uio.resid) - size * n
                 else
                   && copies[n].Fault? && uio.resid == old(uio.resid) - size * n - copies[n].moved
                   && reply.error == if copies[n].error == ENOBUFS then 0 else copies[n].error
  {
    var eof, numdirent := false, 0;
    var error := 0;
    if extended || reqSeekOff {
      error := EINVAL;
    } else {
      if uio.offset % 7 != 0 { return Halted; }
      var index := uio.offset / 7;
      ghost var k, room := index, uio.resid;
      if index == 0 {
        error := uio.Move(Self, size, copies[0]);
        if error == 0 {
          numdirent := numdirent + 1;
          index := index + 1;
        }
      }
      assert copies[numdirent..][0] == copies[numdirent] && k + numdirent == index;
      ghost var rest := if error == 0 then Served(index, uio.resid, size, copies[numdirent..]) else Progress(index,
          error);
      assert Served(k, room, size, copies) == rest;
      if error == 0 && index == 1 {
        error := uio.Move(Parent, size, copies[numdirent]);
        if error == 0 {
          assert Served(2, uio.resid, size, copies[numdirent..][1..]) == Progress(2, 0);
          numdirent := numdirent + 1;
          index := index + 1;
        }
        assert rest == Progress(index, error);
      }
      assert numdirent == 0 ==> size * numdirent == 0 && size * (numdirent + 1) == size;
      assert numdirent == 1 ==> size * numdirent == size && size * (numdirent + 1) == size + size;
      assert numdirent == 2 ==> size * numdirent == size + size;
      if error == ENOBUFS { error := 0; }
      uio.offset := index * 7;
      eof := index > 1;
    }
    reply := Reply(error, eof, numdirent);
  }

  /* ---------- what the specification promises ---------- */

  /** A call moves on within the directory, never back, by the leading entries that fit and are
      copied; it stops before the end exactly when the buffer is too small for what is left or
      uiomove fails, and its error says which. */
  lemma {:induction false} ServedFacts(k: int, resid: nat, size: nat, copies: seq<Copy>)
    requires 0 <= k <= |DIRECTORY| <= k + |copies|
    ensures var p := Served(k, resid, size, copies);
            var n := p.index - k;
            && 0 <= n <= |DIRECTORY| - k
            && size * n <= resid && (forall i :: 0 <= i < n ==> copies[i].Done?)
            && (if n == |DIRECTORY| - k then p.error == 0
                else if size * (n + 1) > resid then p.error == ENOBUFS
                else copies[n].Fault? && p.error == copies[n].error)
            && (p.index == |DIRECTORY| <==>
                  resid >= size * (|DIRECTORY| - k) && forall i :: 0 <= i < |DIRECTORY| - k ==> copies[i].Done?)
    decreases |copies|
  {
    if k < |DIRECTORY| && size <= resid {
      match copies[0] {
        case Done =>
          ServedFacts(k + 1, resid - size, size, copies[1..]);
          assert size * (|DIRECTORY| - k) == size * (|DIRECTORY| - (k + 1)) + size;
          assert forall i :: 0 <= i < |DIRECTORY| - (k + 1) ==> copies[1..][i] == copies[i + 1];
          assert forall i :: 0 < i < |DIRECTORY| - k ==> copies[i] == copies[1..][i - 1];
        case Fault(_, _) =>
      }
    } else if k < |DIRECTORY| {
      assert size * (|DIRECTORY| - k) >= size;
    }
  }

  lemma {:induction false} StaysInside(k: nat, r: Request, size: nat)
    requires k <= |DIRECTORY| == |r.copies|
    ensures k <= IndexAfter(k, r, size) <= |DIRECTORY|
  {
    ServedFacts(k, r.resid, size, r.copies);
  }

  /** A call that is accepted counts the entries that it moved on by, and reports an error exactly when
      it came to a uiomove that failed, other than with ENOBUFS: that error.  For the next entry there
      was room then. */
  lemma {:induction false} OnlyFaultsAreErrors(k: nat, r: Request, size: nat)
    requires k <= |DIRECTORY| && Plausible(r.copies, size) && !r.rejected
    ensures var reply, n := ReplyTo(k, r, size), IndexAfter(k, r, size) - k;
            && reply.count == n && 0 <= n <= |DIRECTORY| - k
            && if k + n < |DIRECTORY| && size * (n + 1) <= r.resid then
                 r.copies[n].Fault? && reply.error == (if r.copies[n].error == ENOBUFS then 0 else r.copies[n].error)
               else
                 reply.error == 0
  {
    ServedFacts(k, r.resid, size, r.copies);
  }

  datatype Listing = Listing(index: int, names: seq<Name>)

  /** Call after call on one open directory that starts at index k. */
  ghost function Session(k: int, requests: seq<Request>, size: nat): Listing {
    if requests == [] then Listing(k, [])
    else
      var before, last := Session(k, requests[..|requests| - 1], size), requests[|requests| - 1];
      var index := IndexAfter(before.index, last, size);
      Listing(index, before.names + Names(before.index, index))
  }

  ghost predicate AllPlausible(requests: seq<Request>, size: nat) {
    forall r :: r in requests ==> Plausible(r.copies, size)
  }

  lemma {:induction false} PlausibleParts(requests: seq<Request>, size: nat)
    requires requests != [] && AllPlausible(requests, size)
    ensures AllPlausible(requests[..|requests| - 1], size)
    ensures |requests[|requests| - 1].copies| == |DIRECTORY|
  {
    assert forall r :: r in requests[..|requests| - 1] ==> r in requests;
    assert Plausible(requests[|requests| - 1].copies, size);
  }

  lemma {:induction false} Joined(a: int, b: int, c: int)
    requires 0 <= a <= b <= c <= |DIRECTORY|
    ensures DIRECTORY[a..b] + Names(b, c) == DIRECTORY[a..c]
  {
  }

  /** Over any session that starts at an entry, what was delivered are the entries from there up to
      the saved index, each once and in order, whatever the buffers and the failures. */
  lemma {:induction false} SessionIsPrefix(k: nat, requests: seq<Request>, size: nat)
    requires k <= |DIRECTORY| && AllPlausible(requests, size)
    ensures var l := Session(k, requests, size);
            k <= l.index <= |DIRECTORY| && l.names == DIRECTORY[k..l.index]
  {
    hide Served, AllPlausible, IndexAfter, Names;
    if requests != [] {
      var init, last := requests[..|requests| - 1], requests[|requests| - 1];
      PlausibleParts(requests, size);
      SessionIsPrefix(k, init, size);
      var before := Session(k, init, size);
      StaysInside(before.index, last, size);
      Joined(k, before.index, IndexAfter(before.index, last, size));
    }
  }

  /** In a session from the start, each accepted call reports the end exactly when both entries have
      been delivered by then, and it counts the entries that it delivered. */
  lemma {:induction false} EndIsReported(requests: seq<Request>, last: Request, size: nat)
    requires AllPlausible(requests + [last], size) && !last.rejected
    ensures var before, after := Session(0, requests, size), Session(0, requests + [last], size);
            && var reply := ReplyTo(before.index, last, size);
            && (reply.eof <==> after.names == DIRECTORY)
            && reply.count == |after.names| - |before.names|
            && after.index == |after.names|
  {
    assert (requests + [last])[..|requests|] == requests;
    assert forall r :: r in requests ==> r in requests + [last];
    SessionIsPrefix(0, requests, size);
    SessionIsPrefix(0, requests + [last], size);
  }
}
