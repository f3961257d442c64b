/** The root vnode protocol of vfsop.c and vnop.c: any number of calls that get the root, creating
    it if necessary, against reclaims by VFS, all under root_lock.

    A call is known by a number; each call holds at most one I/O reference, so a thread that keeps
    several stands for several calls.  The steps are the stretches of code between two points at
    which another thread can come in. */
module RootVnode {
  import opened Options

  type Tid = nat
  type Vn = nat

  /** The fields that root_lock protects. */
  datatype Slot = Slot(attaching: bool, waiting: bool, root: Option<Vn>)

  /** Where a call stands; the numbers are lines of vfsop.c and, from Reclaiming on, of vnop.c. */
  datatype Pc =
    | Idle
    | Entering                          // 74: wants the lock
    | Deciding                          // 76-93: top of the loop, with the lock
    | Asleep                            // 90: in msleep, without the lock
    | Woken                             // 90: msleep wants the lock back
    | Creating                          // 104-121: calling vnode_create, without the lock
    | Created(vn: Vn)                   // 126: wants the lock
    | Installing(vn: Vn)                // 133-134
    | Referencing(vn: Vn)               // 139
    | Finishing(vn: Vn)                 // 143-154
    | Validating(vn: Vn, vid: nat)      // 168-170: calling vnode_getwithvid, without the lock
    | Validated(vn: Vn)                 // 192: has the I/O reference, wants the lock
    | Missed                            // 192: EAGAIN, wants the lock
    | Leaving(vn: Vn)                   // 197-200, with the lock
    | Returned(vn: Vn)                  // 206: returned 0 with this vnode
    | Reclaiming(vn: Vn)                // 53: wants the lock
    | Detaching(vn: Vn)                 // 62-71, with the lock
    | Dropping(vn: Vn)                  // 75
    | Clearing(vn: Vn)                  // 77
    | Unlocking(vn: Vn)                 // 80
    | Detached(vn: Vn)                  // lustre_vnop_reclaim returns

  datatype Life = Free | Live | Dying

  /** A vnode as VFS keeps it.  A new incarnation at the same address has a new vid.  The last three
      fields are for the proof: was this incarnation installed as the root, who holds its I/O
      references, and who reclaims it. */
  datatype Vnode = Vnode(vid: nat, life: Life, io: nat, fsRefs: int,
                         installed: bool, holders: set<Tid>, reclaimer: Option<Tid>)

  /** creator is for the proof; halted: some LUSTRE_BUG_ON fired. */
  datatype State = State(lock: Option<Tid>, slot: Slot, vnodes: map<Vn, Vnode>, pcs: map<Tid, Pc>,
                         creator: Option<Tid>, halted: bool)
  {
    function At(t: Tid): Pc { if t in pcs then pcs[t] else Idle }

    function Node(v: Vn): Vnode { if v in vnodes then vnodes[v] else Vnode(0, Free, 0, 0, false, {}, None) }

    function Go(t: Tid, pc: Pc): State { this.(pcs := pcs[t := pc]) }

    function Put(v: Vn, n: Vnode): State { this.(vnodes := vnodes[v := n]) }
  }

  function Start(): State { State(None, Slot(false, false, None), map[], map[], None, false) }

  /* ---------- what is done to the protected fields ---------- */

  datatype Decision = Sleep | MakeRoot | Try(vn: Vn)

  /** Lines 83-168. */
  function Decided(s: Slot): (Slot, Decision) {
    if s.attaching then (s.(waiting := true), Sleep)
    else if s.root.None? then (s.(attaching := true), MakeRoot)
    else (s, Try(s.root.value))
  }

  /** Lines 144-148; the second part says whether wakeup is called. */
  function Finished(s: Slot): (Slot, bool) {
    (s.(attaching := false, waiting := false), s.waiting)
  }

  /* ---------- the steps ---------- */

  datatype Step =
    | Call(t: Tid)
    | Lock(t: Tid)
    | Decide(t: Tid)
    | Spurious(t: Tid)
    | Create(t: Tid, v: Vn)
    | Install(t: Tid)
    | AddRef(t: Tid)
    | Finish(t: Tid)
    | Validate(t: Tid)
    | Leave(t: Tid)
    | Release(t: Tid)
    | Share(t: Tid, u: Tid)
    | Reclaim(t: Tid, v: Vn)
    | Detach(t: Tid)
    | DropRef(t: Tid)
    | Clear(t: Tid)
    | Unlock(t: Tid)
    | Expire(t: Tid)

  predicate WantsLock(pc: Pc) {
    pc.Entering? || pc.Woken? || pc.Created? || pc.Validated? || pc.Missed? || pc.Reclaiming?
  }

  function WithLock(pc: Pc): Pc
    requires WantsLock(pc)
  {
    match pc
    case Created(v) => Installing(v)
    case Validated(v) => Leaving(v)
    case Reclaiming(v) => Detaching(v)
    case _ => Deciding
  }

  /** What lets a step happen.  The environment's rules are here: vnode_create finds an address
      without a living vnode and succeeds, VFS reclaims a vnode once and only while its I/O count is
      zero, and only the holder of a reference hands out another. */
  predicate Enabled(s: State, step: Step) {
    && !s.halted
    && match step
       case Call(t) => s.At(t) == Idle
       case Lock(t) => WantsLock(s.At(t)) && s.lock == None
       case Decide(t) => s.At(t).Deciding?
       case Spurious(t) => s.At(t).Asleep?
       case Create(t, v) => s.At(t).Creating? && s.Node(v).life == Free
       case Install(t) => s.At(t).Installing?
       case AddRef(t) => s.At(t).Referencing?
       case Finish(t) => s.At(t).Finishing?
       case Validate(t) => s.At(t).Validating?
       case Leave(t) => s.At(t).Leaving?
       case Release(t) => s.At(t).Returned?
       case Share(t, u) => s.At(t).Returned? && s.At(u) == Idle
       case Reclaim(t, v) => s.At(t) == Idle && s.Node(v).life == Live && s.Node(v).io == 0
       case Detach(t) => s.At(t).Detaching?
       case DropRef(t) => s.At(t).Dropping?
       case Clear(t) => s.At(t).Clearing?
       case Unlock(t) => s.At(t).Unlocking?
       case Expire(t) => s.At(t).Detached?
  }

  /** wakeup: everyone asleep wants the lock back. */
  function Awake(pcs: map<Tid, Pc>): map<Tid, Pc> {
    map t | t in pcs :: if pcs[t].Asleep? then Woken else pcs[t]
  }

  /** vnode_get and the like: one more I/O reference, taken for call t. */
  function Taken(n: Vnode, t: Tid): Vnode { n.(io := n.io + 1, holders := n.holders + {t}) }

  function Halt(s: State): State { s.(halted := true) }

  function After(s: State, step: Step): State
    requires Enabled(s, step)
  {
    match step
    case Call(t) => s.Go(t, Entering)
    case Lock(t) => s.(lock := Some(t)).Go(t, WithLock(s.At(t)))
    case Decide(t) => AfterDecide(s, t)
    case Spurious(t) => s.Go(t, Woken)
    case Create(t, v) => s.Put(v, Vnode(s.Node(v).vid + 1, Live, 1, 0, false, {t}, None)).Go(t, Created(v))
    case Install(t) =>
      var v := s.At(t).vn;
      if s.slot.root.Some? then Halt(s)                                                     // line 133
      else s.(slot := s.slot.(root := Some(v))).Put(v, s.Node(v).(installed := true)).Go(t, Referencing(v))
    case AddRef(t) =>
      var v := s.At(t).vn;
      s.Put(v, s.Node(v).(fsRefs := s.Node(v).fsRefs + 1)).Go(t, Finishing(v))
    case Finish(t) => AfterFinish(s, t)
    case Validate(t) =>
      var v, n := s.At(t).vn, s.Node(s.At(t).vn);
      if n.life == Live && n.vid == s.At(t).vid then s.Put(v, Taken(n, t)).Go(t, Validated(v)) else s.Go(t, Missed)
    case Leave(t) => s.(lock := None).Go(t, Returned(s.At(t).vn))
    case Release(t) =>
      var v, n := s.At(t).vn, s.Node(s.At(t).vn);
      s.Put(v, n.(io := if n.io > 0 then n.io - 1 else 0, holders := n.holders - {t})).Go(t, Idle)
    case Share(t, u) => s.Put(s.At(t).vn, Taken(s.Node(s.At(t).vn), u)).Go(u, s.At(t))
    case Reclaim(t, v) => s.Put(v, s.Node(v).(life := Dying, reclaimer := Some(t))).Go(t, Reclaiming(v))
    case Detach(t) =>
      if s.slot.attaching || s.slot.root != Some(s.At(t).vn) then Halt(s)                   // lines 62, 63, 71
      else s.Go(t, Dropping(s.At(t).vn))
    case DropRef(t) =>
      if s.slot.root.None? then Halt(s)
      else
        var v := s.slot.root.value;
        s.Put(v, s.Node(v).(fsRefs := s.Node(v).fsRefs - 1)).Go(t, Clearing(s.At(t).vn))
    case Clear(t) => s.(slot := s.slot.(root := None)).Go(t, Unlocking(s.At(t).vn))
    case Unlock(t) => s.(lock := None).Go(t, Detached(s.At(t).vn))
    case Expire(t) =>
      var v := s.At(t).vn;
      s.Put(v, s.Node(v).(life := Free, installed := false, reclaimer := None)).Go(t, Idle)
  }

  /** Lines 83-168: sleep, create the root, or try the one there is.  The lock is dropped in every case. */
  function AfterDecide(s: State, t: Tid): State {
    var (slot, decision) := Decided(s.slot);
    var u := s.(slot := slot, lock := None);
    match decision
    case Sleep => u.Go(t, Asleep)
    case MakeRoot => u.(creator := Some(t)).Go(t, Creating)
    case Try(v) => u.Go(t, Validating(v, s.Node(v).vid))
  }

  /** Lines 143-154. */
  function AfterFinish(s: State, t: Tid): State {
    // Line 143.  A null root would be returned as if it were one, and line 437 would halt on it.
    if !s.slot.attaching || s.slot.root.None? then Halt(s)
    else
      var (slot, wake) := Finished(s.slot);
      s.(slot := slot, creator := None, pcs := if wake then Awake(s.pcs) else s.pcs).Go(t, Leaving(s.slot.root.value))
  }
}
