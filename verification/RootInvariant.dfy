/** The invariant of the root vnode protocol. */
module RootInvariant {
  import opened Options
  import opened RootVnode

  ghost predicate HasLock(pc: Pc) {
    || pc.Deciding? || pc.Installing? || pc.Referencing? || pc.Finishing? || pc.Leaving?
    || pc.Detaching? || pc.Dropping? || pc.Clearing? || pc.Unlocking?
  }

  /** Between setting root_attaching and clearing it. */
  ghost predicate Attaches(pc: Pc) {
    pc.Creating? || pc.Created? || pc.Installing? || pc.Referencing? || pc.Finishing?
  }

  /** The vnode on which the call holds an I/O reference. */
  ghost function Held(pc: Pc): Option<Vn> {
    match pc
    case Created(v) => Some(v)
    case Installing(v) => Some(v)
    case Referencing(v) => Some(v)
    case Finishing(v) => Some(v)
    case Validated(v) => Some(v)
    case Leaving(v) => Some(v)
    case Returned(v) => Some(v)
    case _ => None
  }

  /** The vnode that the call reclaims. */
  ghost function Reclaimed(pc: Pc): Option<Vn> {
    match pc
    case Reclaiming(v) => Some(v)
    case Detaching(v) => Some(v)
    case Dropping(v) => Some(v)
    case Clearing(v) => Some(v)
    case Unlocking(v) => Some(v)
    case Detached(v) => Some(v)
    case _ => None
  }

  /** What holds about one call. */
  ghost predicate CallInv(s: State, t: Tid) {
    var pc := s.At(t);
    && (s.lock == Some(t) <==> HasLock(pc))
    && (s.creator == Some(t) <==> Attaches(pc))
    && (pc.Asleep? ==> s.slot.waiting)
    && match pc
       case Creating => s.slot.root == None
       case Created(v) => s.slot.root == None && !s.Node(v).installed
       case Installing(v) => s.slot.root == None && !s.Node(v).installed
       case Referencing(v) => s.slot.root == Some(v) && s.Node(v).fsRefs == 0
       case Finishing(v) => s.slot.root == Some(v) && s.Node(v).fsRefs == 1
       case Validating(v, vid) =>
         vid <= s.Node(v).vid && (vid == s.Node(v).vid && s.Node(v).life != Free ==> s.Node(v).installed)
       case Validated(v) => s.Node(v).installed
       case Leaving(v) => s.Node(v).installed
       case Returned(v) => s.Node(v).installed
       case Reclaiming(v) => s.slot.root == Some(v) && s.Node(v).fsRefs == 1
       case Detaching(v) => s.slot.root == Some(v) && s.Node(v).fsRefs == 1
       case Dropping(v) => s.slot.root == Some(v) && s.Node(v).fsRefs == 1
       case Clearing(v) => s.slot.root == Some(v) && s.Node(v).fsRefs == 0
       case Unlocking(v) => s.slot.root != Some(v)
       case Detached(v) => s.slot.root != Some(v)
       case _ => true
  }

  /** Who holds on to a vnode. */
  ghost predicate Refs(s: State, v: Vn) {
    var n := s.Node(v);
    && n.io == |n.holders|
    && (forall t: Tid :: t in n.holders <==> Held(s.At(t)) == Some(v))
    && (forall t: Tid :: n.reclaimer == Some(t) <==> Reclaimed(s.At(t)) == Some(v))
    && (n.life == Dying <==> n.reclaimer.Some?)
    && (n.life != Live ==> n.holders == {})
  }

  /** How a vnode relates to the root. */
  ghost predicate Rooted(s: State, v: Vn) {
    var n := s.Node(v);
    && (n.life == Free ==> !n.installed)
    && (n.life != Free && !n.installed ==> n.life == Live && s.creator.Some? && Held(s.At(s.creator.value)) == Some(v))
    && (n.life == Live && n.installed ==> s.slot.root == Some(v))
    && (s.slot.root == Some(v) ==> n.life != Free && n.installed)
    && (s.slot.root != Some(v) ==> n.fsRefs == 0)
    && (s.slot.root == Some(v) ==> n.fsRefs == 1 || (n.fsRefs == 0 && SettlesRefs(s, v)))
  }

  ghost predicate NodeInv(s: State, v: Vn) { Refs(s, v) && Rooted(s, v) }

  /** The soft reference of the root is being added or removed. */
  ghost predicate SettlesRefs(s: State, v: Vn) {
    s.lock.Some? && (s.At(s.lock.value) == Referencing(v) || s.At(s.lock.value) == Clearing(v))
  }

  ghost predicate Inv(s: State) {
    && !s.halted
    && (s.slot.attaching <==> s.creator.Some?)
    && (s.slot.waiting ==> s.slot.attaching)
    && (forall t: Tid :: CallInv(s, t))
    && (forall v: Vn :: NodeInv(s, v))
  }

  lemma {:induction false} CallOf(s: State, t: Tid)
    requires Inv(s)
    ensures CallInv(s, t)
  {
  }

  lemma {:induction false} NodeOf(s: State, v: Vn)
    requires Inv(s)
    ensures NodeInv(s, v)
  {
  }

  lemma {:induction false} RootOf(s: State)
    requires Inv(s)
    ensures s.slot.root.Some? ==> NodeInv(s, s.slot.root.value)
  {
  }

  lemma {:induction false} CreatorOf(s: State)
    requires Inv(s)
    ensures s.creator.Some? ==> CallInv(s, s.creator.value)
  {
  }

  lemma {:induction false} GlobalsOf(s: State)
    requires Inv(s)
    ensures !s.halted && (s.slot.attaching <==> s.creator.Some?) && (s.slot.waiting ==> s.slot.attaching)
  {
  }

  lemma {:induction false} HeldLives(s: State, t: Tid)
    requires Inv(s) && Held(s.At(t)).Some?
    ensures s.Node(Held(s.At(t)).value).life == Live && t in s.Node(Held(s.At(t)).value).holders
    ensures s.Node(Held(s.At(t)).value).io > 0
  {
    var n := s.Node(Held(s.At(t)).value);
    NodeOf(s, Held(s.At(t)).value);
    assert t in n.holders && |n.holders - {t}| == |n.holders| - 1;
  }

  lemma {:induction false} StartInv()
    ensures Inv(Start())
  {
  }

  lemma {:induction false} DecideCalls(s: State, t: Tid, u: Tid)
    requires Inv(s) && Enabled(s, Decide(t))
    ensures CallInv(After(s, Decide(t)), u)
  {
    hide Inv;
    GlobalsOf(s);
    CallOf(s, t);
    RootOf(s);
    CallOf(s, u);
  }

  lemma {:induction false} DecideRooted(s: State, t: Tid, v: Vn)
    requires Inv(s) && Enabled(s, Decide(t))
    ensures Rooted(After(s, Decide(t)), v)
  {
    hide Inv, Refs;
    GlobalsOf(s);
    CallOf(s, t);
    RootOf(s);
    NodeOf(s, v);
  }

  lemma {:induction false} CreateCalls(s: State, t: Tid, v: Vn, u: Tid)
    requires Inv(s) && Enabled(s, Create(t, v))
    ensures CallInv(After(s, Create(t, v)), u)
  {
    hide Inv, Refs;
    GlobalsOf(s);
    CallOf(s, t);
    NodeOf(s, v);
    CallOf(s, u);
  }

  lemma {:induction false} CreateRefs(s: State, t: Tid, v: Vn, w: Vn)
    requires Inv(s) && Enabled(s, Create(t, v))
    ensures Refs(After(s, Create(t, v)), w)
  {
    hide Inv, Refs, Rooted, CallInv;
    var s' := After(s, Create(t, v));
    NodeOf(s, w);
    if w != v {
      SameNodeRefs(s, s', t, w);
    } else {
      CreatedRefs(s, s', t, w);
    }
  }

  lemma {:induction false} CreateRooted(s: State, t: Tid, v: Vn, w: Vn)
    requires Inv(s) && Enabled(s, Create(t, v))
    ensures Rooted(After(s, Create(t, v)), w)
  {
    hide Inv, Refs;
    GlobalsOf(s);
    CallOf(s, t);
    NodeOf(s, v);
    NodeOf(s, w);
  }

  lemma {:induction false} InstallCalls(s: State, t: Tid, u: Tid)
    requires Inv(s) && Enabled(s, Install(t))
    ensures CallInv(After(s, Install(t)), u)
  {
    hide Inv;
    GlobalsOf(s);
    CallOf(s, t);
    NodeOf(s, s.At(t).vn);
    CallOf(s, u);
  }

  lemma {:induction false} InstallRooted(s: State, t: Tid, v: Vn)
    requires Inv(s) && Enabled(s, Install(t))
    ensures Rooted(After(s, Install(t)), v)
  {
    hide Inv;
    GlobalsOf(s);
    CallOf(s, t);
    NodeOf(s, s.At(t).vn);
    NodeOf(s, v);
  }

  lemma {:induction false} AddRefCalls(s: State, t: Tid, u: Tid)
    requires Inv(s) && Enabled(s, AddRef(t))
    ensures CallInv(After(s, AddRef(t)), u)
  {
    hide Inv, Refs;
    GlobalsOf(s);
    CallOf(s, t);
    NodeOf(s, s.At(t).vn);
    CallOf(s, u);
  }

  lemma {:induction false} AddRefRooted(s: State, t: Tid, v: Vn)
    requires Inv(s) && Enabled(s, AddRef(t))
    ensures Rooted(After(s, AddRef(t)), v)
  {
    hide Inv, Refs;
    GlobalsOf(s);
    CallOf(s, t);
    NodeOf(s, s.At(t).vn);
    NodeOf(s, v);
  }

  lemma {:induction false} FinishCalls(s: State, t: Tid, u: Tid)
    requires Inv(s) && Enabled(s, Finish(t))
    ensures CallInv(After(s, Finish(t)), u)
  {
    hide Inv, Refs;
    GlobalsOf(s);
    CallOf(s, t);
    NodeOf(s, s.At(t).vn);
    CallOf(s, u);
  }

  lemma {:induction false} FinishRooted(s: State, t: Tid, v: Vn)
    requires Inv(s) && Enabled(s, Finish(t))
    ensures Rooted(After(s, Finish(t)), v)
  {
    hide Inv, Refs;
    GlobalsOf(s);
    CallOf(s, t);
    NodeOf(s, s.At(t).vn);
    NodeOf(s, v);
  }

  ghost predicate SameFace(n: Vnode, n': Vnode) {
    n'.vid == n.vid && n'.life == n.life && n'.fsRefs == n.fsRefs && n'.installed == n.installed
  }

  lemma {:induction false} ValidateRefs(s: State, t: Tid, v: Vn)
    requires Inv(s) && Enabled(s, Validate(t))
    ensures Refs(After(s, Validate(t)), v)
  {
    hide Inv, Refs, Rooted, CallInv;
    var s' := After(s, Validate(t));
    NodeOf(s, v);
    if v != s.At(t).vn {
      SameNodeRefs(s, s', t, v);
    } else if s'.At(t).Validated? {
      TakenRefs(s, s', t, v);
    } else {
      SameNodeRefs(s, s', t, v);
    }
  }

  ghost predicate SameHolders(n: Vnode, n': Vnode) {
    n'.io == n.io && n'.holders == n.holders && n'.reclaimer == n.reclaimer && n'.life == n.life
  }

  /** Only the call t moved, and what it holds and reclaims of v did not change. */
  lemma {:induction false} SameNodeRefs(s: State, s': State, t: Tid, v: Vn)
    requires Refs(s, v) && SameHolders(s.Node(v), s'.Node(v))
    requires forall u: Tid :: u != t ==> s'.At(u) == s.At(u)
    requires (Held(s'.At(t)) == Some(v)) == (Held(s.At(t)) == Some(v))
    requires (Reclaimed(s'.At(t)) == Some(v)) == (Reclaimed(s.At(t)) == Some(v))
    ensures Refs(s', v)
  {
  }

  lemma {:induction false} SameHoldsRefs(s: State, s': State, v: Vn)
    requires Refs(s, v) && SameHolders(s.Node(v), s'.Node(v))
    requires forall u: Tid :: Held(s'.At(u)) == Held(s.At(u)) && Reclaimed(s'.At(u)) == Reclaimed(s.At(u))
    ensures Refs(s', v)
  {
  }

  /** Call t created v. */
  lemma {:induction false} CreatedRefs(s: State, s': State, t: Tid, v: Vn)
    requires Refs(s, v) && s.Node(v).life == Free
    requires s'.Node(v).io == 1 && s'.Node(v).holders == {t} && s'.Node(v).reclaimer == None && s'.Node(v).life == Live
    requires forall u: Tid :: u != t ==> s'.At(u) == s.At(u)
    requires Held(s'.At(t)) == Some(v) && Reclaimed(s'.At(t)) == None
    ensures Refs(s', v)
  {
  }

  /** Call t reclaims v. */
  lemma {:induction false} ReclaimedRefs(s: State, s': State, t: Tid, v: Vn)
    requires Refs(s, v) && s.Node(v).io == 0 && s.Node(v).life == Live
    requires s'.Node(v) == s.Node(v).(life := Dying, reclaimer := Some(t))
    requires forall u: Tid :: u != t ==> s'.At(u) == s.At(u)
    requires Held(s'.At(t)) == None && Held(s.At(t)) == None && Reclaimed(s'.At(t)) == Some(v)
    ensures Refs(s', v)
  {
  }

  /** Call t is done with reclaiming v. */
  lemma {:induction false} ExpiredRefs(s: State, s': State, t: Tid, v: Vn)
    requires Refs(s, v) && Reclaimed(s.At(t)) == Some(v)
    requires s'.Node(v) == s.Node(v).(life := Free, installed := false, reclaimer := None)
    requires forall u: Tid :: u != t ==> s'.At(u) == s.At(u)
    requires Held(s'.At(t)) == None && Held(s.At(t)) == None && Reclaimed(s'.At(t)) == None
    ensures Refs(s', v)
  {
  }

  /** Call t took a reference to v. */
  lemma {:induction false} TakenRefs(s: State, s': State, t: Tid, v: Vn)
    requires Refs(s, v) && s.Node(v).life == Live && s'.Node(v) == Taken(s.Node(v), t)
    requires forall u: Tid :: u != t ==> s'.At(u) == s.At(u)
    requires Held(s.At(t)) == None && Held(s'.At(t)) == Some(v)
    requires Reclaimed(s'.At(t)) == None && Reclaimed(s.At(t)) == None
    ensures Refs(s', v)
  {
  }

  /** Call t gave up its reference to v. */
  lemma {:induction false} DroppedRefs(s: State, s': State, t: Tid, v: Vn)
    requires Refs(s, v) && s.Node(v).life == Live && s.Node(v).io > 0
    requires s'.Node(v) == s.Node(v).(io := s.Node(v).io - 1, holders := s.Node(v).holders - {t})
    requires forall u: Tid :: u != t ==> s'.At(u) == s.At(u)
    requires Held(s.At(t)) == Some(v) && Held(s'.At(t)) == None
    requires Reclaimed(s'.At(t)) == None && Reclaimed(s.At(t)) == None
    ensures Refs(s', v)
  {
    assert t in s.Node(v).holders && |s.Node(v).holders - {t}| == |s.Node(v).holders| - 1;
  }

  lemma {:induction false} ReleaseRefs(s: State, t: Tid, v: Vn)
    requires Inv(s) && Enabled(s, Release(t))
    ensures Refs(After(s, Release(t)), v)
  {
    hide Inv, Refs, Rooted, CallInv;
    var s' := After(s, Release(t));
    NodeOf(s, v);
    HeldLives(s, t);
    if v != s.At(t).vn {
      SameNodeRefs(s, s', t, v);
    } else {
      DroppedRefs(s, s', t, v);
    }
  }

  lemma {:induction false} ShareRefs(s: State, t: Tid, u: Tid, v: Vn)
    requires Inv(s) && Enabled(s, Share(t, u))
    ensures Refs(After(s, Share(t, u)), v)
  {
    hide Inv, Refs, Rooted, CallInv;
    var s' := After(s, Share(t, u));
    NodeOf(s, v);
    HeldLives(s, t);
    if v != s.At(t).vn {
      SameNodeRefs(s, s', u, v);
    } else {
      TakenRefs(s, s', u, v);
    }
  }

  lemma {:induction false} ReclaimCalls(s: State, t: Tid, v: Vn, u: Tid)
    requires Inv(s) && Enabled(s, Reclaim(t, v))
    ensures CallInv(After(s, Reclaim(t, v)), u)
  {
    hide Inv;
    GlobalsOf(s);
    CallOf(s, t);
    NodeOf(s, v);
    CallOf(s, u);
  }

  lemma {:induction false} ReclaimRefs(s: State, t: Tid, v: Vn, w: Vn)
    requires Inv(s) && Enabled(s, Reclaim(t, v))
    ensures Refs(After(s, Reclaim(t, v)), w)
  {
    hide Inv, Refs, Rooted, CallInv;
    var s' := After(s, Reclaim(t, v));
    NodeOf(s, w);
    if w != v {
      SameNodeRefs(s, s', t, w);
    } else {
      ReclaimedRefs(s, s', t, w);
    }
  }

  lemma {:induction false} ReclaimRooted(s: State, t: Tid, v: Vn, w: Vn)
    requires Inv(s) && Enabled(s, Reclaim(t, v))
    ensures Rooted(After(s, Reclaim(t, v)), w)
  {
    hide Inv;
    GlobalsOf(s);
    CallOf(s, t);
    NodeOf(s, v);
    NodeOf(s, w);
  }

  lemma {:induction false} DropRefCalls(s: State, t: Tid, u: Tid)
    requires Inv(s) && Enabled(s, DropRef(t))
    ensures CallInv(After(s, DropRef(t)), u)
  {
    hide Inv;
    GlobalsOf(s);
    CallOf(s, t);
    NodeOf(s, s.At(t).vn);
    CallOf(s, u);
  }

  lemma {:induction false} DropRefRooted(s: State, t: Tid, v: Vn)
    requires Inv(s) && Enabled(s, DropRef(t))
    ensures Rooted(After(s, DropRef(t)), v)
  {
    hide Inv, Refs;
    GlobalsOf(s);
    CallOf(s, t);
    NodeOf(s, s.At(t).vn);
    NodeOf(s, v);
  }

  lemma {:induction false} ClearCalls(s: State, t: Tid, u: Tid)
    requires Inv(s) && Enabled(s, Clear(t))
    ensures CallInv(After(s, Clear(t)), u)
  {
    hide Inv, Refs;
    GlobalsOf(s);
    CallOf(s, t);
    NodeOf(s, s.At(t).vn);
    CallOf(s, u);
  }

  lemma {:induction false} ClearRooted(s: State, t: Tid, v: Vn)
    requires Inv(s) && Enabled(s, Clear(t))
    ensures Rooted(After(s, Clear(t)), v)
  {
    hide Inv;
    GlobalsOf(s);
    CallOf(s, t);
    NodeOf(s, s.At(t).vn);
    NodeOf(s, v);
  }

  lemma {:induction false} ExpireCalls(s: State, t: Tid, u: Tid)
    requires Inv(s) && Enabled(s, Expire(t))
    ensures CallInv(After(s, Expire(t)), u)
  {
    hide Inv;
    GlobalsOf(s);
    CallOf(s, t);
    NodeOf(s, s.At(t).vn);
    CallOf(s, u);
  }

  lemma {:induction false} ExpireRefs(s: State, t: Tid, v: Vn)
    requires Inv(s) && Enabled(s, Expire(t))
    ensures Refs(After(s, Expire(t)), v)
  {
    hide Inv, Refs, Rooted, CallInv;
    var s' := After(s, Expire(t));
    NodeOf(s, v);
    if v != s.At(t).vn {
      SameNodeRefs(s, s', t, v);
    } else {
      ExpiredRefs(s, s', t, v);
    }
  }

  lemma {:induction false} ExpireRooted(s: State, t: Tid, v: Vn)
    requires Inv(s) && Enabled(s, Expire(t))
    ensures Rooted(After(s, Expire(t)), v)
  {
    hide Inv, Refs;
    GlobalsOf(s);
    CallOf(s, t);
    NodeOf(s, s.At(t).vn);
    NodeOf(s, v);
  }

  /** The steps that move no reference and reclaim nothing. */
  ghost predicate MovesNoReference(step: Step) {
    !step.Create? && !step.Validate? && !step.Release? && !step.Share? && !step.Reclaim? && !step.Expire?
  }

  lemma {:induction false} HoldsAlike(s: State, step: Step, u: Tid)
    requires Enabled(s, step) && MovesNoReference(step)
    requires step.Finish? ==> s.slot.root == Some(s.At(step.t).vn)
    ensures Held(After(s, step).At(u)) == Held(s.At(u)) && Reclaimed(After(s, step).At(u)) == Reclaimed(s.At(u))
  {
  }

  lemma {:induction false} HeldAlike(s: State, step: Step, v: Vn)
    requires Enabled(s, step) && MovesNoReference(step)
    ensures SameHolders(s.Node(v), After(s, step).Node(v))
  {
  }

  lemma {:induction false} FinishesRoot(s: State, t: Tid)
    requires Inv(s) && Enabled(s, Finish(t))
    ensures s.At(t).Finishing? && s.slot.root == Some(s.At(t).vn)
  {
    CallOf(s, t);
  }

  lemma {:induction false} RefsKept(s: State, step: Step, v: Vn)
    requires Inv(s) && Enabled(s, step)
    ensures Refs(After(s, step), v)
  {
    hide Inv, Refs, Rooted, CallInv, After, Enabled, Held, Reclaimed, SameHolders;
    match step
    case Create(t, w) => CreateRefs(s, t, w, v);
    case Validate(t) => ValidateRefs(s, t, v);
    case Release(t) => ReleaseRefs(s, t, v);
    case Share(t, u) => ShareRefs(s, t, u, v);
    case Reclaim(t, w) => ReclaimRefs(s, t, w, v);
    case Expire(t) => ExpireRefs(s, t, v);
    case _ =>
      if step.Finish? { FinishesRoot(s, step.t); }
      NodeOf(s, v);
      forall u: Tid { HoldsAlike(s, step, u); }
      HeldAlike(s, step, v);
      SameHoldsRefs(s, After(s, step), v);
  }

  /** The steps that leave the root, its soft reference and the one who creates it alone. */
  ghost predicate LeavesRoot(step: Step) {
    || step.Call? || step.Lock? || step.Spurious? || step.Leave? || step.Detach? || step.Unlock?
    || step.Validate? || step.Release? || step.Share?
  }

  lemma {:induction false} FaceStays(s: State, step: Step, v: Vn)
    requires Enabled(s, step) && LeavesRoot(step)
    ensures SameFace(s.Node(v), After(s, step).Node(v))
    ensures After(s, step).slot.root == s.slot.root && After(s, step).creator == s.creator
  {
  }

  /** The call that a step moves. */
  ghost function Mover(step: Step): Tid { if step.Share? then step.u else step.t }

  /** The call u did not move, and of the vnodes only I/O references did. */
  lemma {:induction false} UnmovedCall(s: State, s': State, u: Tid)
    requires CallInv(s, u) && s'.At(u) == s.At(u)
    requires (s'.lock == Some(u) <==> s.lock == Some(u)) && s'.creator == s.creator && s'.slot == s.slot
    requires forall v: Vn :: SameFace(s.Node(v), s'.Node(v))
    ensures CallInv(s', u)
  {
  }

  lemma {:induction false} OthersStay(s: State, step: Step, u: Tid)
    requires Enabled(s, step) && LeavesRoot(step) && u != Mover(step)
    requires !step.Call? && !step.Share? ==> (s.lock == Some(step.t) <==> HasLock(s.At(step.t)))
    ensures After(s, step).At(u) == s.At(u) && After(s, step).slot == s.slot
    ensures After(s, step).lock == Some(u) <==> s.lock == Some(u)
  {
  }

  lemma {:induction false} ArrivalKept(s: State, step: Step)
    requires Inv(s) && Enabled(s, step) && (step.Call? || step.Lock? || step.Spurious?)
    ensures CallInv(After(s, step), Mover(step))
  {
    hide Inv, Refs, Rooted, SettlesRefs;
    GlobalsOf(s);
    CallOf(s, step.t);
  }

  lemma {:induction false} DepartureKept(s: State, step: Step)
    requires Inv(s) && Enabled(s, step) && (step.Leave? || step.Detach? || step.Unlock?)
    ensures CallInv(After(s, step), Mover(step))
  {
    hide Inv, Refs, Rooted, SettlesRefs;
    GlobalsOf(s);
    CallOf(s, step.t);
    CreatorOf(s);
  }

  lemma {:induction false} ReferenceKept(s: State, step: Step)
    requires Inv(s) && Enabled(s, step) && (step.Validate? || step.Release? || step.Share?)
    ensures CallInv(After(s, step), Mover(step))
  {
    hide Inv, Refs, SettlesRefs;
    CallOf(s, step.t);
    CallOf(s, Mover(step));
    NodeOf(s, s.At(step.t).vn);
  }

  lemma {:induction false} QuietCall(s: State, step: Step, u: Tid)
    requires Inv(s) && Enabled(s, step) && LeavesRoot(step)
    ensures CallInv(After(s, step), u)
  {
    hide Inv, CallInv, After, SameFace;
    if u == Mover(step) {
      if step.Call? || step.Lock? || step.Spurious? {
        ArrivalKept(s, step);
      } else if step.Leave? || step.Detach? || step.Unlock? {
        DepartureKept(s, step);
      } else {
        ReferenceKept(s, step);
      }
    } else {
      CallOf(s, u);
      LockOf(s, step.t);
      forall v: Vn { FaceStays(s, step, v); }
      FaceStays(s, step, 0);
      OthersStay(s, step, u);
      UnmovedCall(s, After(s, step), u);
    }
  }

  lemma {:induction false} LockOf(s: State, t: Tid)
    requires Inv(s)
    ensures s.lock == Some(t) <==> HasLock(s.At(t))
  {
    CallOf(s, t);
  }

  lemma {:induction false} CallKept(s: State, step: Step, u: Tid)
    requires Inv(s) && Enabled(s, step)
    ensures CallInv(After(s, step), u)
  {
    hide Inv, CallInv, After, Enabled;
    match step
    case Decide(t) => DecideCalls(s, t, u);
    case Create(t, v) => CreateCalls(s, t, v, u);
    case Install(t) => InstallCalls(s, t, u);
    case AddRef(t) => AddRefCalls(s, t, u);
    case Finish(t) => FinishCalls(s, t, u);
    case Reclaim(t, v) => ReclaimCalls(s, t, v, u);
    case DropRef(t) => DropRefCalls(s, t, u);
    case Clear(t) => ClearCalls(s, t, u);
    case Expire(t) => ExpireCalls(s, t, u);
    case _ => QuietCall(s, step, u);
  }

  lemma {:induction false} CreatorStays(s: State, step: Step, c: Tid)
    requires Enabled(s, step) && LeavesRoot(step) && Attaches(s.At(c))
    ensures Held(After(s, step).At(c)) == Held(s.At(c))
  {
  }

  lemma {:induction false} SettlerStays(s: State, step: Step, v: Vn)
    requires Enabled(s, step) && LeavesRoot(step) && SettlesRefs(s, v)
    requires !step.Call? && !step.Reclaim? ==> (s.lock == Some(step.t) <==> HasLock(s.At(step.t)))
    ensures SettlesRefs(After(s, step), v)
  {
  }

  lemma {:induction false} RootedStays(s: State, s': State, v: Vn)
    requires Rooted(s, v) && SameFace(s.Node(v), s'.Node(v))
    requires s'.slot.root == s.slot.root && s'.creator == s.creator
    requires s.creator.Some? ==> Held(s'.At(s.creator.value)) == Held(s.At(s.creator.value))
    requires SettlesRefs(s, v) ==> SettlesRefs(s', v)
    ensures Rooted(s', v)
  {
  }

  lemma {:induction false} QuietRooted(s: State, step: Step, v: Vn)
    requires Inv(s) && Enabled(s, step) && LeavesRoot(step)
    ensures Rooted(After(s, step), v)
  {
    hide Inv, Refs, Rooted, After, Enabled, SettlesRefs, SameFace, Held;
    NodeOf(s, v);
    FaceStays(s, step, v);
    CreatorOf(s);
    if s.creator.Some? {
      CreatorStays(s, step, s.creator.value);
    }
    if !step.Call? {
      CallOf(s, step.t);
    }
    if SettlesRefs(s, v) {
      SettlerStays(s, step, v);
    }
    RootedStays(s, After(s, step), v);
  }

  lemma {:induction false} RootedKept(s: State, step: Step, v: Vn)
    requires Inv(s) && Enabled(s, step)
    ensures Rooted(After(s, step), v)
  {
    hide Inv, Rooted, After, Enabled;
    match step
    case Decide(t) => DecideRooted(s, t, v);
    case Create(t, w) => CreateRooted(s, t, w, v);
    case Install(t) => InstallRooted(s, t, v);
    case AddRef(t) => AddRefRooted(s, t, v);
    case Finish(t) => FinishRooted(s, t, v);
    case Reclaim(t, w) => ReclaimRooted(s, t, w, v);
    case DropRef(t) => DropRefRooted(s, t, v);
    case Clear(t) => ClearRooted(s, t, v);
    case Expire(t) => ExpireRooted(s, t, v);
    case _ => QuietRooted(s, step, v);
  }

  /** No check fails, and root_attaching and root_waiting keep their meaning. */
  lemma {:induction false} GlobalsKept(s: State, step: Step)
    requires Inv(s) && Enabled(s, step)
    ensures var s' := After(s, step);
            !s'.halted && (s'.slot.attaching <==> s'.creator.Some?) && (s'.slot.waiting ==> s'.slot.attaching)
  {
    hide Inv;
    GlobalsOf(s);
    CreatorOf(s);
    if !step.Call? && !step.Reclaim? {
      CallOf(s, step.t);
    }
  }

  /** Every step keeps the invariant; in particular no check fails in it. */
  lemma {:induction false} StepKeeps(s: State, step: Step)
    requires Inv(s) && Enabled(s, step)
    ensures Inv(After(s, step))
  {
    hide CallInv, Refs, Rooted, After, Enabled;
    GlobalsKept(s, step);
    forall u: Tid { CallKept(s, step, u); }
    forall v: Vn ensures NodeInv(After(s, step), v) { RefsKept(s, step, v); RootedKept(s, step, v); }
  }
}
