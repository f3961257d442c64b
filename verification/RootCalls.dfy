/** The code of the root vnode protocol, one call of it among any others.  Every statement that
    touches the locked fields is proved to be the step of the state machine that it claims to be, so
    what holds in every run of the machine holds of the code. */
module RootCalls {
  import opened Options
  import opened RootVnode
  import opened RootInvariant
  import opened RootSafety

  const EAGAIN := 35
  const ENOENT := 2

  /** What happens while this call is not running: steps of other calls, and the address at which
      VFS would create a vnode next. */
  datatype Turn = Turn(steps: seq<Step>, address: Vn)

  /** Pending: the turns ran out before the call was done. */
  datatype Outcome = Got(vn: Vn) | Pending

  /** What a call does: a step of its own, or a turn left to the others. */
  datatype Event = Acted(step: Step) | Waited(turn: Turn, t: Tid)

  predicate ByOthers(step: Step, t: Tid) {
    match step
    case Spurious(_) => true
    case Create(u, _) => u != t
    case Share(u, _) => u != t
    case Reclaim(u, _) => u != t
    case _ => step.t != t
  }

  /** The others take their steps; a step that cannot happen, or that is t's own, is passed over. */
  function Others(s: State, steps: seq<Step>, t: Tid): State
    decreases |steps|
  {
    if steps == [] then s
    else if Enabled(s, steps[0]) && ByOthers(steps[0], t) then Others(After(s, steps[0]), steps[1..], t)
    else Others(s, steps[1..], t)
  }

  /** The steps of the getter and of detach, and the turns that t leaves to the others. */
  ghost predicate ByCall(e: Event, t: Tid) {
    match e
    case Acted(step) => step.t == t && (step.Call? || OwnStep(step)) && !step.Expire?
    case Waited(_, u) => u == t
  }

  ghost function Happened(s: State, e: Event): State {
    match e
    case Acted(step) => if Enabled(s, step) then After(s, step) else s
    case Waited(turn, t) => Others(s, turn.steps, t)
  }

  ghost function Replay(s: State, events: seq<Event>): State {
    if events == [] then s else Happened(Replay(s, events[..|events| - 1]), events[|events| - 1])
  }

  /** The turns that were taken. */
  ghost function Turns(events: seq<Event>): seq<Turn> {
    if events == [] then []
    else Turns(events[..|events| - 1]) + (if events[|events| - 1].Waited? then [events[|events| - 1].turn] else [])
  }

  ghost predicate Quiet(turns: seq<Turn>) { forall turn :: turn in turns ==> turn.steps == [] }

  /** In the first n turns nothing happens. */
  ghost predicate Calm(turns: seq<Turn>, n: nat) {
    n <= |turns| && forall i :: 0 <= i < n ==> turns[i].steps == []
  }

  lemma {:induction false} NoSteps(s: State, t: Tid)
    ensures Others(s, [], t) == s
  {
  }

  lemma {:induction false} OneMore(s: State, events: seq<Event>, e: Event)
    ensures Replay(s, events + [e]) == Happened(Replay(s, events), e)
    ensures Turns(events + [e]) == Turns(events) + (if e.Waited? then [e.turn] else [])
  {
    assert (events + [e])[..|events|] == events;
  }

  lemma {:induction false} Resumed(s: State, a: seq<Event>, b: seq<Event>)
    ensures Replay(s, a + b) == Replay(Replay(s, a), b) && Turns(a + b) == Turns(a) + Turns(b)
  {
    hide Happened;
    if b == [] {
      assert a + b == a;
    } else {
      assert (a + b)[..|a + b| - 1] == a + b[..|b| - 1];
      Resumed(s, a, b[..|b| - 1]);
    }
  }

  /** What was done between two points of a call accounts for all that changed between them. */
  lemma {:induction false} Accounted(a: seq<Event>, b: seq<Event>, turns: seq<Turn>, rest: seq<Turn>)
    requires a <= b && Turns(a) + turns == Turns(b) + rest
    ensures Replay(Start(), b) == Replay(Replay(Start(), a), b[|a|..]) && turns == Turns(b[|a|..]) + rest
  {
    hide Replay, Turns;
    var added := b[|a|..];
    assert b == a + added;
    Resumed(Start(), a, added);
    assert (Turns(a) + turns)[|Turns(a)|..] == turns;
    assert (Turns(a) + (Turns(added) + rest))[|Turns(a)|..] == Turns(added) + rest;
    assert Turns(a) + Turns(added) + rest == Turns(a) + (Turns(added) + rest);
  }

  /** Other calls can only wake this one. */
  ghost predicate Kept(s: State, s': State, t: Tid) {
    s'.At(t) == s.At(t) || (s.At(t).Asleep? && s'.At(t).Woken?)
  }

  lemma {:induction false} OwnStepSpares(s: State, step: Step, t: Tid, u: Tid)
    requires Enabled(s, step) && ByCall(Acted(step), t) && u != t
    ensures Kept(s, After(s, step), u)
  {
  }

  /** By itself a call does nothing to another but wake it. */
  lemma {:induction false} QuietReplay(s: State, events: seq<Event>, t: Tid, u: Tid)
    requires (forall e :: e in events ==> ByCall(e, t)) && Quiet(Turns(events)) && u != t
    ensures Kept(s, Replay(s, events), u)
  {
    hide After, Enabled, ByCall;
    if events != [] {
      var init, e := events[..|events| - 1], events[|events| - 1];
      assert e in events && forall d :: d in init ==> d in events;
      assert forall turn :: turn in Turns(init) ==> turn in Turns(events);
      QuietReplay(s, init, t, u);
      match e {
        case Acted(step) =>
          if Enabled(Replay(s, init), step) { OwnStepSpares(Replay(s, init), step, t, u); }
        case Waited(turn, w) =>
          assert turn in Turns(events);
          NoSteps(Replay(s, init), w);
      }
    }
  }

  /** What a call leaves as it was, if nothing happens in the turns that it takes. */
  ghost predicate Spares(s: State, s': State, t: Tid) {
    forall u: Tid :: u != t ==> Kept(s, s', u) && Held(s'.At(u)) == Held(s.At(u))
  }

  lemma {:induction false} SparesOthers(s: State, past: seq<Event>, events: seq<Event>,
                                        turns: seq<Turn>, rest: seq<Turn>, t: Tid)
    requires past <= events && Turns(past) + turns == Turns(events) + rest && Quiet(turns)
    requires forall i :: |past| <= i < |events| ==> ByCall(events[i], t)
    requires s == Replay(Start(), past)
    ensures Spares(s, Replay(Start(), events), t)
  {
    hide Replay, Turns, ByCall, Kept;
    var added := events[|past|..];
    Accounted(past, events, turns, rest);
    assert forall turn :: turn in Turns(added) ==> turn in turns;
    forall e | e in added
      ensures ByCall(e, t)
    {
      var i :| 0 <= i < |added| && added[i] == e;
      assert events[|past| + i] == e;
    }
    forall u: Tid | u != t
      ensures Kept(s, Replay(s, added), u) && Held(Replay(s, added).At(u)) == Held(s.At(u))
    {
      QuietReplay(s, added, t, u);
      KeptHolds(s, Replay(s, added), u);
    }
  }

  lemma {:induction false} KeptHolds(s: State, s': State, u: Tid)
    requires Kept(s, s', u)
    ensures Held(s'.At(u)) == Held(s.At(u))
  {
  }

  lemma {:induction false} OneNewHolder(s: State, s': State, t: Tid, v: Vn)
    requires Refs(s, v) && Refs(s', v) && Spares(s, s', t) && Held(s.At(t)).None? && Held(s'.At(t)) == Some(v)
    ensures s'.Node(v).holders == s.Node(v).holders + {t} && s'.Node(v).io == s.Node(v).io + 1
  {
    hide Held, Kept, State.At, State.Node;
    assert t !in s.Node(v).holders;
    assert s'.Node(v).holders == s.Node(v).holders + {t};
  }

  /** Then the one new reference on the root is the caller's. */
  lemma {:induction false} OneNewReference(trace: seq<Step>, s: State, longer: seq<Step>, s': State, t: Tid, v: Vn)
    requires Reaches(trace, s) && Reaches(longer, s') && s.At(t) == Idle && s'.At(t) == Returned(v) && Spares(s, s', t)
    ensures s'.Node(v).holders == s.Node(v).holders + {t} && s'.Node(v).io == s.Node(v).io + 1
  {
    hide Inv, Refs, Rooted, Spares, Reaches, Reach;
    ReachedInv(trace, s);
    ReachedInv(longer, s');
    NodeOf(s, v);
    NodeOf(s', v);
    OneNewHolder(s, s', t, v);
  }

  /** No other call is in progress. */
  ghost predicate Alone(s: State, t: Tid) { forall u: Tid :: u != t ==> s.At(u).Idle? || s.At(u).Returned? }

  lemma {:induction false} Undisturbed(trace: seq<Step>, s: State, t: Tid)
    requires Reaches(trace, s) && Alone(s, t) && (s.At(t) == Idle || s.At(t).Reclaiming?)
    ensures s.lock.None? && !s.slot.attaching
    ensures s.At(t) == Idle && s.slot.root.Some? ==> s.Node(s.slot.root.value).life.Live?
  {
    hide Inv;
    ReachedInv(trace, s);
    GlobalsOf(s);
    CreatorOf(s);
    RootOf(s);
    if s.lock.Some? { CallOf(s, s.lock.value); }
  }

  lemma {:induction false} OtherStepKeeps(s: State, step: Step, t: Tid)
    requires Enabled(s, step) && ByOthers(step, t) && s.At(t) != Idle
    ensures Kept(s, After(s, step), t)
  {
  }

  lemma {:induction false} ReachesOn(trace: seq<Step>, s: State, step: Step)
    requires Reaches(trace, s) && Enabled(s, step)
    ensures Reaches(trace + [step], After(s, step))
  {
    assert (trace + [step])[..|trace|] == trace;
  }

  ghost predicate KeepsVid(s: State, s': State, v: Vn) { s'.Node(v).vid == s.Node(v).vid }

  /** What others cannot change: the locked fields and the incarnation of the root while t has the
      lock, and the incarnation on which t holds a reference. */
  ghost predicate Pinned(s: State, s': State, t: Tid) {
    && (s.lock == Some(t) ==> s'.lock == s.lock && s'.slot == s.slot)
    && (s.lock == Some(t) && s.slot.root.Some? ==> KeepsVid(s, s', s.slot.root.value))
    && (Held(s.At(t)).Some? ==> KeepsVid(s, s', Held(s.At(t)).value))
  }

  /** While a call has the lock no other call changes the locked fields. */
  lemma {:induction false} SlotIsProtected(s: State, step: Step, t: Tid)
    requires Inv(s) && s.lock == Some(t) && Enabled(s, step) && ByOthers(step, t)
    ensures After(s, step).slot == s.slot && After(s, step).lock == s.lock
  {
    assert CallInv(s, t);
    assert !step.Spurious? && !step.Create? && !step.Share? && !step.Reclaim? ==> CallInv(s, step.t);
  }

  /** Only vnode_create starts an incarnation, and only where no vnode lives. */
  lemma {:induction false} VidStays(s: State, step: Step, v: Vn)
    requires Inv(s) && Enabled(s, step) && s.Node(v).life != Free
    ensures KeepsVid(s, After(s, step), v)
  {
  }

  lemma {:induction false} StepPins(s: State, step: Step, t: Tid)
    requires Inv(s) && Enabled(s, step) && ByOthers(step, t)
    ensures Pinned(s, After(s, step), t)
  {
    hide After, Enabled, Inv, ByOthers;
    if s.lock == Some(t) {
      SlotIsProtected(s, step, t);
      if s.slot.root.Some? {
        NodeOf(s, s.slot.root.value);
        VidStays(s, step, s.slot.root.value);
      }
    }
    if Held(s.At(t)).Some? {
      HeldLives(s, t);
      VidStays(s, step, Held(s.At(t)).value);
    }
  }

  lemma {:induction false} OthersReach(trace: seq<Step>, s: State, steps: seq<Step>, t: Tid) returns (longer: seq<Step>)
    requires Reaches(trace, s) && s.At(t) != Idle
    ensures Reaches(longer, Others(s, steps, t)) && trace <= longer
    ensures Kept(s, Others(s, steps, t), t) && Pinned(s, Others(s, steps, t), t)
    decreases |steps|
  {
    hide After, Enabled, Reaches, Reach, Inv, ByOthers;
    longer := trace;
    if steps != [] {
      if Enabled(s, steps[0]) && ByOthers(steps[0], t) {
        ReachesOn(trace, s, steps[0]);
        ReachedInv(trace, s);
        StepPins(s, steps[0], t);
        OtherStepKeeps(s, steps[0], t);
        longer := OthersReach(trace + [steps[0]], After(s, steps[0]), steps[1..], t);
      } else {
        longer := OthersReach(trace, s, steps[1..], t);
      }
    }
  }

  /** What holds where the call stands; the checks of the code follow. */
  lemma {:induction false} ChecksHold(trace: seq<Step>, s: State, t: Tid)
    requires Reaches(trace, s)
    ensures !s.halted && (HasLock(s.At(t)) ==> s.lock == Some(t))
    ensures s.At(t).Installing? ==> s.slot.root == None
    ensures s.At(t).Finishing? ==> s.slot.attaching && s.slot.root == Some(s.At(t).vn)
    ensures s.At(t).Detaching? ==> !s.slot.attaching && s.slot.root == Some(s.At(t).vn)
    ensures s.At(t).Dropping? ==> s.slot.root == Some(s.At(t).vn)
  {
    hide Inv;
    ReachedInv(trace, s);
    GlobalsOf(s);
    CallOf(s, t);
    CreatorOf(s);
  }

  /** What a caller gets: an I/O reference of its own on the living root. */
  ghost predicate Usable(s: State, t: Tid, v: Vn) {
    && s.Node(v).life == Live && s.Node(v).installed && s.slot.root == Some(v)
    && t in s.Node(v).holders && s.Node(v).io >= 1
  }

  /** A call about to leave the getter has a usable root, which has its one soft reference; with
      root_waiting clear no one sleeps. */
  lemma {:induction false} LeavesWithRoot(trace: seq<Step>, s: State, t: Tid, v: Vn)
    requires Reaches(trace, s) && s.At(t) == Leaving(v)
    ensures Usable(s, t, v) && s.Node(v).fsRefs == 1
    ensures !s.slot.waiting ==> forall u: Tid :: !s.At(u).Asleep?
  {
    ReachedInv(trace, s);
    HeldLives(s, t);
    assert CallInv(s, t) && NodeInv(s, v);
    forall u: Tid
      ensures s.At(u).Asleep? ==> s.slot.waiting
    {
      assert CallInv(s, u);
    }
  }

  lemma {:induction false} DetachesFromAll(trace: seq<Step>, s: State, t: Tid, v: Vn)
    requires Reaches(trace, s) && (s.At(t) == Unlocking(v) || s.At(t) == Detached(v))
    ensures s.Node(v).fsRefs == 0 && s.slot.root != Some(v)
  {
    ReachedInv(trace, s);
    assert CallInv(s, t) && NodeInv(s, v);
  }

  /** The volume: its locked fields, and the whole system of which they are part. */
  class Volume {
    var rootAttaching: bool
    var rootWaiting: bool
    var rootVnode: Option<Vn>
    var world: State
    var schedule: seq<Turn>
    ghost var trace: seq<Step>
    ghost var past: seq<Event>
    ghost const given: seq<Turn>

    /** The system came about by a run of the protocol, and by what its calls did here. */
    ghost predicate Runs()
      reads `world, `trace, `past, `schedule
    {
      && Reaches(trace, world)
      && world == Replay(Start(), past)
      && given == Turns(past) + schedule
    }

    /** The run goes on, and every step in it that is not t's own is in a turn taken from the schedule. */
    twostate predicate Continues(t: Tid)
      reads `trace, `past, `schedule
    {
      && old(trace) <= trace
      && old(past) <= past
      && (forall i :: |old(past)| <= i < |past| ==> ByCall(past[i], t))
      && |schedule| <= |old(schedule)|
    }

    ghost predicate Agrees()
      reads `world, `rootAttaching, `rootWaiting, `rootVnode
    {
      world.slot == Slot(rootAttaching, rootWaiting, rootVnode)
    }

    constructor (schedule: seq<Turn>)
      ensures Runs() && Agrees() && world == Start() && this.schedule == schedule
    {
      rootAttaching, rootWaiting, rootVnode := false, false, None;
      this.schedule, world, trace, past, given := schedule, Start(), [], [], schedule;
    }

    /** What t did and the turns that it took are all that happened, in their order. */
    twostate lemma AccountsFor(t: Tid)
      requires old(Runs()) && Runs() && Continues(t)
      ensures world == Replay(old(world), past[|old(past)|..]) && old(schedule) == Turns(past[|old(past)|..]) + schedule
      ensures Quiet(old(schedule)) ==> Spares(old(world), world, t)
    {
      hide Replay, Turns, Reaches, Quiet, Spares, ByCall;
      Accounted(old(past), past, old(schedule), schedule);
      if Quiet(old(schedule)) {
        SparesOthers(old(world), old(past), past, old(schedule), schedule, t);
      }
    }

    /** A step of this call. */
    method Act(step: Step)
      requires Runs() && Enabled(world, step)
      modifies `world, `trace, `past
      ensures Runs() && world == After(old(world), step) && trace == old(trace) + [step]
      ensures past == old(past) + [Acted(step)]
    {
      hide After, Enabled, Reach, Replay, Turns;
      OneMore(Start(), past, Acted(step));
      past := past + [Acted(step)];
      ReachesOn(trace, world, step);
      world := After(world, step);
      trace := trace + [step];
    }

    /** This call is not running for a while. */
    method TakeTurn(t: Tid) returns (address: Vn)
      requires Runs() && Agrees() && schedule != [] && world.At(t) != Idle
      modifies this
      ensures Runs() && Agrees() && Continues(t)
      ensures Kept(old(world), world, t) && Pinned(old(world), world, t)
      ensures schedule == old(schedule)[1..] && address == old(schedule)[0].address
      ensures old(schedule)[0].steps == [] ==> world == old(world)
    {
      hide After, Enabled, Reach, Others, Reaches, Pinned, Replay, Turns;
      ghost var event := Waited(schedule[0], t);
      OneMore(Start(), past, event);
      NoSteps(world, t);
      ghost var longer := OthersReach(trace, world, schedule[0].steps, t);
      world := Others(world, schedule[0].steps, t);
      trace := longer;
      rootAttaching, rootWaiting, rootVnode := world.slot.attaching, world.slot.waiting, world.slot.root;
      address := schedule[0].address;
      schedule := schedule[1..];
      past := past + [event];
      assert Turns(old(past)) + old(schedule) == Turns(past) + schedule;
    }

    /** Other calls may take steps between two steps of the call that has the lock, too. */
    method Interleave(t: Tid)
      requires Runs() && Agrees() && HasLock(world.At(t))
      modifies this
      ensures Runs() && Agrees() && Continues(t)
      ensures world.At(t) == old(world.At(t)) && world.lock == Some(t) && !world.halted && Pinned(old(world), world, t)
      ensures rootAttaching == old(rootAttaching) && rootWaiting == old(rootWaiting) && rootVnode == old(rootVnode)
      ensures schedule == if old(schedule) == [] then [] else old(schedule)[1..]
      ensures old(schedule) == [] || Calm(old(schedule), 1) ==> world == old(world)
    {
      hide Reach, Reaches, Replay, Turns;
      ChecksHold(trace, world, t);
      if schedule != [] {
        var _ := TakeTurn(t);
        ChecksHold(trace, world, t);
      }
    }

    /** lck_mtx_lock(root_lock). */
    method Lock(t: Tid) returns (locked: bool)
      requires Runs() && Agrees() && WantsLock(world.At(t))
      modifies this
      ensures Runs() && Agrees() && Continues(t)
      ensures locked ==> |schedule| < old(|schedule|) && world.lock == Some(t)
      ensures locked ==> world.At(t) == WithLock(old(world.At(t)))
      ensures Held(old(world.At(t))).Some? ==> KeepsVid(old(world), world, Held(old(world.At(t))).value)
      ensures !locked ==> schedule == [] && world.At(t) == old(world.At(t))
      ensures !locked ==> world.lock.Some? || old(schedule) == []
      ensures Calm(old(schedule), 1) && old(world).lock.None? ==>
                && locked && schedule == old(schedule)[1..]
                && world.slot == old(world).slot && world.vnodes == old(world).vnodes
    {
      hide Reach, Reaches, Replay, Turns;
      locked := false;
      if schedule == [] { return; }
      var _ := TakeTurn(t);
      while world.lock.Some?
        invariant Runs() && Agrees() && Continues(t)
        invariant |schedule| < old(|schedule|) && world.At(t) == old(world.At(t))
        invariant Held(world.At(t)).Some? ==> KeepsVid(old(world), world, Held(world.At(t)).value)
        invariant Calm(old(schedule), 1) && old(world).lock.None? ==>
                    schedule == old(schedule)[1..] && world == old(world)
        decreases |schedule|
      {
        if schedule == [] { return; }
        var _ := TakeTurn(t);
      }
      ChecksHold(trace, world, t);
      Act(Step.Lock(t));
      locked := true;
    }

    /** Lines 83-92: msleep gives the lock back, and takes it again once woken.  The first step of the
        call from here is to set root_waiting and fall asleep without the lock. */
    method AwaitCreator(t: Tid) returns (woken: bool)
      requires Runs() && Agrees() && world.At(t).Deciding? && rootAttaching && !world.halted
      modifies this
      ensures Runs() && Agrees() && Continues(t) && old(trace) + [Decide(t)] <= trace
      ensures var asleep := After(old(world), Decide(t));
              asleep.slot == old(world).slot.(waiting := true) && asleep.lock == None && asleep.At(t).Asleep?
      ensures woken ==> |schedule| < old(|schedule|) && world.At(t).Deciding? && world.lock == Some(t)
      ensures !woken ==> schedule == [] && (world.At(t).Asleep? || world.At(t).Woken?)
      ensures world.At(t).Asleep? ==> rootWaiting && rootAttaching
    {
      hide Reach, Reaches, Replay, Turns, Inv, KeepsVid, Calm;
      rootWaiting := true;
      Act(Decide(t));
      while world.At(t).Asleep?
        invariant Runs() && Agrees() && Continues(t) && old(trace) + [Decide(t)] <= trace
        invariant |schedule| <= old(|schedule|) && (world.At(t).Asleep? || world.At(t).Woken?)
        decreases |schedule|
      {
        if schedule == [] {
          NoLostWakeup(trace, world, t);
          return false;
        }
        var _ := TakeTurn(t);
      }
      woken := Lock(t);
    }

    /** vnode_create: it returns a living vnode with one I/O reference. */
    method VnodeCreate(t: Tid) returns (created: Option<Vn>)
      requires Runs() && Agrees() && world.At(t).Creating?
      modifies this
      ensures Runs() && Agrees() && Continues(t)
      ensures created.Some? ==> world.At(t) == Created(created.value)
      ensures created.None? ==> schedule == [] && world.At(t).Creating?
      ensures Calm(old(schedule), 1) && old(world).Node(old(schedule)[0].address).life.Free? ==>
                && created == Some(old(schedule)[0].address)
                && schedule == old(schedule)[1..] && world.lock == old(world).lock
    {
      hide Reach, Reaches, Replay, Turns;
      created := None;
      while schedule != []
        invariant Runs() && Agrees() && Continues(t) && world.At(t).Creating?
        invariant Calm(old(schedule), 1) && old(world).Node(old(schedule)[0].address).life.Free? ==>
                    schedule == old(schedule) && world == old(world)
        decreases |schedule|
      {
        var address := TakeTurn(t);
        if world.Node(address).life.Free? {
          ChecksHold(trace, world, t);
          Act(Create(t, address));
          return Some(address);
        }
      }
    }

    /** Lines 133-134. */
    method Publish(t: Tid, newVn: Vn)
      requires Runs() && Agrees() && world.At(t) == Installing(newVn)
      modifies this
      ensures Runs() && Agrees() && Continues(t)
      ensures world.At(t) == Referencing(newVn) && rootVnode == Some(newVn)
    {
      hide Reach, Reaches, Replay, Turns, Inv, KeepsVid, Calm;
      Interleave(t);
      ChecksHold(trace, world, t);
      assert rootVnode.None?;                             // line 133
      rootVnode := Some(newVn);
      Act(Install(t));
    }

    /** Line 139. */
    method TakeSoftReference(t: Tid, newVn: Vn)
      requires Runs() && Agrees() && world.At(t) == Referencing(newVn) && rootVnode == Some(newVn)
      modifies this
      ensures Runs() && Agrees() && Continues(t)
      ensures world.At(t) == Finishing(newVn) && rootVnode == Some(newVn)
    {
      hide Reach, Reaches, Replay, Turns, Inv, KeepsVid, Calm;
      Interleave(t);
      Act(AddRef(t));
    }

    /** Lines 133-139. */
    method SetRoot(t: Tid, newVn: Vn)
      requires Runs() && Agrees() && world.At(t) == Installing(newVn)
      modifies this
      ensures Runs() && Agrees() && Continues(t)
      ensures world.At(t) == Finishing(newVn) && rootVnode == Some(newVn)
    {
      hide Reach, Reaches, Replay, Turns, Inv, After, Enabled, ByCall, Pinned, KeepsVid, Calm;
      Publish(t, newVn);
      TakeSoftReference(t, newVn);
    }

    /** Lines 143-154. */
    method FinishAttach(t: Tid, newVn: Vn)
      requires Runs() && Agrees() && world.At(t) == Finishing(newVn) && rootVnode == Some(newVn)
      modifies this
      ensures Runs() && Agrees() && Continues(t)
      ensures world.At(t) == Leaving(newVn) && rootVnode == Some(newVn) && !rootAttaching && !rootWaiting
    {
      hide Reach, Reaches, Replay, Turns, Inv, KeepsVid, Calm;
      Interleave(t);
      ChecksHold(trace, world, t);
      assert rootAttaching;                               // line 143
      rootAttaching := false;
      if rootWaiting {
        rootWaiting := false;                             // and wakeup, which Finish does
      }
      Act(Finish(t));
    }

    /** Lines 133-154: the new vnode becomes the root, with one soft reference, and no one sleeps. */
    method InstallRoot(t: Tid, newVn: Vn)
      requires Runs() && Agrees() && world.At(t) == Installing(newVn)
      modifies this
      ensures Runs() && Agrees() && Continues(t)
      ensures world.At(t) == Leaving(newVn) && rootVnode == Some(newVn) && !rootAttaching && !rootWaiting
      ensures Usable(world, t, newVn) && world.Node(newVn).fsRefs == 1 && forall u: Tid :: !world.At(u).Asleep?
    {
      hide Reach, Reaches, Replay, Turns, Inv, After, Enabled, ByCall, Pinned, KeepsVid, Calm;
      SetRoot(t, newVn);
      FinishAttach(t, newVn);
      LeavesWithRoot(trace, world, t, newVn);
    }

    /** Lines 102-104. */
    method StartAttach(t: Tid)
      requires Runs() && Agrees() && world.At(t).Deciding? && !rootAttaching && rootVnode.None? && !world.halted
      modifies `world, `trace, `past, `rootAttaching
      ensures Runs() && Agrees() && Continues(t) && world.At(t).Creating? && rootAttaching
      ensures world.lock.None? && world.vnodes == old(world).vnodes
    {
      hide Reach, Reaches, Replay, Turns, Inv, KeepsVid, Calm;
      rootAttaching := true;
      Act(Decide(t));
    }

    /** Lines 102-154. */
    method CreateRoot(t: Tid) returns (newVn: Option<Vn>)
      requires Runs() && Agrees() && world.At(t).Deciding? && !rootAttaching && rootVnode.None? && !world.halted
      modifies this
      ensures Runs() && Agrees() && Continues(t)
      ensures newVn.Some? ==> world.At(t) == Leaving(newVn.value)
      ensures newVn.Some? ==> rootVnode == newVn && !rootAttaching && !rootWaiting
      ensures newVn.Some? ==> Usable(world, t, newVn.value) && world.Node(newVn.value).fsRefs == 1
      ensures newVn.None? ==> schedule == [] && (world.At(t).Creating? || world.At(t).Created?)
      ensures Calm(old(schedule), 2) && old(world).Node(old(schedule)[0].address).life.Free? ==>
                newVn == Some(old(schedule)[0].address)
    {
      hide Reach, Reaches, Replay, Turns, Inv, Usable, After, Enabled, ByCall, KeepsVid, Pinned;
      StartAttach(t);
      newVn := VnodeCreate(t);
      if newVn.Some? {
        var locked := Lock(t);
        if !locked { return None; }
        InstallRoot(t, newVn.value);
      }
    }

    /** vnode_getwithvid: one I/O reference on the vnode, if it still is the incarnation vid. */
    method VnodeGetWithVid(t: Tid, vn: Vn, vid: nat) returns (error: int)
      requires Runs() && Agrees() && world.At(t) == Validating(vn, vid)
      modifies `world, `trace, `past
      ensures Runs() && Agrees() && Continues(t)
      ensures world.At(t) == if error == 0 then Validated(vn) else Missed
      ensures error == 0 ==> world.Node(vn).vid == vid
      ensures error == 0 <==> old(world).Node(vn).life.Live? && old(world).Node(vn).vid == vid
      ensures world.lock == old(world).lock
    {
      hide Reach, Reaches, Replay, Turns;
      ChecksHold(trace, world, t);
      Act(Validate(t));
      error := if world.At(t).Validated? then 0 else ENOENT;
    }

    /** Lines 164-168: the candidate and its vid are read under the lock, which is then released. */
    method ReadCandidate(t: Tid) returns (candidate: Vn, vid: nat)
      requires Runs() && Agrees() && world.At(t).Deciding? && !rootAttaching && rootVnode.Some?
      modifies this
      ensures Runs() && Agrees() && Continues(t)
      ensures Some(candidate) == old(rootVnode) && vid == old(world).Node(candidate).vid
      ensures world.At(t) == Validating(candidate, vid) && world.lock.None?
      ensures schedule == if old(schedule) == [] then [] else old(schedule)[1..]
      ensures old(schedule) == [] || Calm(old(schedule), 1) ==> world.vnodes == old(world).vnodes
    {
      hide Reach, Reaches, Replay, Turns, Inv;
      ChecksHold(trace, world, t);
      candidate := rootVnode.value;
      vid := world.Node(candidate).vid;
      Interleave(t);
      Act(Decide(t));
    }

    /** Lines 168-192. */
    method CheckCandidate(t: Tid, candidate: Vn, vid: nat) returns (tried: bool, error: int)
      requires Runs() && Agrees() && world.At(t) == Validating(candidate, vid)
      modifies this
      ensures Runs() && Agrees() && Continues(t)
      ensures tried && error == 0 ==> world.At(t) == Leaving(candidate) && world.Node(candidate).vid == vid
      ensures tried && error != 0 ==> error == EAGAIN && world.At(t).Deciding? && |schedule| < old(|schedule|)
      ensures !tried ==> schedule == [] && world.At(t) != Idle && !world.At(t).Returned?
      ensures Calm(old(schedule), 2) && old(world).lock.None? ==>
                var n := old(world).Node(candidate);
                n.life.Live? && n.vid == vid ==> tried && error == 0
    {
      hide Reach, Reaches, Replay, Turns, Inv, After, Enabled, ByCall, Pinned;
      tried, error := false, 0;
      if schedule == [] { return; }
      var _ := TakeTurn(t);
      error := VnodeGetWithVid(t, candidate, vid);
      if error != 0 {
        error := EAGAIN;
      }
      tried := Lock(t);
    }

    /** Lines 164-192: on success, the incarnation that was the root when its vid was read. */
    method TryRoot(t: Tid) returns (tried: bool, error: int, resultVn: Option<Vn>)
      requires Runs() && Agrees() && world.At(t).Deciding? && !rootAttaching && rootVnode.Some?
      modifies this
      ensures Runs() && Agrees() && Continues(t)
      ensures tried && error == 0 ==> resultVn == old(rootVnode) && world.At(t) == Leaving(resultVn.value)
      ensures tried && error == 0 ==> KeepsVid(old(world), world, resultVn.value)
      ensures tried && error == 0 ==> Usable(world, t, resultVn.value) && world.Node(resultVn.value).fsRefs == 1
      ensures tried && error != 0 ==> |schedule| < old(|schedule|) && error == EAGAIN
      ensures tried && error != 0 ==> resultVn.None? && world.At(t).Deciding?
      ensures !tried ==> schedule == [] && world.At(t) != Idle && !world.At(t).Returned?
      ensures Calm(old(schedule), 3) && old(world).Node(old(rootVnode).value).life.Live? ==> tried && error == 0
    {
      hide Reach, Reaches, Replay, Turns, Inv, Usable, After, Enabled, ByCall, Pinned;
      var candidate, vid := ReadCandidate(t);
      tried, error := CheckCandidate(t, candidate, vid);
      resultVn := if error == 0 then Some(candidate) else None;
      if tried && error == 0 {
        LeavesWithRoot(trace, world, t, candidate);
      }
    }

    /** Line 74. */
    method Enter(t: Tid) returns (locked: bool)
      requires Runs() && Agrees() && world.At(t) == Idle
      modifies this
      ensures Runs() && Agrees() && Continues(t)
      ensures locked ==> world.At(t).Deciding?
      ensures !locked ==> schedule == [] && world.At(t).Entering?
      ensures Calm(old(schedule), 1) && old(world).lock.None? ==>
                && locked && schedule == old(schedule)[1..]
                && world.slot == old(world).slot && world.vnodes == old(world).vnodes
    {
      hide Reach, Reaches, Replay, Turns, Inv, KeepsVid, Calm;
      ChecksHold(trace, world, t);
      Act(Call(t));
      locked := Lock(t);
    }

    /** Lines 200-206. */
    method Return(t: Tid, vn: Vn)
      requires Runs() && Agrees() && world.At(t) == Leaving(vn)
      modifies this
      ensures Runs() && Agrees() && Continues(t)
      ensures world.At(t) == Returned(vn) && Usable(world, t, vn)
    {
      hide Reach, Reaches, Replay, Turns, Inv, Pinned, KeepsVid, Calm;
      Interleave(t);
      Act(Leave(t));
      ReturnedRoot(trace, world, t, vn);
    }

    /** Lines 77-197: once through the loop. */
    method Attempt(t: Tid) returns (going: bool, error: int, resultVn: Option<Vn>)
      requires Runs() && Agrees() && world.At(t).Deciding?
      modifies this
      ensures Runs() && Agrees() && Continues(t)
      ensures going && error == 0 ==> resultVn.Some? && world.At(t) == Leaving(resultVn.value)
      ensures going && error != 0 ==> error == EAGAIN && resultVn.None?
      ensures going && error != 0 ==> world.At(t).Deciding? && |schedule| < old(|schedule|)
      ensures !going ==> schedule == [] && world.At(t) != Idle && !world.At(t).Returned?
      ensures Calm(old(schedule), 4) && !old(rootAttaching) ==>
                match old(rootVnode)
                case Some(v) => old(world).Node(v).life.Live? ==> going && error == 0 && resultVn == Some(v)
                case None =>
                  var v := old(schedule)[1].address;
                  old(world).Node(v).life.Free? ==> going && error == 0 && resultVn == Some(v)
    {
      hide Reach, Reaches, Replay, Turns, Inv, Usable, After, Enabled, ByCall, Pinned, KeepsVid;
      Interleave(t);
      if rootAttaching {
        going := AwaitCreator(t);
        error, resultVn := EAGAIN, None;
      } else if rootVnode.None? {
        resultVn := CreateRoot(t);
        going, error := resultVn.Some?, 0;
      } else {
        going, error, resultVn := TryRoot(t);
      }
    }

    /** Lines 76-197: until there is a root or an end of the turns. */
    method Resolve(t: Tid) returns (resultVn: Option<Vn>)
      requires Runs() && Agrees() && world.At(t).Deciding?
      modifies this
      ensures Runs() && Agrees() && Continues(t)
      ensures resultVn.Some? ==> world.At(t) == Leaving(resultVn.value)
      ensures resultVn.None? ==> schedule == [] && world.At(t) != Idle && !world.At(t).Returned?
      ensures Calm(old(schedule), 4) && !old(rootAttaching) ==>
                match old(rootVnode)
                case Some(v) => old(world).Node(v).life.Live? ==> resultVn == Some(v)
                case None =>
                  var v := old(schedule)[1].address;
                  old(world).Node(v).life.Free? ==> resultVn == Some(v)
    {
      hide Reach, Reaches, Replay, Turns, Inv;
      resultVn := None;
      var again := true;
      while again
        invariant Runs() && Agrees() && Continues(t)
        invariant again ==> world.At(t).Deciding? && resultVn.None?
        invariant !again ==> resultVn.Some? && world.At(t) == Leaving(resultVn.value)
        invariant Calm(old(schedule), 4) && !old(rootAttaching) ==>
                    match old(rootVnode)
                    case Some(v) => old(world).Node(v).life.Live? ==> (again && unchanged(this)) || resultVn == Some(v)
                    case None =>
                      var v := old(schedule)[1].address;
                      old(world).Node(v).life.Free? ==> (again && unchanged(this)) || resultVn == Some(v)
        decreases |schedule|, again
      {
        assert resultVn.None?;                            // line 77
        var going, error;
        going, error, resultVn := Attempt(t);
        if !going { return None; }
        assert !(error != 0 && resultVn.Some?);           // line 197
        again := error == EAGAIN;
      }
    }

    /** lustre_vfsop_get_root_vnode_creating_if_necessary (vfsop.c:55-207).  Undisturbed, it returns
        the root there was, or else the vnode that vnode_create made. */
    method GetRoot(t: Tid) returns (outcome: Outcome)
      requires Runs() && Agrees() && world.At(t) == Idle
      modifies this
      ensures Runs() && Agrees() && Continues(t)
      ensures outcome.Got? ==> world.At(t) == Returned(outcome.vn) && Usable(world, t, outcome.vn)
      ensures outcome.Pending? ==> schedule == [] && world.At(t) != Idle && !world.At(t).Returned?
      ensures world == Replay(old(world), past[|old(past)|..]) && old(schedule) == Turns(past[|old(past)|..]) + schedule
      ensures Quiet(old(schedule)) ==> Spares(old(world), world, t)
      ensures Quiet(old(schedule)) && outcome.Got? ==>
                && world.Node(outcome.vn).holders == old(world).Node(outcome.vn).holders + {t}
                && world.Node(outcome.vn).io == old(world).Node(outcome.vn).io + 1
      ensures Calm(old(schedule), 5) && Alone(old(world), t) ==>
                match old(rootVnode)
                case Some(v) => outcome == Got(v)
                case None =>
                  var v := old(schedule)[2].address;
                  old(world).Node(v).life.Free? ==> outcome == Got(v)
    {
      hide Reach, Reaches, Replay, Turns, Inv, Usable, After, Enabled, ByCall, Pinned, KeepsVid, Spares, Quiet;
      if Alone(world, t) { Undisturbed(trace, world, t); }
      outcome := Pending;
      var going := Enter(t);
      if going {
        var resultVn := Resolve(t);
        if resultVn.Some? {
          Return(t, resultVn.value);
          outcome := Got(resultVn.value);
        }
      }
      AccountsFor(t);
      if Quiet(old(schedule)) && outcome.Got? {
        OneNewReference(old(trace), old(world), trace, world, t, outcome.vn);
      }
    }

    /** Lines 62-71 of vnop.c. */
    method CheckRoot(t: Tid, vn: Vn)
      requires Runs() && Agrees() && world.At(t) == Detaching(vn)
      modifies this
      ensures Runs() && Agrees() && Continues(t) && world.At(t) == Dropping(vn)
    {
      hide Reach, Reaches, Replay, Turns, Inv, KeepsVid, Calm;
      Interleave(t);
      ChecksHold(trace, world, t);
      assert !rootAttaching;                              // line 62
      assert rootVnode == Some(vn);                       // lines 63 and 71
      Act(Detach(t));
    }

    /** Line 75 of vnop.c. */
    method DropSoftReference(t: Tid, vn: Vn)
      requires Runs() && Agrees() && world.At(t) == Dropping(vn)
      modifies this
      ensures Runs() && Agrees() && Continues(t) && world.At(t) == Clearing(vn)
    {
      hide Reach, Reaches, Replay, Turns, Inv, KeepsVid, Calm;
      Interleave(t);
      ChecksHold(trace, world, t);
      Act(DropRef(t));
    }

    /** Line 77 of vnop.c. */
    method ClearRoot(t: Tid, vn: Vn)
      requires Runs() && Agrees() && world.At(t) == Clearing(vn)
      modifies this
      ensures Runs() && Agrees() && Continues(t) && world.At(t) == Unlocking(vn) && rootVnode.None?
    {
      hide Reach, Reaches, Replay, Turns, Inv, Pinned, KeepsVid, Calm;
      Interleave(t);
      rootVnode := None;
      Act(Clear(t));
    }

    /** Lines 62-77 of vnop.c. */
    method DropRoot(t: Tid, vn: Vn)
      requires Runs() && Agrees() && world.At(t) == Detaching(vn)
      modifies this
      ensures Runs() && Agrees() && Continues(t) && world.At(t) == Unlocking(vn)
      ensures rootVnode.None? && world.Node(vn).fsRefs == 0
    {
      hide Reach, Reaches, Replay, Turns, Inv, After, Enabled, ByCall, Pinned, KeepsVid, Calm;
      CheckRoot(t, vn);
      DropSoftReference(t, vn);
      ClearRoot(t, vn);
      DetachesFromAll(trace, world, t, vn);
    }

    /** Line 80 of vnop.c. */
    method Release(t: Tid, vn: Vn)
      requires Runs() && Agrees() && world.At(t) == Unlocking(vn) && rootVnode.None?
      modifies this
      ensures Runs() && Agrees() && Continues(t)
      ensures world.At(t) == Detached(vn) && rootVnode.None? && world.Node(vn).fsRefs == 0
    {
      hide Reach, Reaches, Replay, Turns, Inv, KeepsVid, Calm;
      Interleave(t);
      Act(Unlock(t));
      DetachesFromAll(trace, world, t, vn);
    }

    /** Lines 62-80 of vnop.c. */
    method DetachLocked(t: Tid, vn: Vn)
      requires Runs() && Agrees() && world.At(t) == Detaching(vn)
      modifies this
      ensures Runs() && Agrees() && Continues(t)
      ensures world.At(t) == Detached(vn) && rootVnode.None? && world.Node(vn).fsRefs == 0
    {
      hide Reach, Reaches, Replay, Turns, Inv, After, Enabled, ByCall, Pinned, KeepsVid, Calm;
      DropRoot(t, vn);
      Release(t, vn);
    }

    /** lustre_mount_detach_root_vnode (vnop.c:48-81), on behalf of lustre_vnop_reclaim for vn. */
    method DetachRoot(t: Tid, vn: Vn) returns (detached: bool)
      requires Runs() && Agrees() && world.At(t) == Reclaiming(vn)
      modifies this
      ensures Runs() && Agrees() && Continues(t)
      ensures detached ==> world.At(t) == Detached(vn) && rootVnode.None? && world.Node(vn).fsRefs == 0
      ensures !detached ==> schedule == [] && world.At(t) == Reclaiming(vn)
      ensures world == Replay(old(world), past[|old(past)|..]) && old(schedule) == Turns(past[|old(past)|..]) + schedule
      ensures Quiet(old(schedule)) ==> Spares(old(world), world, t)
      ensures Calm(old(schedule), 1) && Alone(old(world), t) ==> detached
    {
      hide Reach, Reaches, Replay, Turns, Inv, After, Enabled, ByCall, Pinned, KeepsVid, Spares, Quiet;
      if Alone(world, t) { Undisturbed(trace, world, t); }
      detached := Lock(t);
      if detached {
        DetachLocked(t, vn);
      }
      AccountsFor(t);
    }
  }
}
