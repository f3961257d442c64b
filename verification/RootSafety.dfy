/** What holds in every run of the root vnode protocol, whatever the interleaving. */
module RootSafety {
  import opened Options
  import opened RootVnode
  import opened RootInvariant

  /** The state after a run, if every step of it was possible. */
  ghost function Reach(steps: seq<Step>): Option<State> {
    if steps == [] then Some(Start())
    else
      var before, last := Reach(steps[..|steps| - 1]), steps[|steps| - 1];
      if before.Some? && Enabled(before.value, last) then Some(After(before.value, last)) else None
  }

  ghost predicate Reaches(steps: seq<Step>, s: State) { Reach(steps) == Some(s) }

  lemma {:induction false} ReachedInv(steps: seq<Step>, s: State)
    requires Reaches(steps, s)
    ensures Inv(s)
  {
    if steps == [] {
      StartInv();
    } else {
      var before := Reach(steps[..|steps| - 1]).value;
      ReachedInv(steps[..|steps| - 1], before);
      StepKeeps(before, steps[|steps| - 1]);
    }
  }

  /** No LUSTRE_BUG_ON of the protocol fires: not the getter's at lines 133 and 143 of vfsop.c, nor the
      one at line 437 on a null root returned by line 154, nor detach's at lines 62, 63 and 71 of
      vnop.c; and the getter never asks a freed vnode for its vid (line 166 of vfsop.c). */
  lemma {:induction false} NoCheckFires(steps: seq<Step>, s: State)
    requires Reaches(steps, s)
    ensures !s.halted
    ensures forall t: Tid :: s.At(t).Deciding? && Decided(s.slot).1.Try? ==> s.Node(Decided(s.slot).1.vn).life != Free
  {
    ReachedInv(steps, s);
    forall t: Tid | s.At(t).Deciding? && Decided(s.slot).1.Try?
      ensures s.Node(Decided(s.slot).1.vn).life != Free
    {
      assert NodeInv(s, s.slot.root.value);
    }
  }

  /** A call that has returned 0 holds one I/O reference, counted once, on a living incarnation that
      was installed as the root and still is. */
  lemma {:induction false} ReturnedRoot(steps: seq<Step>, s: State, t: Tid, v: Vn)
    requires Reaches(steps, s) && s.At(t) == Returned(v)
    ensures s.Node(v).life == Live && s.Node(v).installed && s.slot.root == Some(v)
    ensures t in s.Node(v).holders && s.Node(v).io == |s.Node(v).holders| >= 1
    ensures forall u: Tid :: u in s.Node(v).holders <==> Held(s.At(u)) == Some(v)
  {
    hide Inv;
    ReachedInv(steps, s);
    CallOf(s, t);
    NodeOf(s, v);
    HeldLives(s, t);
  }

  /** root_attaching is set exactly while some call is creating the root, there is never more than
      one, and until it installs its vnode there is no root. */
  lemma {:induction false} OneCreator(steps: seq<Step>, s: State)
    requires Reaches(steps, s)
    ensures s.slot.attaching <==> exists t: Tid :: Attaches(s.At(t))
    ensures forall t: Tid, u: Tid :: Attaches(s.At(t)) && Attaches(s.At(u)) ==> t == u
    ensures forall t: Tid :: Attaches(s.At(t)) && !s.At(t).Referencing? && !s.At(t).Finishing? ==> s.slot.root == None
    ensures s.slot.attaching && s.lock == None ==> s.slot.root == None
  {
    ReachedInv(steps, s);
    if s.creator.Some? {
      assert CallInv(s, s.creator.value);
      assert Attaches(s.At(s.creator.value));
    }
    forall t: Tid | Attaches(s.At(t))
      ensures s.creator == Some(t) && (!s.At(t).Referencing? && !s.At(t).Finishing? ==> s.slot.root == None)
    {
      assert CallInv(s, t);
    }
  }

  /** The vnodes between creation and the end of their detaching. */
  ghost predicate Attached(s: State, v: Vn) {
    && s.Node(v).life != Free
    && (s.Node(v).reclaimer.Some? ==>
          !s.At(s.Node(v).reclaimer.value).Unlocking? && !s.At(s.Node(v).reclaimer.value).Detached?)
  }

  lemma {:induction false} AttachedIsRootOrNew(s: State, v: Vn)
    requires Inv(s) && Attached(s, v)
    ensures s.slot.root == Some(v) || (s.slot.root == None && s.creator.Some? && Held(s.At(s.creator.value)) == Some(v))
  {
    assert NodeInv(s, v);
    if s.Node(v).reclaimer.Some? {
      assert CallInv(s, s.Node(v).reclaimer.value);
    }
    if s.creator.Some? {
      assert CallInv(s, s.creator.value);
    }
  }

  /** Two root incarnations never coexist. */
  lemma {:induction false} OneRoot(steps: seq<Step>, s: State, v: Vn, w: Vn)
    requires Reaches(steps, s) && Attached(s, v) && Attached(s, w)
    ensures v == w
  {
    ReachedInv(steps, s);
    AttachedIsRootOrNew(s, v);
    AttachedIsRootOrNew(s, w);
  }

  /** No wakeup is lost: a sleeper is waited for, so completing the attach leaves no one asleep. */
  lemma {:induction false} NoLostWakeup(steps: seq<Step>, s: State, t: Tid)
    requires Reaches(steps, s)
    ensures s.At(t).Asleep? ==> s.slot.waiting && s.slot.attaching
    ensures forall c: Tid :: Enabled(s, Finish(c)) ==> !After(s, Finish(c)).At(t).Asleep?
  {
    ReachedInv(steps, s);
    assert CallInv(s, t);
    forall c: Tid | Enabled(s, Finish(c))
      ensures !After(s, Finish(c)).At(t).Asleep?
    {
      assert CallInv(s, c);
    }
  }

  /** While the lock is free the root has exactly one soft reference and no other vnode has any. */
  lemma {:induction false} SoftReferences(steps: seq<Step>, s: State, v: Vn)
    requires Reaches(steps, s) && s.lock == None
    ensures s.Node(v).fsRefs == if s.slot.root == Some(v) then 1 else 0
  {
    ReachedInv(steps, s);
    assert NodeInv(s, v);
  }

  /** Once every call has left and every vnode is gone, lines 381, 382 and 387 of unmount hold. */
  lemma {:induction false} UnmountIsQuiet(steps: seq<Step>, s: State)
    requires Reaches(steps, s)
    requires forall t: Tid :: s.At(t) == Idle
    requires forall v: Vn :: s.Node(v).life == Free
    ensures !s.slot.attaching && !s.slot.waiting && s.slot.root == None
  {
    ReachedInv(steps, s);
    assert s.creator.Some? ==> CallInv(s, s.creator.value);
    assert s.slot.root.Some? ==> NodeInv(s, s.slot.root.value);
  }

  /* ---------- the protocol is never stuck ---------- */

  /** Steps that a call in progress takes; the others are up to callers and to VFS. */
  ghost predicate OwnStep(step: Step) {
    !step.Call? && !step.Spurious? && !step.Release? && !step.Share? && !step.Reclaim?
  }

  lemma {:induction false} UnusedAddress(m: map<Vn, Vnode>) returns (v: Vn)
    ensures v !in m
  {
    v := AboveAll(m.Keys);
  }

  lemma {:induction false} AboveAll(s: set<nat>) returns (n: nat)
    ensures forall x :: x in s ==> x < n
  {
    if s == {} {
      n := 0;
    } else {
      var x :| x in s;
      n := AboveAll(s - {x});
      n := if n <= x then x + 1 else n;
      assert forall y :: y in s ==> y == x || y in s - {x};
    }
  }

  /** The step that a call can take by itself. */
  ghost function StepOf(pc: Pc, t: Tid, v: Vn): Step {
    match pc
    case Deciding => Decide(t)
    case Creating => Create(t, v)
    case Installing(_) => Install(t)
    case Referencing(_) => AddRef(t)
    case Finishing(_) => Finish(t)
    case Validating(_, _) => Validate(t)
    case Leaving(_) => Leave(t)
    case Detaching(_) => Detach(t)
    case Dropping(_) => DropRef(t)
    case Clearing(_) => Clear(t)
    case Unlocking(_) => Unlock(t)
    case Detached(_) => Expire(t)
    case _ => Lock(t)
  }

  /** Whenever some call is in progress, some call in progress can take a step of its own: no
      deadlock, and in particular the sleepers' creator can. */
  lemma {:induction false} NeverStuck(steps: seq<Step>, s: State, t: Tid) returns (step: Step)
    requires Reaches(steps, s) && s.At(t) != Idle && !s.At(t).Returned?
    ensures OwnStep(step) && Enabled(s, step)
  {
    ReachedInv(steps, s);
    assert CallInv(s, t);
    var v := UnusedAddress(s.vnodes);
    var actor := t;
    if s.lock.Some? {
      actor := s.lock.value;
    } else if s.At(t).Asleep? {
      actor := s.creator.value;
    }
    assert CallInv(s, actor);
    step := StepOf(s.At(actor), actor, v);
  }
}
