/** Waking up threads: wakeup(), wakeup(Barrier *) and the sleeping part of run(). */
module ThreadWakeup {
  import opened Options

  /** A barrier pointer. */
  type Bid = nat

  /** The fields guarded by the sleep mutex of a thread in wait-for-wakeup mode. */
  datatype Sleep = Sleep(pending: nat, waiting: bool, barrier: Option<Bid>, coalesce: bool)

  // --- the locked sections --------------------------------------------------

  /** wakeup(); None where it throws. */
  function Wakeup(x: Sleep): Option<Sleep> {
    if x.barrier.Some? then None
    else Some(x.(pending := if x.coalesce then 1 else x.pending + 1, waiting := false))
  }

  /** wakeup(barrier); None where it throws. */
  function WakeupWith(x: Sleep, b: Option<Bid>): Option<Sleep> {
    if b.None? || (!x.waiting && x.barrier.Some?) then None
    else Some(x.(pending := x.pending + 1, barrier := b, waiting := false))
  }

  /** One evaluation of the loop around the sleep condition: sleep on, or consume a wakeup. */
  function SleepOrGo(x: Sleep): Sleep {
    if x.pending == 0 then x.(waiting := true) else x.(pending := x.pending - 1)
  }

  class Thread {
    var pendingWakeups: nat
    var waitingForWakeup: bool
    var barrier: Option<Bid>
    var coalesceWakeups: bool

    ghost function Value(): Sleep
      reads this
    {
      Sleep(pendingWakeups, waitingForWakeup, barrier, coalesceWakeups)
    }

    /** A thread that has not been started counts as waiting already. */
    constructor ()
      ensures Value() == Sleep(0, true, None, false)
    {
      pendingWakeups, waitingForWakeup, barrier, coalesceWakeups := 0, true, None, false;
    }

    /** `signal` says that the sleep condition is signalled. */
    method WakeUp() returns (ok: bool, signal: bool)
      modifies this
      ensures ok <==> Wakeup(old(Value())).Some?
      ensures Value() == if ok then Wakeup(old(Value())).value else old(Value())
      ensures ok <==> old(barrier).None?
      ensures ok ==> pendingWakeups == (if old(coalesceWakeups) then 1 else old(pendingWakeups) + 1)
      ensures ok ==> barrier.None? && !waitingForWakeup && coalesceWakeups == old(coalesceWakeups)
      ensures signal <==> ok && old(waitingForWakeup)
    {
      signal := false;
      if barrier.Some? {
        return false, false;
      }
      if coalesceWakeups {
        pendingWakeups := 1;
      } else {
        pendingWakeups := pendingWakeups + 1;
      }
      if waitingForWakeup {
        waitingForWakeup := false;
        signal := true;
      }
      ok := true;
    }

    method WakeUpWith(b: Option<Bid>) returns (ok: bool, signal: bool)
      modifies this
      ensures ok <==> WakeupWith(old(Value()), b).Some?
      ensures Value() == if ok then WakeupWith(old(Value()), b).value else old(Value())
      ensures ok <==> b.Some? && (old(waitingForWakeup) || old(barrier).None?)
      ensures ok ==> pendingWakeups == old(pendingWakeups) + 1 && barrier == b
      ensures ok ==> !waitingForWakeup && coalesceWakeups == old(coalesceWakeups)
      ensures signal <==> ok && old(waitingForWakeup)
    {
      signal := false;
      if b.None? {
        return false, false;
      }
      if !waitingForWakeup && barrier.Some? {
        return false, false;
      }
      pendingWakeups := pendingWakeups + 1;
      barrier := b;
      if waitingForWakeup {
        waitingForWakeup := false;
        signal := true;
      }
      ok := true;
    }

    method SetCoalesceWakeups(coalesce: bool)
      modifies this
      ensures Value() == old(Value()).(coalesce := coalesce)
    {
      coalesceWakeups := coalesce;
    }

    /** The locked section of run() that takes the barrier. */
    method TakeBarrier() returns (b: Option<Bid>)
      modifies this
      ensures b == old(barrier) && Value() == old(Value()).(barrier := None)
    {
      b := barrier;
      barrier := None;
    }

    /** From holding the sleep mutex to blocking (`go` false) or to the next cycle. */
    method SleepUnlessPending() returns (go: bool)
      modifies this
      ensures Value() == SleepOrGo(old(Value())) && (go <==> old(pendingWakeups) > 0)
      ensures pendingWakeups == if go then old(pendingWakeups) - 1 else 0
      ensures waitingForWakeup == (!go || old(waitingForWakeup))
      ensures barrier == old(barrier) && coalesceWakeups == old(coalesceWakeups)
    {
      if pendingWakeups == 0 {
        waitingForWakeup := true;
        return false;
      }
      pendingWakeups := pendingWakeups - 1;
      go := true;
    }
  }

  // --- the protocol ---------------------------------------------------------

  /** Where run() is. */
  datatype Pc =
    | Starting               // before the first wait
    | Looping                // in the cycle, has not read __barrier yet
    | SawBarrier             // has read that there is a barrier, before taking it
    | AtBarrier(at: Bid)     // in the barrier's wait
    | ToSleep                // about to lock the sleep mutex for the wait
    | Blocked(signalled: bool)

  /** A thread and, for the statements, what has happened so far: wakeups accepted and consumed, and
      the barriers accepted, taken by the run loop and waited for. */
  datatype State = State(
    x: Sleep, pc: Pc, accepted: nat, cycles: nat, given: seq<Bid>, taken: seq<Bid>, waited: seq<Bid>)

  datatype Step =
    | CallWakeup | CallWakeupWith(b: Option<Bid>) | SetCoalesce(on: bool)  // other threads
    | ReadBarrier | Take | PassBarrier | GoToSleep | WakeFromCondition     // the run loop

  function Signalled(pc: Pc, x: Sleep): Pc {
    if pc.Blocked? && x.waiting then Blocked(true) else pc
  }

  /** The wait loop from `s`; it can be entered again by a spurious wakeup. */
  function AfterSleep(s: State): State {
    if s.x.pending == 0 then s.(x := SleepOrGo(s.x), pc := Blocked(false))
    else s.(x := SleepOrGo(s.x), pc := Looping, cycles := s.cycles + 1)
  }

  /** The effect of a step; a step of the run loop that is not due changes nothing. */
  function Next(s: State, step: Step): State {
    match step
    case CallWakeup =>
      (match Wakeup(s.x)
       case None => s
       case Some(x) => s.(x := x, pc := Signalled(s.pc, s.x), accepted := s.accepted + 1))
    case CallWakeupWith(b) =>
      (match WakeupWith(s.x, b)
       case None => s
       case Some(x) =>
         s.(x := x, pc := Signalled(s.pc, s.x), accepted := s.accepted + 1, given := s.given + [b.value]))
    case SetCoalesce(on) => s.(x := s.x.(coalesce := on))
    case ReadBarrier =>
      if s.pc.Looping? then s.(pc := if s.x.barrier.Some? then SawBarrier else ToSleep) else s
    case Take =>
      if s.pc.SawBarrier? && s.x.barrier.Some? then
        s.(x := s.x.(barrier := None), pc := AtBarrier(s.x.barrier.value), taken := s.taken + [s.x.barrier.value])
      else s
    case PassBarrier =>
      if s.pc.AtBarrier? then s.(pc := ToSleep, waited := s.waited + [s.pc.at]) else s
    case GoToSleep => if s.pc.ToSleep? || s.pc.Starting? then AfterSleep(s) else s
    case WakeFromCondition => if s.pc.Blocked? then AfterSleep(s) else s
  }

  function Run(s: State, steps: seq<Step>): State {
    if steps == [] then s else Next(Run(s, steps[..|steps| - 1]), steps[|steps| - 1])
  }

  const CREATED := State(Sleep(0, true, None, false), Starting, 0, 0, [], [], [])

  function Pending(b: Option<Bid>): seq<Bid> {
    if b.Some? then [b.value] else []
  }

  function BeingWaited(pc: Pc): seq<Bid> {
    if pc.AtBarrier? then [pc.at] else []
  }

  /** Whenever the sleep mutex is free. */
  predicate Valid(s: State) {
    && (s.x.waiting ==> s.x.pending == 0 && s.x.barrier.None? && (s.pc.Starting? || s.pc == Blocked(false)))
    && (s.pc == Blocked(false) ==> s.x.waiting)
    && (s.pc == Blocked(true) ==> s.x.pending > 0)
    && (s.pc.SawBarrier? ==> s.x.barrier.Some?)
    && (s.x.barrier.Some? && !s.pc.Looping? && !s.pc.SawBarrier? ==> s.x.pending > 0)
    && s.given == s.taken + Pending(s.x.barrier)
    && s.taken == s.waited + BeingWaited(s.pc)
    && s.cycles + s.x.pending <= s.accepted
  }

  lemma NextKeepsValid(s: State, step: Step)
    requires Valid(s)
    ensures Valid(Next(s, step))
  {
  }

  /** In every interleaving: a thread counted as waiting has nothing pending, no barrier is
      overwritten or dropped, and each accepted one is taken and waited for at most once, in order. */
  lemma {:induction false} RunsAreValid(steps: seq<Step>)
    ensures Valid(Run(CREATED, steps))
  {
    if steps == [] {
    } else {
      RunsAreValid(steps[..|steps| - 1]);
      NextKeepsValid(Run(CREATED, steps[..|steps| - 1]), steps[|steps| - 1]);
    }
  }

  /** The step is a call of wakeup() that sets the counter to one although something is pending. */
  predicate Merges(s: State, step: Step) {
    step.CallWakeup? && Wakeup(s.x).Some? && s.x.coalesce && s.x.pending > 0
  }

  predicate MergesAt(steps: seq<Step>, i: nat)
    requires i < |steps|
  {
    Merges(Run(CREATED, steps[..i]), steps[i])
  }

  /** Some step of the run merges a wakeup into pending ones. */
  ghost predicate SomeMerged(steps: seq<Step>) {
    exists i :: 0 <= i < |steps| && MergesAt(steps, i)
  }

  lemma MergesBefore(steps: seq<Step>, i: nat)
    requires i < |steps| - 1
    ensures MergesAt(steps[..|steps| - 1], i) <==> MergesAt(steps, i)
  {
    assert steps[..|steps| - 1][..i] == steps[..i];
  }

  lemma MergedLast(steps: seq<Step>)
    requires steps != []
    ensures SomeMerged(steps) <==> SomeMerged(steps[..|steps| - 1]) || MergesAt(steps, |steps| - 1)
  {
    var n := |steps| - 1;
    if i :| 0 <= i < n && MergesAt(steps[..n], i) {
      MergesBefore(steps, i);
    }
    if i :| 0 <= i < n && MergesAt(steps, i) {
      MergesBefore(steps, i);
    }
  }

  /** Accepted wakeups that are neither pending nor have been a cycle. */
  function Lost(s: State): int {
    s.accepted - s.cycles - s.x.pending
  }

  lemma MergingLoses(s: State, step: Step)
    ensures Lost(Next(s, step)) == Lost(s) + if Merges(s, step) then s.x.pending else 0
  {
  }

  /** Accepted wakeups are conserved, each one being pending or one cycle, exactly if none was merged
      into pending ones; otherwise some were lost. */
  lemma {:induction false} WakeupsAreConserved(steps: seq<Step>)
    ensures if SomeMerged(steps) then Lost(Run(CREATED, steps)) > 0 else Lost(Run(CREATED, steps)) == 0
  {
    if steps == [] {
    } else {
      var front := steps[..|steps| - 1];
      WakeupsAreConserved(front);
      MergedLast(steps);
      MergingLoses(Run(CREATED, front), steps[|steps| - 1]);
    }
  }

  /** Without coalescing none is merged. */
  lemma {:induction false} OnlyCoalescingMerges(steps: seq<Step>)
    requires SetCoalesce(true) !in steps
    ensures !Run(CREATED, steps).x.coalesce && !SomeMerged(steps)
  {
    if steps == [] {
    } else {
      assert forall step | step in steps[..|steps| - 1] :: step in steps;
      MergedLast(steps);
      OnlyCoalescingMerges(steps[..|steps| - 1]);
    }
  }

  lemma RunOneMore(steps: seq<Step>, step: Step)
    ensures Run(CREATED, steps + [step]) == Next(Run(CREATED, steps), step)
  {
    assert (steps + [step])[..|steps|] == steps;
  }

  /** It happens: switching coalescing on after any run in which no barrier is set, two wakeups leave the
      thread with one pending, and all but that one are lost. */
  lemma CoalescingLoses(steps: seq<Step>)
    requires Run(CREATED, steps).x.barrier.None?
    ensures var s, r := Run(CREATED, steps), Run(CREATED, steps + [SetCoalesce(true)] + [CallWakeup] + [CallWakeup]);
            && r.accepted == s.accepted + 2 && r.x.pending == 1 && r.cycles == s.cycles
            && Lost(r) == Lost(s) + s.x.pending + 1
  {
    RunOneMore(steps, SetCoalesce(true));
    RunOneMore(steps + [SetCoalesce(true)], CallWakeup);
    RunOneMore(steps + [SetCoalesce(true)] + [CallWakeup], CallWakeup);
  }

  /** In every run a sleeping thread accepts a wakeup, and any barrier, and is signalled for it. */
  lemma SleepersWakeUp(steps: seq<Step>, b: Bid)
    requires Run(CREATED, steps).pc == Blocked(false)
    ensures var s := Run(CREATED, steps);
            var r, r' := Next(s, CallWakeup), Next(s, CallWakeupWith(Some(b)));
            && r.pc == Blocked(true) && r.accepted == s.accepted + 1 && r.given == s.given
            && r'.pc == Blocked(true) && r'.accepted == s.accepted + 1 && r'.given == s.given + [b]
            && r.x.pending > 0 && r'.x.pending > 0 && r'.x.barrier == Some(b)
  {
    RunsAreValid(steps);
  }

  predicate OfRunLoop(step: Step) {
    step.ReadBarrier? || step.Take? || step.PassBarrier? || step.GoToSleep? || step.WakeFromCondition?
  }

  /** How far the thread is from its next sleep. */
  function Ahead(pc: Pc): nat {
    match pc
    case Looping => 4
    case SawBarrier => 3
    case AtBarrier(_) => 2
    case Blocked(false) => 0
    case _ => 1
  }

  /** The step of the run loop that is due. */
  function Due(pc: Pc): Step {
    match pc
    case Looping => ReadBarrier
    case SawBarrier => Take
    case AtBarrier(_) => PassBarrier
    case Blocked(_) => WakeFromCondition
    case _ => GoToSleep
  }

  lemma {:induction false} RunFrom(s: State, step: Step, steps: seq<Step>)
    ensures Run(s, [step] + steps) == Run(Next(s, step), steps)
    decreases |steps|
  {
    var all := [step] + steps;
    if steps == [] {
      assert all[..0] == [] && all[0] == step;
    } else {
      assert all[..|all| - 1] == [step] + steps[..|steps| - 1];
      RunFrom(s, step, steps[..|steps| - 1]);
    }
  }

  /** Left alone, the run loop comes to sleep with nothing pending. */
  lemma {:induction false} ComesToSleep(s: State) returns (steps: seq<Step>)
    requires Valid(s)
    ensures forall step | step in steps :: OfRunLoop(step)
    ensures var r := Run(s, steps);
            r.pc == Blocked(false) && Valid(r) && r.accepted == s.accepted && r.given == s.given
    decreases s.x.pending, Ahead(s.pc)
  {
    if s.pc == Blocked(false) {
      steps := [];
    } else {
      var due := Due(s.pc);
      NextKeepsValid(s, due);
      var rest := ComesToSleep(Next(s, due));
      RunFrom(s, due, rest);
      steps := [due] + rest;
    }
  }

  /** From every state of every run the run loop by itself serves all that has been accepted: it takes
      every barrier to its wait, in order, and has no wakeup left. */
  lemma EverythingIsServed(before: seq<Step>) returns (steps: seq<Step>)
    ensures forall step | step in steps :: OfRunLoop(step)
    ensures var s, r := Run(CREATED, before), Run(Run(CREATED, before), steps);
            && r.accepted == s.accepted && r.given == s.given
            && r.pc == Blocked(false) && r.x.pending == 0 && r.waited == s.given
  {
    RunsAreValid(before);
    steps := ComesToSleep(Run(CREATED, before));
  }

  /** No wakeup is lost: a thread that is blocked and not signalled has nothing left to do. It has
      run one cycle for each accepted wakeup, or fewer if some were merged, and waited once at each
      accepted barrier. */
  lemma NoLostWakeup(steps: seq<Step>)
    ensures var s := Run(CREATED, steps);
            s.pc == Blocked(false) ==> s.x.pending == 0 && s.x.barrier.None? && s.waited == s.given
    ensures var s := Run(CREATED, steps);
            s.pc == Blocked(false) ==> (s.cycles == s.accepted <==> !SomeMerged(steps))
  {
    RunsAreValid(steps);
    WakeupsAreConserved(steps);
  }
}
