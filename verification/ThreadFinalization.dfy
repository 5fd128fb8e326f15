/** Preparing a thread for finalization while its loop runs: prepare_finalize, cancel_finalize and
    set_prepfin_hold against run(). */
module ThreadFinalization {
  import opened Options

  type Tid = nat

  /** Where run() is in a cycle; from `Deciding` on it holds the loop mutex. */
  datatype LoopPc = Between | Deciding | InLoop | Skipping

  /** Where a caller of prepare_finalize() is. */
  datatype Pc =
    | Idle
    | Checked                     // past the unlocked check, wants the hold mutex
    | Holding                     // has the hold mutex, nobody holds back
    | Locked                      // also has the loop mutex
    | InUser                      // finalize_prepared is set, the user part runs
    | Unlocking(cancelled: bool)  // has given the loop mutex back; was there a cancellation since?

  /** `holdOwner` and `loopOwner` are the callers that have the mutexes; the thread itself has the loop
      mutex unless it is `Between` cycles. `concLoop` is __prepfin_conc_loop. */
  datatype State = State(
    prepared: bool, hold: bool, concLoop: bool, loop: LoopPc, pc: map<Tid, Pc>,
    holdOwner: Option<Tid>, loopOwner: Option<Tid>)

  datatype Step =
    | LockLoop | Decide | UnlockLoop                                    // run()
    | Check(t: Tid) | TakeHold(t: Tid) | TakeLoop(t: Tid) | SetPrepared(t: Tid)
    | GiveLoop(t: Tid) | Return(t: Tid)                                 // prepare_finalize()
    | Cancel | SetHold(on: bool)                                        // other callers

  predicate LoopMutexFree(s: State) {
    s.loopOwner.None? && s.loop.Between?
  }

  predicate At(s: State, t: Tid, pc: Pc) {
    t in s.pc && s.pc[t] == pc
  }

  /** The effect of a step; one that is not due, or has to block, changes nothing. */
  function Next(s: State, step: Step): State {
    match step
    case LockLoop => if LoopMutexFree(s) then s.(loop := Deciding) else s
    case Decide => if s.loop.Deciding? then s.(loop := if s.prepared then Skipping else InLoop) else s
    case UnlockLoop => if s.loop.InLoop? || s.loop.Skipping? then s.(loop := Between) else s
    case Check(t) => if At(s, t, Idle) && !s.prepared then s.(pc := s.pc[t := Checked]) else s
    case TakeHold(t) =>
      if At(s, t, Checked) && s.holdOwner.None? && !s.hold
      then s.(pc := s.pc[t := Holding], holdOwner := Some(t)) else s
    case TakeLoop(t) =>
      if !At(s, t, Holding) then s
      else if s.concLoop then s.(pc := s.pc[t := Locked])
      else if LoopMutexFree(s) then s.(pc := s.pc[t := Locked], loopOwner := Some(t)) else s
    case SetPrepared(t) => if At(s, t, Locked) then s.(prepared := true, pc := s.pc[t := InUser]) else s
    case GiveLoop(t) => if At(s, t, InUser) then s.(pc := s.pc[t := Unlocking(false)], loopOwner := None) else s
    case Return(t) =>
      if At(s, t, Unlocking(false)) || At(s, t, Unlocking(true))
      then s.(pc := s.pc[t := Idle], holdOwner := None) else s
    case Cancel =>
      if LoopMutexFree(s) then
        s.(prepared := false, pc := map t | t in s.pc :: if s.pc[t].Unlocking? then Unlocking(true) else s.pc[t])
      else s
    case SetHold(on) => if s.holdOwner.None? && !(on && s.prepared) then s.(hold := on) else s
  }

  /** The fields of the thread; each method is what one call does while it has the mutex named. */
  class Finalization {
    var finalizePrepared: bool
    var prepfinHold: bool
    const prepfinConcLoop: bool

    ghost predicate In(s: State)
      reads this
    {
      finalizePrepared == s.prepared && prepfinHold == s.hold && prepfinConcLoop == s.concLoop
    }

    /** prepare_finalize(), before it takes a mutex: whether it goes on. */
    method GoesOn(ghost t: Tid, ghost s: State) returns (ok: bool)
      requires In(s) && At(s, t, Idle)
      ensures ok <==> At(Next(s, Check(t)), t, Checked)
      ensures ok <==> !finalizePrepared
    {
      ok := !finalizePrepared;
    }

    /** prepare_finalize(), with the hold mutex: whether it waits. */
    method HeldBack(ghost t: Tid, ghost s: State) returns (held: bool)
      requires In(s) && At(s, t, Checked) && s.holdOwner.None?
      ensures held <==> Next(s, TakeHold(t)) == s
      ensures held <==> prepfinHold
    {
      held := prepfinHold;
    }

    /** set_prepfin_hold(), with the hold mutex. */
    method SetPrepfinHold(hold: bool, ghost s: State) returns (ok: bool)
      requires In(s) && s.holdOwner.None?
      modifies this
      ensures In(Next(s, SetHold(hold)))
      ensures ok <==> !(hold && finalizePrepared)
      ensures prepfinHold == (if ok then hold else old(prepfinHold)) && finalizePrepared == old(finalizePrepared)
    {
      if hold && finalizePrepared {
        return false;
      }
      prepfinHold := hold;
      ok := true;
    }

    /** prepare_finalize(), with both mutexes. */
    method Prepare(ghost t: Tid, ghost s: State)
      requires In(s) && At(s, t, Locked)
      modifies this
      ensures In(Next(s, SetPrepared(t)))
      ensures finalizePrepared && prepfinHold == old(prepfinHold)
    {
      finalizePrepared := true;
    }

    /** cancel_finalize(), with the loop mutex. */
    method CancelFinalize(ghost s: State)
      requires In(s) && LoopMutexFree(s)
      modifies this
      ensures In(Next(s, Cancel))
      ensures !finalizePrepared && prepfinHold == old(prepfinHold)
    {
      finalizePrepared := false;
    }

    /** run(), with the loop mutex: whether loop() is called. */
    method CallsLoop(ghost s: State) returns (calls: bool)
      requires In(s) && s.loop.Deciding?
      ensures calls <==> Next(s, Decide).loop.InLoop?
      ensures calls <==> !finalizePrepared
    {
      calls := !finalizePrepared;
    }
  }

  function Run(s: State, steps: seq<Step>): State {
    if steps == [] then s else Next(Run(s, steps[..|steps| - 1]), steps[|steps| - 1])
  }

  ghost function Created(concLoop: bool, callers: set<Tid>): State {
    State(false, false, concLoop, Between, map t | t in callers :: Idle, None, None)
  }

  predicate HasHold(pc: Pc) {
    !pc.Idle? && !pc.Checked?
  }

  predicate HasLoop(pc: Pc) {
    pc.Locked? || pc.InUser?
  }

  /** The mutexes exclude each other's holders; nobody holds back a prepared thread; a caller that was
      overtaken by a cancellation leaves the thread unprepared; and unless the loop may run
      concurrently, a prepared thread is not in its loop. */
  ghost predicate Valid(s: State) {
    && (forall t | t in s.pc && HasHold(s.pc[t]) :: s.holdOwner == Some(t))
    && (s.holdOwner.Some? ==> s.holdOwner.value in s.pc && HasHold(s.pc[s.holdOwner.value]) && !s.hold)
    && (s.loopOwner.Some? ==> s.loopOwner.value in s.pc && HasLoop(s.pc[s.loopOwner.value]))
    && !(s.hold && s.prepared)
    && (forall t | t in s.pc && s.pc[t] == Unlocking(true) :: !s.prepared)
    && (!s.concLoop ==>
          && (forall t | t in s.pc && HasLoop(s.pc[t]) :: s.loopOwner == Some(t) && s.loop.Between?)
          && (s.prepared ==> !s.loop.InLoop?)
          && (forall t | t in s.pc && (s.pc[t].InUser? || s.pc[t] == Unlocking(false)) :: s.prepared))
  }

  lemma NextKeepsValid(s: State, step: Step)
    requires Valid(s)
    ensures Valid(Next(s, step)) && Next(s, step).concLoop == s.concLoop
  {
    if step.Cancel? || step.SetHold? || step.LockLoop? || step.Decide? || step.UnlockLoop? {
      OthersKeepValid(s, step);
    } else {
      CallerKeepsValid(s, step);
    }
  }

  /** A step of the run loop, a cancellation or a change of the hold flag. */
  lemma OthersKeepValid(s: State, step: Step)
    requires Valid(s) && (step.Cancel? || step.SetHold? || step.LockLoop? || step.Decide? || step.UnlockLoop?)
    ensures Valid(Next(s, step)) && Next(s, step).concLoop == s.concLoop
  {
  }

  /** A step of a caller of prepare_finalize(). */
  lemma CallerKeepsValid(s: State, step: Step)
    requires Valid(s) && !step.Cancel? && !step.SetHold? && !step.LockLoop? && !step.Decide? && !step.UnlockLoop?
    ensures Valid(Next(s, step)) && Next(s, step).concLoop == s.concLoop
  {
  }

  lemma {:induction false} RunsAreValid(s: State, steps: seq<Step>)
    requires Valid(s)
    ensures Valid(Run(s, steps)) && Run(s, steps).concLoop == s.concLoop
  {
    if steps == [] {
    } else {
      var mid, last := Run(s, steps[..|steps| - 1]), steps[|steps| - 1];
      RunsAreValid(s, steps[..|steps| - 1]);
      NextKeepsValid(mid, last);
      assert Run(s, steps) == Next(mid, last);
    }
  }

  /** In every run, holding back and being prepared exclude each other. */
  lemma NeverHeldAndPrepared(concLoop: bool, callers: set<Tid>, steps: seq<Step>)
    ensures var s := Run(Created(concLoop, callers), steps); !(s.hold && s.prepared)
  {
    RunsAreValid(Created(concLoop, callers), steps);
  }

  /** Nobody has got past the hold mutex, or it would not be held back. */
  predicate HeldBackNow(s: State) {
    s.hold && !s.prepared && s.holdOwner.None? && forall t | t in s.pc :: !HasHold(s.pc[t])
  }

  /** While finalization is held back nobody prepares the thread. */
  lemma {:induction false} StaysHeldBack(s: State, steps: seq<Step>)
    requires HeldBackNow(s) && SetHold(false) !in steps
    ensures HeldBackNow(Run(s, steps))
  {
    if steps == [] {
    } else {
      var front := steps[..|steps| - 1];
      assert forall step | step in front :: step in steps;
      assert steps[|steps| - 1] in steps;
      StaysHeldBack(s, front);
    }
  }

  /** In every run: once an unprepared thread is told to hold finalization back, it does not get prepared
      until it is told otherwise. */
  lemma HoldHoldsBack(concLoop: bool, callers: set<Tid>, before: seq<Step>, after: seq<Step>)
    requires var s := Run(Created(concLoop, callers), before); s.holdOwner.None? && !s.prepared
    requires SetHold(false) !in after
    ensures var s := Run(Created(concLoop, callers), before); !Run(Next(s, SetHold(true)), after).prepared
  {
    var s := Run(Created(concLoop, callers), before);
    RunsAreValid(Created(concLoop, callers), before);
    StaysHeldBack(Next(s, SetHold(true)), after);
  }

  /** In every run: once it is told otherwise, a waiting caller can go on, and without others in its way
      it prepares the thread. */
  lemma ReleaseLetsGo(concLoop: bool, callers: set<Tid>, before: seq<Step>, t: Tid)
    requires var s := Run(Created(concLoop, callers), before); s.holdOwner.None? && At(s, t, Checked)
    ensures var s := Run(Created(concLoop, callers), before);
            var r := Next(s, SetHold(false));
            && At(Next(r, TakeHold(t)), t, Holding)
            && (concLoop || LoopMutexFree(s) ==> Run(r, [TakeHold(t), TakeLoop(t)] + [SetPrepared(t)]).prepared)
  {
    var s := Run(Created(concLoop, callers), before);
    var r := Next(s, SetHold(false));
    RunsAreValid(Created(concLoop, callers), before);
    RunSteps(r, [TakeHold(t), TakeLoop(t)], [SetPrepared(t)]);
    RunTwo(r, TakeHold(t), TakeLoop(t));
    var r2 := Run(r, [TakeHold(t), TakeLoop(t)]);
    assert [SetPrepared(t)][..0] == [];
    assert Run(r2, [SetPrepared(t)]) == Next(r2, SetPrepared(t));
  }

  /** Once prepared and out of its loop, the thread stays so without a cancellation. */
  lemma {:induction false} StaysOut(s: State, steps: seq<Step>)
    requires s.prepared && !s.loop.InLoop? && Cancel !in steps
    ensures Run(s, steps).prepared && !Run(s, steps).loop.InLoop?
  {
    if steps == [] {
    } else {
      var front := steps[..|steps| - 1];
      assert forall step | step in front :: step in steps;
      StaysOut(s, front);
    }
  }

  /** The thread can get into its loop without a cancellation. */
  ghost predicate MayLoop(s: State) {
    exists steps :: Cancel !in steps && Run(s, steps).loop.InLoop?
  }

  /** An unprepared thread whose loop mutex no caller has can always get into its loop. */
  lemma UnpreparedMayLoop(s: State)
    requires !s.prepared && s.loopOwner.None?
    ensures MayLoop(s)
  {
    match s.loop
    case InLoop =>
      assert Run(s, []).loop.InLoop?;
    case Deciding =>
      RunTwo(s, Decide, Decide);
      assert Run(s, [Decide, Decide]).loop.InLoop?;
    case Between =>
      RunTwo(s, LockLoop, Decide);
      assert Run(s, [LockLoop, Decide]).loop.InLoop?;
    case Skipping =>
      RunSteps(s, [UnlockLoop, LockLoop], [Decide, Decide]);
      RunTwo(s, UnlockLoop, LockLoop);
      RunTwo(Run(s, [UnlockLoop, LockLoop]), Decide, Decide);
      assert Run(s, [UnlockLoop, LockLoop] + [Decide, Decide]).loop.InLoop?;
  }

  /** `t` is about to return from prepare_finalize(). */
  predicate Returning(s: State, t: Tid) {
    t in s.pc && s.pc[t].Unlocking?
  }

  /** In every run: when prepare_finalize() returns, the thread cannot get into its loop before the next
      cancellation exactly if it is prepared and not in its loop at that moment. */
  lemma SafeOnReturn(concLoop: bool, callers: set<Tid>, before: seq<Step>, t: Tid)
    requires Returning(Run(Created(concLoop, callers), before), t)
    ensures var s := Run(Created(concLoop, callers), before);
            MayLoop(Next(s, Return(t))) <==> !s.prepared || s.loop.InLoop?
  {
    var s := Run(Created(concLoop, callers), before);
    RunsAreValid(Created(concLoop, callers), before);
    var r := Next(s, Return(t));
    if !s.prepared {
      UnpreparedMayLoop(r);
    } else if s.loop.InLoop? {
      assert Run(r, []).loop.InLoop?;
    } else {
      forall steps | Cancel !in steps ensures !Run(r, steps).loop.InLoop? {
        StaysOut(r, steps);
      }
    }
  }

  /** Without a concurrent loop that is the case exactly if no cancellation has come between giving the
      loop mutex back and returning. */
  lemma NoLoopOncePrepared(callers: set<Tid>, before: seq<Step>, t: Tid)
    requires Returning(Run(Created(false, callers), before), t)
    ensures var s := Run(Created(false, callers), before);
            MayLoop(Next(s, Return(t))) <==> s.pc[t] == Unlocking(true)
  {
    SafeOnReturn(false, callers, before, t);
    RunsAreValid(Created(false, callers), before);
  }

  const PREPARE: seq<Step> := [Check(0), TakeHold(0), TakeLoop(0), SetPrepared(0), GiveLoop(0), Return(0)]

  /** Both conditions can fail. With a concurrent loop the thread may be in its loop when
      prepare_finalize() has returned. */
  lemma ConcurrentLoopIsNotStopped()
    ensures var s := Run(Created(true, {0}), [LockLoop, Decide] + PREPARE); s.prepared && s.loop.InLoop?
  {
    var s := Created(true, {0});
    RunSteps(s, [LockLoop, Decide], PREPARE);
    RunTwo(s, LockLoop, Decide);
    RunPrepare(Run(s, [LockLoop, Decide]));
  }

  /** And a cancellation that overtakes the return lets the loop run again. */
  lemma OvertakingCancelRestarts()
    ensures var steps := PREPARE[..5] + [Cancel, Return(0), LockLoop, Decide];
            Run(Created(false, {0}), steps).loop.InLoop?
  {
    var s := Created(false, {0});
    RunSteps(s, PREPARE[..5], [Cancel, Return(0), LockLoop, Decide]);
    RunPrepare(s);
    var s5 := Run(s, PREPARE[..5]);
    var rest := [Cancel, Return(0), LockLoop, Decide];
    assert rest == [Cancel, Return(0)] + [LockLoop, Decide];
    RunSteps(s5, [Cancel, Return(0)], [LockLoop, Decide]);
    RunTwo(s5, Cancel, Return(0));
    RunTwo(Run(s5, [Cancel, Return(0)]), LockLoop, Decide);
  }

  lemma {:induction false} RunSteps(s: State, steps: seq<Step>, more: seq<Step>)
    ensures Run(s, steps + more) == Run(Run(s, steps), more)
    decreases |more|
  {
    if more == [] {
      assert steps + more == steps;
    } else {
      assert (steps + more)[..|steps + more| - 1] == steps + more[..|more| - 1];
      RunSteps(s, steps, more[..|more| - 1]);
    }
  }

  lemma RunTwo(s: State, a: Step, b: Step)
    ensures Run(s, [a, b]) == Next(Next(s, a), b)
  {
    assert [a, b][..1] == [a];
    assert [a][..0] == [];
    assert Run(s, [a]) == Next(s, a);
  }

  lemma RunPrepare(s: State)
    requires At(s, 0, Idle) && !s.prepared && !s.hold && s.holdOwner.None? && (s.concLoop || LoopMutexFree(s))
    ensures var r := Run(s, PREPARE[..5]);
            && r.prepared && r.loop == s.loop && At(r, 0, Unlocking(false)) && r.loopOwner.None?
            && r.concLoop == s.concLoop
    ensures Run(s, PREPARE) == Next(Run(s, PREPARE[..5]), Return(0))
  {
    assert PREPARE[..5] == [Check(0), TakeHold(0)] + [TakeLoop(0), SetPrepared(0), GiveLoop(0)];
    RunSteps(s, [Check(0), TakeHold(0)], [TakeLoop(0), SetPrepared(0), GiveLoop(0)]);
    RunTwo(s, Check(0), TakeHold(0));
    RunLocked(Run(s, [Check(0), TakeHold(0)]));
  }

  lemma RunLocked(s: State)
    requires At(s, 0, Holding) && (s.concLoop || LoopMutexFree(s))
    ensures var r := Run(s, [TakeLoop(0), SetPrepared(0), GiveLoop(0)]);
            && r.prepared && r.loop == s.loop && At(r, 0, Unlocking(false)) && r.loopOwner.None?
            && r.concLoop == s.concLoop
  {
    var steps := [TakeLoop(0), SetPrepared(0), GiveLoop(0)];
    assert steps[..2] == [TakeLoop(0), SetPrepared(0)];
    RunTwo(s, TakeLoop(0), SetPrepared(0));
  }
}
