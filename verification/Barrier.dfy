/** The interruptible barrier: a counting phase under a mutex, followed by a plain barrier. */
module Barrier {

  type Tid = nat

  /** How the last call of wait ended. */
  datatype Result = NoneYet | Returned(ok: bool) | Threw

  /** Where a thread is; between two of these it runs without giving up the mutex, or does one
      unlocked read. */
  datatype Pc =
    | Outside(last: Result)  // not in wait
    | Waiting                // blocked on the condition variable, or about to recheck
    | Leaving                // past the locked part, has not read __wait_at_barrier yet
    | AtBarrier              // in Barrier::wait
    | Returning              // about to return !__timeout

  /** The fields of the barrier. */
  datatype Shared = Shared(
    count: nat, left: nat, timeout: bool, interrupted: bool, waitAtBarrier: bool, passed: seq<Tid>)

  // --- the locked sections --------------------------------------------------

  function Enter(b: Shared, t: Tid): (Shared, Pc)
    requires 0 < b.count
  {
    if b.left > 0 && (b.interrupted || b.timeout) then (b, Outside(Returned(true)))
    else
      var b0 := if b.left == 0 then Shared(b.count, b.count, false, false, false, []) else b;
      var b1 := b0.(left := b0.left - 1, passed := b0.passed + [t]);
      Recheck(b1, b1.left == 0, false)
  }

  /** The loop condition, and what follows when it fails. */
  function Recheck(b: Shared, waker: bool, localTimeout: bool): (Shared, Pc) {
    if b.left > 0 && !b.interrupted && !b.timeout && !localTimeout then (b, Waiting)
    else
      var b' := if localTimeout then b.(timeout := true) else b;
      if b'.interrupted then (b', Outside(Threw))
      else (if waker || localTimeout then b'.(waitAtBarrier := waker) else b', Leaving)
  }

  /** The barrier object; each method is one stretch of wait or interrupt between taking the mutex and
      giving it up. */
  class InterruptibleBarrier {
    const count: nat
    var threadsLeft: nat
    var timeout: bool
    var interrupted: bool
    var waitAtBarrier: bool
    var passedThreads: seq<Tid>

    /** A count of zero is refused. */
    constructor (c: nat)
      requires c > 0
      ensures Value() == Shared(c, 0, false, false, waitAtBarrier, [])
    {
      count, threadsLeft, timeout, interrupted, passedThreads := c, 0, false, false, [];
    }

    ghost function Value(): Shared
      reads this
    {
      Shared(count, threadsLeft, timeout, interrupted, waitAtBarrier, passedThreads)
    }

    /** From taking the mutex to blocking, unlocking or returning. */
    method WaitUntilBlocked(self: Tid) returns (pc: Pc)
      requires count > 0
      modifies this
      ensures (Value(), pc) == Enter(old(Value()), self)
      ensures var abandoned := old(threadsLeft) > 0 && (old(interrupted) || old(timeout));
              if abandoned then pc == Outside(Returned(true)) && Value() == old(Value())
              else
                && threadsLeft == (if old(threadsLeft) == 0 then count else old(threadsLeft)) - 1
                && passedThreads == (if old(threadsLeft) == 0 then [] else old(passedThreads)) + [self]
                && !timeout && !interrupted
                && pc == (if threadsLeft == 0 then Leaving else Waiting)
                && waitAtBarrier == (threadsLeft == 0 || (old(threadsLeft) > 0 && old(waitAtBarrier)))
    {
      if threadsLeft == 0 {
        timeout, interrupted, waitAtBarrier := false, false, false;
        threadsLeft := count;
        passedThreads := [];
      } else if interrupted || timeout {
        return Outside(Returned(true));
      }
      threadsLeft := threadsLeft - 1;
      passedThreads := passedThreads + [self];
      pc := WaitAgain(threadsLeft == 0, false);
    }

    /** From coming back from the condition variable to blocking, unlocking or throwing. */
    method WaitAgain(waker: bool, localTimeout: bool) returns (pc: Pc)
      modifies this
      ensures (Value(), pc) == Recheck(old(Value()), waker, localTimeout)
      ensures pc == Waiting <==> threadsLeft > 0 && !interrupted && !old(timeout) && !localTimeout
      ensures pc != Waiting ==> pc == if interrupted then Outside(Threw) else Leaving
      ensures timeout == (old(timeout) || localTimeout) && interrupted == old(interrupted)
      ensures threadsLeft == old(threadsLeft) && passedThreads == old(passedThreads)
      ensures waitAtBarrier == if pc == Leaving && (waker || localTimeout) then waker else old(waitAtBarrier)
    {
      if threadsLeft > 0 && !interrupted && !timeout && !localTimeout {
        return Waiting;
      }
      if localTimeout {
        timeout := true;
      }
      if interrupted {
        return Outside(Threw);
      }
      if waker || localTimeout {
        waitAtBarrier := waker;
      }
      pc := Leaving;
    }

    method Interrupt()
      modifies this
      ensures Value() == old(Value()).(interrupted := true)
    {
      interrupted := true;
    }
  }

  // --- the protocol ---------------------------------------------------------

  /** The barrier and the threads using it; `round[t]` is the round that `t` joined last and `rounds`
      the number of rounds begun. */
  datatype State = State(b: Shared, pc: map<Tid, Pc>, arrived: set<Tid>, round: map<Tid, nat>, rounds: nat)

  datatype Step = Call(t: Tid) | Wake(t: Tid) | TimeOut(t: Tid) | ReadFlag(t: Tid) | Return(t: Tid) | Interrupt

  ghost predicate Enabled(s: State, step: Step) {
    match step
    case Call(t) => t in s.pc && s.pc[t].Outside?
    case Wake(t) => t in s.pc && s.pc[t].Waiting?
    case TimeOut(t) => t in s.pc && s.pc[t].Waiting?
    case ReadFlag(t) => t in s.pc && s.pc[t].Leaving?
    case Return(t) => t in s.pc && s.pc[t].Returning?
    case Interrupt => true
  }

  /** The call joins a round. */
  ghost predicate Joins(b: Shared) {
    b.left == 0 || !(b.interrupted || b.timeout)
  }

  ghost function Next(s: State, step: Step): State
    requires 0 < s.b.count
  {
    if !Enabled(s, step) then s else
    match step
    case Call(t) =>
      var (b, pc) := Enter(s.b, t);
      var n := if s.b.left == 0 then s.rounds + 1 else s.rounds;
      State(b, s.pc[t := pc], s.arrived, if Joins(s.b) then s.round[t := n] else s.round, n)
    case Wake(t) => var (b, pc) := Recheck(s.b, false, false); s.(b := b, pc := s.pc[t := pc])
    case TimeOut(t) => var (b, pc) := Recheck(s.b, false, true); s.(b := b, pc := s.pc[t := pc])
    case ReadFlag(t) => if s.b.waitAtBarrier then Arrive(s, t) else s.(pc := s.pc[t := Returning])
    case Return(t) => s.(pc := s.pc[t := Outside(Returned(!s.b.timeout))])
    case Interrupt => s.(b := s.b.(interrupted := true))
  }

  /** Barrier::wait as POSIX promises it: nobody passes before `count` threads have arrived, and these
      are then released together. */
  ghost function Arrive(s: State, t: Tid): State {
    var all := s.arrived + {t};
    if |all| == s.b.count
    then s.(pc := map u | u in s.pc :: if u in all then Returning else s.pc[u], arrived := {})
    else s.(pc := s.pc[t := AtBarrier], arrived := all)
  }

  ghost function Run(s: State, steps: seq<Step>): (r: State)
    requires 0 < s.b.count
    ensures r.b.count == s.b.count && r.pc.Keys == s.pc.Keys
    ensures s.round.Keys == s.pc.Keys ==> r.round.Keys == r.pc.Keys
  {
    if steps == [] then s else Next(Run(s, steps[..|steps| - 1]), steps[|steps| - 1])
  }

  ghost function Initial(count: nat, threads: set<Tid>, flag: bool): State {
    State(Shared(count, 0, false, false, flag, []), map t | t in threads :: Outside(NoneYet), {},
          map t | t in threads :: 0, 0)
  }

  // --- rounds never mix -----------------------------------------------------

  /** The thread has nothing more to do with the round it joined last. */
  predicate Through(pc: Pc) {
    pc.Returning? || pc == Outside(NoneYet) || pc == Outside(Returned(true))
  }

  ghost function Joined(s: State): set<Tid> {
    set t | t in s.round && s.round[t] == s.rounds
  }

  ghost function Arrivals(s: State): set<Tid> {
    set t | t in s.pc && s.pc[t].AtBarrier?
  }

  /** While threads are missing, those that came wait and all others are through with the round before. */
  ghost predicate Gathering(s: State)
    requires s.round.Keys == s.pc.Keys
  {
    && s.arrived == {} && 0 < s.rounds
    && |Joined(s)| == s.b.count - s.b.left
    && forall t | t in s.pc ::
         if s.round[t] == s.rounds then s.pc[t].Waiting? else s.round[t] == s.rounds - 1 && Through(s.pc[t])
  }

  /** When nobody is missing, everybody is in the same round: either all are through with it, or all
      still have to leave it by way of the plain barrier. */
  ghost predicate Complete(s: State)
    requires s.round.Keys == s.pc.Keys
  {
    && (forall t | t in s.pc :: s.round[t] == s.rounds)
    && s.arrived == Arrivals(s) && |s.arrived| < s.b.count
    && ((forall t | t in s.pc :: Through(s.pc[t]))
        || (s.b.waitAtBarrier
            && forall t | t in s.pc :: s.pc[t].Waiting? || s.pc[t].Leaving? || s.pc[t].AtBarrier?))
  }

  ghost predicate Orderly(s: State) {
    && 0 < s.b.count == |s.pc.Keys| && s.round.Keys == s.pc.Keys
    && !s.b.timeout && !s.b.interrupted && s.b.left <= s.b.count
    && if s.b.left > 0 then Gathering(s) else Complete(s)
  }

  lemma FullSubset(a: set<Tid>, b: set<Tid>)
    requires a <= b && |a| == |b|
    ensures a == b
  {
    if x :| x in b && x !in a {
      SubsetSize(a, b - {x});
    }
  }

  lemma {:induction false} SubsetSize(a: set<Tid>, b: set<Tid>)
    requires a <= b
    ensures |a| <= |b|
    decreases a
  {
    if x :| x in a {
      SubsetSize(a - {x}, b - {x});
    }
  }

  lemma CallOpensRound(s: State, t: Tid)
    requires Orderly(s) && Enabled(s, Call(t)) && s.b.left == 0
    ensures Orderly(Next(s, Call(t)))
  {
    var s' := Next(s, Call(t));
    assert forall u | u in s.pc :: Through(s.pc[u]);
    assert Joined(s') == {t};
    if s'.b.left == 0 {
      EverybodyJoined(s', Joined(s'));
    }
  }

  lemma CallJoinsRound(s: State, t: Tid)
    requires Orderly(s) && Enabled(s, Call(t)) && s.b.left > 0
    ensures Orderly(Next(s, Call(t)))
  {
    var s' := Next(s, Call(t));
    assert t !in Joined(s);
    assert Joined(s') == Joined(s) + {t};
    if s'.b.left == 0 {
      EverybodyJoined(s', Joined(s'));
    }
  }

  /** When the last thread has joined, all have. */
  lemma EverybodyJoined(s: State, joined: set<Tid>)
    requires s.round.Keys == s.pc.Keys && joined == Joined(s) && |joined| == |s.pc.Keys|
    ensures forall t | t in s.pc :: s.round[t] == s.rounds
    ensures (forall t | t in s.pc :: s.round[t] == s.rounds ==> !s.pc[t].AtBarrier?) ==> Arrivals(s) == {}
  {
    FullSubset(joined, s.pc.Keys);
    assert forall t | t in s.pc :: t in joined;
  }

  lemma ReadFlagKeepsOrder(s: State, t: Tid)
    requires Orderly(s) && Enabled(s, ReadFlag(t))
    ensures Orderly(Next(s, ReadFlag(t)))
  {
    var s', all := Next(s, ReadFlag(t)), s.arrived + {t};
    assert s.b.left == 0 && s.b.waitAtBarrier && !Through(s.pc[t]);
    assert s'.pc.Keys == s.pc.Keys;
    if |all| == s.b.count {
      FullSubset(all, s.pc.Keys);
      assert forall u | u in s.pc :: u in all;
      assert Arrivals(s') == {};
    } else {
      assert Arrivals(s') == all;
    }
  }

  lemma OthersKeepOrder(s: State, step: Step)
    requires Orderly(s) && (step.Wake? || step.Return?)
    ensures Orderly(Next(s, step))
  {
    var s' := Next(s, step);
    assert Joined(s') == Joined(s) && Arrivals(s') == Arrivals(s);
  }

  /** The steps of threads that call wait(0, 0) and are never interrupted. */
  predicate Untimed(steps: seq<Step>) {
    forall step | step in steps :: !step.TimeOut? && !step.Interrupt?
  }

  /** In every interleaving of exactly `count` threads calling wait(0, 0) the rounds stay apart. */
  lemma {:induction false} RoundsStayApart(s: State, steps: seq<Step>)
    requires Orderly(s) && Untimed(steps)
    ensures Orderly(Run(s, steps))
  {
    if steps == [] {
    } else {
      var front, last := steps[..|steps| - 1], steps[|steps| - 1];
      RoundsStayApart(s, front);
      var mid := Run(s, front);
      if Enabled(mid, last) {
        match last
        case Call(t) => if mid.b.left == 0 { CallOpensRound(mid, t); } else { CallJoinsRound(mid, t); }
        case ReadFlag(t) => ReadFlagKeepsOrder(mid, t);
        case _ => OthersKeepOrder(mid, last);
      }
    }
  }

  /** No thread is through with a round before all threads have joined it; whoever opens the next
      round finds that nobody still has to read the flag; and every call returns true. */
  lemma RoundsNeverMix(count: nat, threads: set<Tid>, flag: bool, steps: seq<Step>, t: Tid, u: Tid)
    requires 0 < count == |threads| && Untimed(steps) && t in threads && u in threads
    ensures var s := Run(Initial(count, threads, flag), steps);
            && s.round.Keys == threads && (Through(s.pc[t]) ==> s.round[u] >= s.round[t])
            && (s.pc[t].Outside? && s.b.left == 0 ==> Through(s.pc[u]))
            && (s.pc[t].Outside? ==> s.pc[t].last != Returned(false) && s.pc[t].last != Threw)
  {
    var s0 := Initial(count, threads, flag);
    assert s0.pc.Keys == threads && Arrivals(s0) == {};
    RoundsStayApart(s0, steps);
  }

  lemma {:induction false} RunFrom(s: State, step: Step, steps: seq<Step>)
    requires 0 < s.b.count
    ensures Run(s, [step] + steps) == Run(Next(s, step), steps)
    decreases |steps|
  {
    var all := [step] + steps;
    if steps == [] {
      assert all[..0] == [] && all[0] == step;
    } else {
      assert all[..|all| - 1] == [step] + steps[..|steps| - 1];
      RunFrom(s, step, steps[..|steps| - 1]);
    }
  }

  ghost function InWait(s: State): set<Tid> {
    set t | t in s.pc && s.pc[t].Waiting?
  }

  ghost function ToReadFlag(s: State): set<Tid> {
    set t | t in s.pc && s.pc[t].Leaving?
  }

  ghost function ToReturn(s: State): set<Tid> {
    set t | t in s.pc && s.pc[t].Returning?
  }

  /** What a thread of a complete round can do next, and that it brings the round closer to its end. */
  ghost predicate Advances(s: State, step: Step) {
    match step
    case Wake(t) => t in InWait(s)
    case ReadFlag(t) => InWait(s) == {} && t in ToReadFlag(s)
    case Return(t) => InWait(s) == {} && ToReadFlag(s) == {} && t in ToReturn(s)
    case _ => false
  }

  lemma SomebodyAdvances(s: State) returns (step: Step)
    requires Orderly(s) && s.b.left == 0 && exists t :: t in s.pc && !s.pc[t].Outside?
    ensures Advances(s, step)
  {
    if t :| t in InWait(s) {
      step := Wake(t);
    } else if t :| t in ToReadFlag(s) {
      step := ReadFlag(t);
    } else if t :| t in ToReturn(s) {
      step := Return(t);
    } else {
      var t :| t in s.pc && !s.pc[t].Outside?;
      assert t !in InWait(s) && t !in ToReadFlag(s) && t !in ToReturn(s) && s.pc[t].AtBarrier?;
      AllAtBarrier(s, t);
      step := Wake(t);
    }
  }

  lemma MissingOne(a: set<Tid>, b: set<Tid>) returns (x: Tid)
    requires a <= b && |a| < |b|
    ensures x in b && x !in a
  {
    assert b == a + (b - a);
    x :| x in b - a;
  }

  /** Not everybody can be blocked in the plain barrier. */
  lemma AllAtBarrier(s: State, t: Tid)
    requires Orderly(s) && s.b.left == 0 && t in s.pc && s.pc[t].AtBarrier?
    ensures InWait(s) != {} || ToReadFlag(s) != {}
  {
    assert !Through(s.pc[t]);
    var u := MissingOne(Arrivals(s), s.pc.Keys);
    assert u in InWait(s) || u in ToReadFlag(s);
  }

  lemma AdvanceShrinks(s: State, step: Step)
    requires Orderly(s) && s.b.left == 0 && Advances(s, step)
    ensures Enabled(s, step) && Untimed([step]) && !step.Call?
    ensures Orderly(Next(s, step)) && Next(s, step).b.left == 0
    ensures var s' := Next(s, step);
            || InWait(s') < InWait(s)
            || (InWait(s') == InWait(s) && ToReadFlag(s') < ToReadFlag(s))
            || (InWait(s') == InWait(s) && ToReadFlag(s') == ToReadFlag(s) && ToReturn(s') < ToReturn(s))
  {
    var s' := Next(s, step);
    match step
    case Wake(t) =>
      OthersKeepOrder(s, step);
      assert t !in InWait(s');
      assert InWait(s') <= InWait(s);
    case ReadFlag(t) =>
      ReadFlagKeepsOrder(s, t);
      assert t !in ToReadFlag(s');
      assert InWait(s') == {} && ToReadFlag(s') <= ToReadFlag(s);
    case Return(t) =>
      OthersKeepOrder(s, step);
      assert t !in ToReturn(s');
      assert InWait(s') == {} && ToReadFlag(s') == {} && ToReturn(s') <= ToReturn(s);
  }

  ghost predicate AllOutside(s: State) {
    forall t | t in s.pc :: s.pc[t].Outside?
  }

  /** Nobody is left behind: a complete round comes to its end by itself, with every thread out of wait. */
  lemma {:induction false} RoundsEnd(s: State) returns (steps: seq<Step>)
    requires Orderly(s) && s.b.left == 0
    ensures forall step | step in steps :: step.Wake? || step.ReadFlag? || step.Return?
    ensures Orderly(Run(s, steps)) && AllOutside(Run(s, steps))
    decreases InWait(s), ToReadFlag(s), ToReturn(s)
  {
    if AllOutside(s) {
      steps := [];
    } else {
      var step := SomebodyAdvances(s);
      AdvanceShrinks(s, step);
      var rest := RoundsEnd(Next(s, step));
      RunFrom(s, step, rest);
      steps := [step] + rest;
    }
  }

  lemma OutsideHaveReturned(s: State)
    requires Orderly(s) && AllOutside(s)
    ensures forall t | t in s.pc :: s.pc[t] in {Outside(NoneYet), Outside(Returned(true))}
  {
    forall t | t in s.pc ensures Through(s.pc[t]) {
      assert s.pc[t].Outside?;
    }
  }

  /** From every state that `count` threads calling wait(0, 0) can reach, once all have joined, the round
      can end, and every call of it returns true. */
  lemma EverybodyReturns(count: nat, threads: set<Tid>, flag: bool, before: seq<Step>) returns (steps: seq<Step>)
    requires 0 < count == |threads| && Untimed(before)
    requires Run(Initial(count, threads, flag), before).b.left == 0
    ensures forall step | step in steps :: step.Wake? || step.ReadFlag? || step.Return?
    ensures var r := Run(Run(Initial(count, threads, flag), before), steps);
            r.pc.Keys == threads && forall t | t in r.pc :: r.pc[t] in {Outside(NoneYet), Outside(Returned(true))}
  {
    OrderlyFromStart(count, threads, flag, before);
    var s := Run(Initial(count, threads, flag), before);
    steps := RoundsEnd(s);
    OutsideHaveReturned(Run(s, steps));
  }

  lemma OrderlyFromStart(count: nat, threads: set<Tid>, flag: bool, steps: seq<Step>)
    requires 0 < count == |threads| && Untimed(steps)
    ensures var s := Run(Initial(count, threads, flag), steps); Orderly(s) && s.pc.Keys == threads
  {
    var s0 := Initial(count, threads, flag);
    assert s0.pc.Keys == threads && Arrivals(s0) == {};
    RoundsStayApart(s0, steps);
  }

  // --- timeouts -------------------------------------------------------------

  /** Somebody gave up while threads were missing. */
  predicate Abandoned(b: Shared) {
    b.left > 0 && (b.timeout || b.interrupted)
  }

  ghost predicate Distinct(l: seq<Tid>) {
    forall i, j | 0 <= i < j < |l| :: l[i] != l[j]
  }

  /** The record lists exactly the threads that joined the current round, each once, and has as many
      entries as the counter is down. */
  ghost predicate Recorded(s: State) {
    && 0 < s.b.count && s.b.left <= s.b.count && s.round.Keys == s.pc.Keys
    && (forall t | t in s.pc :: s.round[t] <= s.rounds)
    && (s.rounds == 0 ==> s.b.left == 0 && forall t | t in s.pc :: s.pc[t].Outside?)
    && (0 < s.rounds ==>
          && |s.b.passed| == s.b.count - s.b.left && Distinct(s.b.passed)
          && forall t :: t in s.b.passed <==> t in s.round && s.round[t] == s.rounds)
    && (s.b.left > 0 && !Abandoned(s.b) ==> forall t | t in s.b.passed :: s.pc[t].Waiting?)
    && (s.b.left > 0 ==> !s.b.waitAtBarrier)
    && (forall t | t in s.arrived :: t in s.pc && s.pc[t].AtBarrier?)
  }

  lemma {:induction false} RecordIsKept(s: State, steps: seq<Step>)
    requires Recorded(s)
    ensures Recorded(Run(s, steps))
  {
    if steps == [] {
    } else {
      RecordIsKept(s, steps[..|steps| - 1]);
      StepKeepsRecord(Run(s, steps[..|steps| - 1]), steps[|steps| - 1]);
    }
  }

  /** In every run, with any number of threads, timeouts and interruptions, the record of who passed
      is right. */
  lemma PassedAreRecorded(count: nat, threads: set<Tid>, flag: bool, steps: seq<Step>)
    requires 0 < count
    ensures Recorded(Run(Initial(count, threads, flag), steps))
  {
    RecordIsKept(Initial(count, threads, flag), steps);
  }

  lemma StepKeepsRecord(s: State, step: Step)
    requires Recorded(s)
    ensures Recorded(Next(s, step))
  {
    if Enabled(s, step) {
      match step
      case Call(t) =>
        if Joins(s.b) { JoinKeepsRecord(s, t); }
      case ReadFlag(t) =>
        FlagKeepsRecord(s, t);
      case _ =>
    }
  }

  lemma FlagKeepsRecord(s: State, t: Tid)
    requires Recorded(s) && Enabled(s, ReadFlag(t))
    ensures Recorded(Next(s, ReadFlag(t)))
  {
    assert Arrive(s, t).pc.Keys == s.pc.Keys;
  }

  lemma JoinKeepsRecord(s: State, t: Tid)
    requires Recorded(s) && Enabled(s, Call(t)) && Joins(s.b)
    ensures Recorded(Next(s, Call(t)))
  {
    var s' := Next(s, Call(t));
    if s.b.left == 0 {
      assert s'.b.passed == [t];
    } else {
      assert t !in s.b.passed;
      assert s'.b.passed == s.b.passed + [t];
    }
  }

  /** An abandoned round stays open and its record frozen, whatever happens next. */
  lemma {:induction false} AbandonedIsFrozen(s: State, steps: seq<Step>)
    requires 0 < s.b.count && Abandoned(s.b)
    ensures var r := Run(s, steps);
            r.b.left == s.b.left && r.b.passed == s.b.passed && r.rounds == s.rounds
            && (s.b.timeout ==> r.b.timeout) && (s.b.interrupted ==> r.b.interrupted)
  {
    if steps == [] {
    } else {
      AbandonedIsFrozen(s, steps[..|steps| - 1]);
      AbandonedStep(Run(s, steps[..|steps| - 1]), steps[|steps| - 1]);
    }
  }

  lemma AbandonedStep(s: State, step: Step)
    requires 0 < s.b.count && Abandoned(s.b)
    ensures var r := Next(s, step);
            r.b.left == s.b.left && r.b.passed == s.b.passed && r.rounds == s.rounds
            && (s.b.timeout ==> r.b.timeout) && (s.b.interrupted ==> r.b.interrupted)
  {
  }

  /** Nobody gets blocked on an abandoned barrier: a new call returns at once, a woken thread leaves, and
      a thread that leaves passes the plain barrier by. */
  lemma AbandonedDoesNotBlock(
    count: nat, threads: set<Tid>, flag: bool, before: seq<Step>, after: seq<Step>, t: Tid)
    requires 0 < count && Abandoned(Run(Initial(count, threads, flag), before).b)
    ensures var r := Run(Run(Initial(count, threads, flag), before), after);
            && (Enabled(r, Call(t)) ==> Next(r, Call(t)) == r.(pc := r.pc[t := Outside(Returned(true))]))
            && (Enabled(r, Wake(t)) ==> Next(r, Wake(t)).pc[t] in {Leaving, Outside(Threw)})
            && (Enabled(r, ReadFlag(t)) ==> Next(r, ReadFlag(t)).pc[t] == Returning)
  {
    var s := Run(Initial(count, threads, flag), before);
    PassedAreRecorded(count, threads, flag, before);
    RecordIsKept(s, after);
    AbandonedIsFrozen(s, after);
  }

  /** After an interruption every thread that comes back from the condition variable throws, whether it was
      woken or timed out, until a new round is opened. */
  lemma InterruptThrows(s: State, t: Tid)
    requires 0 < s.b.count && Enabled(s, Wake(t))
    ensures var r := Next(s, Interrupt);
            && r.b.interrupted && r.pc == s.pc
            && Next(r, Wake(t)).pc[t] == Outside(Threw) && Next(r, TimeOut(t)).pc[t] == Outside(Threw)
            && Next(r, Wake(t)).b.interrupted
  {
  }

  /** Once a round is complete, record and timeout flag stay as they are until the next call. */
  lemma {:induction false} CompleteIsFrozen(s: State, steps: seq<Step>)
    requires 0 < s.b.count && s.b.left == 0 && forall step | step in steps :: !step.Call?
    ensures var r := Run(s, steps); r.b.left == 0 && r.b.passed == s.b.passed && (s.b.timeout ==> r.b.timeout)
  {
    if steps == [] {
    } else {
      var front, last := steps[..|steps| - 1], steps[|steps| - 1];
      assert forall step | step in front :: step in steps;
      CompleteIsFrozen(s, front);
      CompleteStep(Run(s, front), last);
    }
  }

  lemma CompleteStep(s: State, step: Step)
    requires 0 < s.b.count && s.b.left == 0 && !step.Call?
    ensures var r := Next(s, step); r.b.left == 0 && r.b.passed == s.b.passed && (s.b.timeout ==> r.b.timeout)
  {
  }

  lemma FrozenAfterTimeout(s: State, t: Tid, after: seq<Step>)
    requires 0 < s.b.count && Enabled(s, TimeOut(t))
    requires s.b.left > 0 || forall step | step in after :: !step.Call?
    ensures var r := Run(Next(s, TimeOut(t)), after); r.b.passed == s.b.passed && r.b.timeout
  {
    var s' := Next(s, TimeOut(t));
    assert s'.b.timeout && s'.b.left == s.b.left && s'.b.passed == s.b.passed && s'.b.count == s.b.count;
    if s.b.left > 0 {
      AbandonedIsFrozen(s', after);
    } else {
      CompleteIsFrozen(s', after);
    }
  }

  /** If a caller gives up waiting, the passed list from then on names exactly the threads that have joined
      the round by that time, and whoever returns through the wait loop returns false: for good if
      threads were missing, and until the next call if the round had just become complete. */
  lemma TimeoutRecordsArrivals(
    count: nat, threads: set<Tid>, flag: bool, before: seq<Step>, t: Tid, after: seq<Step>, u: Tid)
    requires 0 < count
    requires var s := Run(Initial(count, threads, flag), before);
             Enabled(s, TimeOut(t)) && (s.b.left > 0 || forall step | step in after :: !step.Call?)
    ensures var s := Run(Initial(count, threads, flag), before);
            var r := Run(Next(s, TimeOut(t)), after);
            && (forall v :: v in r.b.passed <==> v in Joined(s))
            && Distinct(r.b.passed) && |r.b.passed| == count - s.b.left
            && (Enabled(r, Return(u)) ==> Next(r, Return(u)).pc[u] == Outside(Returned(false)))
  {
    PassedAreRecorded(count, threads, flag, before);
    FrozenAfterTimeout(Run(Initial(count, threads, flag), before), t, after);
  }
}
