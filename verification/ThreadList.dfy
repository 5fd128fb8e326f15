/** Lists of threads that are woken up together, and the bookkeeping of those that miss the deadline. */
module ThreadList {
  import opened Options
  import Barrier

  const FLAG_BAD: bv32 := 0x0000_0001

  class Thread {
    const id: Barrier.Tid
    var flags: bv32

    constructor (i: Barrier.Tid)
      ensures id == i && flags == 0
    {
      id, flags := i, 0;
    }

    predicate FlaggedBad()
      reads this
    {
      flags & FLAG_BAD != 0
    }

    method SetFlag(flag: bv32)
      modifies this
      ensures flags == old(flags) | flag
    {
      flags := flags | flag;
    }

    method UnsetFlag(flag: bv32)
      modifies this
      ensures flags == old(flags) & (0xFFFF_FFFF ^ flag)
    {
      flags := flags & (0xFFFF_FFFF ^ flag);
    }

    method FlagBad()
      modifies this
      ensures FlaggedBad() && flags == old(flags) | FLAG_BAD
    {
      SetBad(flags);
      SetFlag(FLAG_BAD);
    }

    method ClearBad()
      modifies this
      ensures !FlaggedBad() && flags == old(flags) & (0xFFFF_FFFF ^ FLAG_BAD)
    {
      UnsetBad(flags);
      UnsetFlag(FLAG_BAD);
    }
  }

  lemma SetBad(f: bv32)
    ensures (f | FLAG_BAD) & FLAG_BAD != 0
  {
  }

  lemma UnsetBad(f: bv32)
    ensures (f & (0xFFFF_FFFF ^ FLAG_BAD)) & FLAG_BAD == 0
  {
  }

  /** A barrier that was left behind by a timeout, and the threads that did not reach it. */
  datatype BadBarrier = BadBarrier(threads: seq<Thread>)

  datatype WakeupResult = Woken | WakeupFailed | CountDiffers
  datatype WaitResult = NoBarrier | WakeupThrew | InTime | TimedOut

  function Set(l: seq<Thread>): set<Thread> {
    set t | t in l
  }

  /** The elements of the list that are (or are not) in the set, in order. */
  function Those(l: seq<Thread>, s: set<Thread>, inside: bool): seq<Thread> {
    if l == [] then []
    else
      var rest, last := Those(l[..|l| - 1], s, inside), l[|l| - 1];
      if (last in s) == inside then rest + [last] else rest
  }

  /** The elements of the list that are not in the record of a barrier, in order. */
  function Late(l: seq<Thread>, passed: seq<Barrier.Tid>): seq<Thread> {
    if l == [] then []
    else
      var rest, last := Late(l[..|l| - 1], passed), l[|l| - 1];
      if last.id in passed then rest else rest + [last]
  }

  lemma {:induction false} LateAre(l: seq<Thread>, passed: seq<Barrier.Tid>)
    ensures Set(Late(l, passed)) == set t | t in l && t.id !in passed
  {
    if l == [] {
    } else {
      var rest, last := l[..|l| - 1], l[|l| - 1];
      LateAre(rest, passed);
      SetAppend(rest, last);
      SetAppend(Late(rest, passed), last);
      assert l == rest + [last];
    }
  }

  /** Both selections go through the list in order, element by element. */
  lemma {:induction false} SelectionsAreInOrder(
    l: seq<Thread>, l': seq<Thread>, t: Thread, s: set<Thread>, inside: bool, passed: seq<Barrier.Tid>)
    ensures Those(l + l', s, inside) == Those(l, s, inside) + Those(l', s, inside)
    ensures Late(l + l', passed) == Late(l, passed) + Late(l', passed)
    ensures Those([t], s, inside) == if (t in s) == inside then [t] else []
    ensures Late([t], passed) == if t.id in passed then [] else [t]
    decreases |l'|
  {
    assert [t][..0] == [];
    if l' == [] {
      assert l + l' == l;
    } else {
      assert (l + l')[..|l + l'| - 1] == l + l'[..|l'| - 1];
      SelectionsAreInOrder(l, l'[..|l'| - 1], t, s, inside, passed);
    }
  }

  /** With the record of a barrier on which the caller has timed out, the late ones are exactly the listed
      threads that had not joined the round when it timed out: whatever has happened since if threads
      were missing, and as long as nobody has called again if the last one had just arrived. */
  lemma LateAreAbsent(
    l: seq<Thread>, count: nat, threads: set<Barrier.Tid>, flag: bool,
    before: seq<Barrier.Step>, caller: Barrier.Tid, after: seq<Barrier.Step>)
    requires 0 < count
    requires var s := Barrier.Run(Barrier.Initial(count, threads, flag), before);
             && Barrier.Enabled(s, Barrier.TimeOut(caller))
             && (s.b.left > 0 || forall step | step in after :: !step.Call?)
    ensures var s := Barrier.Run(Barrier.Initial(count, threads, flag), before);
            var r := Barrier.Run(Barrier.Next(s, Barrier.TimeOut(caller)), after);
            Set(Late(l, r.b.passed)) == set t | t in l && t.id !in Barrier.Joined(s)
  {
    var s := Barrier.Run(Barrier.Initial(count, threads, flag), before);
    var r := Barrier.Run(Barrier.Next(s, Barrier.TimeOut(caller)), after);
    Barrier.TimeoutRecordsArrivals(count, threads, flag, before, caller, after, caller);
    LateAre(l, r.b.passed);
  }

  lemma {:induction false} ThoseAre(l: seq<Thread>, s: set<Thread>, inside: bool)
    ensures Set(Those(l, s, inside)) == set t | t in l && (t in s) == inside
  {
    if l == [] {
    } else {
      var rest, last := l[..|l| - 1], l[|l| - 1];
      ThoseAre(rest, s, inside);
      SetAppend(rest, last);
      SetAppend(Those(rest, s, inside), last);
      assert l == rest + [last];
    }
  }

  /** The positions of the list whose threads are not in the set. */
  ghost function Places(l: seq<Thread>, s: set<Thread>): set<int> {
    set i | 0 <= i < |l| && l[i] !in s
  }

  lemma {:induction false} ThoseCount(l: seq<Thread>, s: set<Thread>)
    ensures |Those(l, s, false)| == |Places(l, s)|
  {
    if l == [] {
      assert Places(l, s) == {};
    } else {
      var n := |l| - 1;
      ThoseCount(l[..n], s);
      assert Places(l, s) == Places(l[..n], s) + (if l[n] in s then {} else {n});
    }
  }

  lemma SetAppend(l: seq<Thread>, t: Thread)
    ensures Set(l + [t]) == Set(l) + {t}
  {
  }

  lemma SetConcat(l: seq<Thread>, l': seq<Thread>)
    ensures Set(l + l') == Set(l) + Set(l')
  {
  }

  /** The threads recorded in some bad list. */
  ghost function Recorded(bad: seq<BadBarrier>): set<Thread> {
    set b, t | b in bad && t in b.threads :: t
  }

  /** The bad lists after the threads `waiting` have been taken out. */
  function Recovered(bad: seq<BadBarrier>, waiting: set<Thread>): seq<BadBarrier> {
    if bad == [] then []
    else
      var front := Recovered(bad[..|bad| - 1], waiting);
      var left := Those(bad[|bad| - 1].threads, waiting, false);
      if left == [] then front else front + [BadBarrier(left)]
  }

  /** The threads taken out, in the order in which they are met. */
  function Leaving(bad: seq<BadBarrier>, waiting: set<Thread>): seq<Thread> {
    if bad == [] then []
    else Leaving(bad[..|bad| - 1], waiting) + Those(bad[|bad| - 1].threads, waiting, true)
  }

  lemma {:induction false} RecoveredRecords(bad: seq<BadBarrier>, waiting: set<Thread>)
    ensures Recorded(Recovered(bad, waiting)) == Recorded(bad) - waiting
    ensures Set(Leaving(bad, waiting)) == Recorded(bad) * waiting
  {
    if bad == [] {
    } else {
      var n := |bad| - 1;
      var left, gone := Those(bad[n].threads, waiting, false), Those(bad[n].threads, waiting, true);
      RecoveredRecords(bad[..n], waiting);
      RecordedAppend(bad[..n], bad[n]);
      assert bad == bad[..n] + [bad[n]];
      ThoseAre(bad[n].threads, waiting, false);
      ThoseAre(bad[n].threads, waiting, true);
      forall t ensures t in Set(left) <==> t in Set(bad[n].threads) && t !in waiting {
        assert t in Set(bad[n].threads) <==> t in bad[n].threads;
      }
      if left != [] {
        RecordedAppend(Recovered(bad[..n], waiting), BadBarrier(left));
      }
      SetConcat(Leaving(bad[..n], waiting), gone);
    }
  }

  lemma NobodyStays(l: seq<Thread>, waiting: set<Thread>)
    ensures Those(l, waiting, false) == [] <==> forall t :: t in l ==> t in waiting
  {
    ThoseAre(l, waiting, false);
    if t :| t in l && t !in waiting {
      assert t in Set(Those(l, waiting, false));
    }
    if Those(l, waiting, false) != [] {
      assert Those(l, waiting, false)[0] in Set(Those(l, waiting, false));
    }
  }

  /** The bad lists are gone through in order; one that all threads leave is dropped, and the others keep
      the threads that stay. */
  lemma {:induction false} RecoveredInOrder(
    bad: seq<BadBarrier>, bad': seq<BadBarrier>, b: BadBarrier, waiting: set<Thread>)
    ensures Recovered(bad + bad', waiting) == Recovered(bad, waiting) + Recovered(bad', waiting)
    ensures Leaving(bad + bad', waiting) == Leaving(bad, waiting) + Leaving(bad', waiting)
    ensures Recovered([b], waiting) ==
            if forall t :: t in b.threads ==> t in waiting then [] else [BadBarrier(Those(b.threads, waiting, false))]
    decreases |bad'|
  {
    assert [b][..0] == [];
    NobodyStays(b.threads, waiting);
    if bad' == [] {
      assert bad + bad' == bad;
    } else {
      assert (bad + bad')[..|bad + bad'| - 1] == bad + bad'[..|bad'| - 1];
      RecoveredInOrder(bad, bad'[..|bad'| - 1], b, waiting);
    }
  }

  lemma KnownBad(bad: seq<BadBarrier>, i: nat)
    requires i < |bad|
    ensures forall t | t in bad[i].threads :: t in Recorded(bad)
  {
    assert bad[i] in bad;
  }

  lemma NothingRecovered(bad: seq<BadBarrier>, waiting: set<Thread>)
    requires Leaving(bad, waiting) == []
    ensures Recorded(Recovered(bad, waiting)) == Recorded(bad)
  {
    RecoveredRecords(bad, waiting);
    forall t | t in Recorded(bad) ensures t !in waiting {
      assert t in waiting ==> t in Recorded(bad) * waiting;
    }
  }

  /** `left` is the list `l` with the waiting threads among its first `k` elements taken out, and `i`
      the position after the others. */
  ghost predicate PartlyOut(
    l: seq<Thread>, k: nat, waiting: set<Thread>, left: seq<Thread>, i: nat, gone: seq<Thread>)
  {
    && k <= |l| && i <= |left|
    && left[..i] == Those(l[..k], waiting, false) && left[i..] == l[k..]
    && gone == Those(l[..k], waiting, true)
  }

  lemma OneTakenOut(l: seq<Thread>, k: nat, waiting: set<Thread>, left: seq<Thread>, i: nat, gone: seq<Thread>)
    requires i < |left| && left[i] in waiting && PartlyOut(l, k, waiting, left, i, gone)
    ensures k < |l| && left[i] == l[k] && PartlyOut(l, k + 1, waiting, left[..i] + left[i + 1..], i, gone + [left[i]])
  {
    assert |left[i..]| == |l[k..]|;
    assert l[..k + 1][..k] == l[..k] && left[i..][0] == l[k..][0];
    assert left[i + 1..] == left[i..][1..] && l[k + 1..] == l[k..][1..];
    assert (left[..i] + left[i + 1..])[i..] == left[i + 1..];
  }

  lemma OnePassedOver(l: seq<Thread>, k: nat, waiting: set<Thread>, left: seq<Thread>, i: nat, gone: seq<Thread>)
    requires i < |left| && left[i] !in waiting && PartlyOut(l, k, waiting, left, i, gone)
    ensures k < |l| && left[i] == l[k] && PartlyOut(l, k + 1, waiting, left, i + 1, gone)
  {
    assert |left[i..]| == |l[k..]|;
    assert l[..k + 1][..k] == l[..k] && left[i..][0] == l[k..][0];
    assert left[i + 1..] == left[i..][1..] && l[k + 1..] == l[k..][1..];
    assert left[..i + 1] == left[..i] + [left[i]];
  }

  lemma AllSeen(l: seq<Thread>, k: nat, waiting: set<Thread>, left: seq<Thread>, i: nat, gone: seq<Thread>)
    requires PartlyOut(l, k, waiting, left, i, gone) && i == |left|
    ensures left == Those(l, waiting, false) && gone == Those(l, waiting, true)
  {
    assert left[i..] == [] && l[..k] == l;
  }

  lemma RecordedAppend(bad: seq<BadBarrier>, b: BadBarrier)
    ensures Recorded(bad + [b]) == Recorded(bad) + Set(b.threads)
  {
    forall t | t in Recorded(bad) + Set(b.threads) ensures t in Recorded(bad + [b]) {
      if t in b.threads {
        assert b in bad + [b];
      } else {
        var c :| c in bad && t in c.threads;
        assert c in bad + [b];
      }
    }
  }

  class ThreadList {
    var threads: seq<Thread>
    var sealed: bool
    var barrier: Option<nat>          // the count of the maintained barrier
    var badBarriers: seq<BadBarrier>
    ghost const known: set<Thread>    // the threads whose flags only this list changes

    /** A known thread is flagged bad exactly if some bad list has it, and a maintained barrier counts
        the unflagged threads and the caller. */
    ghost predicate Valid()
      reads this, known
    {
      Flagged() && (barrier.Some? ==> barrier.value == 1 + |Good()|)
    }

    ghost predicate Flagged()
      reads this, known
    {
      && (forall t | t in threads :: t in known)
      && Recorded(badBarriers) <= known
      && (forall t | t in known :: t.FlaggedBad() <==> t in Recorded(badBarriers))
    }

    /** The listed threads that are in no bad list. */
    ghost function Good(): seq<Thread>
      reads this
    {
      Those(threads, Recorded(badBarriers), false)
    }

    constructor (maintainBarrier: bool, ghost all: set<Thread>)
      requires forall t | t in all :: !t.FlaggedBad()
      ensures Valid() && known == all && threads == [] && !sealed && badBarriers == []
      ensures barrier.Some? <==> maintainBarrier
    {
      threads, sealed, badBarriers := [], false, [];
      known := all;
      barrier := if maintainBarrier then Some(1) else None;
    }

    method UpdateBarrier()
      requires Flagged()
      modifies this`barrier
      ensures barrier == Some(1 + |Good()|)
      ensures barrier == Some(1 + |set i | 0 <= i < |threads| && !threads[i].FlaggedBad()|)
    {
      var num := 1;
      for i := 0 to |threads|
        invariant num == 1 + |Those(threads[..i], Recorded(badBarriers), false)|
      {
        assert threads[..i + 1][..i] == threads[..i];
        if !threads[i].FlaggedBad() {
          num := num + 1;
        }
      }
      assert threads[..|threads|] == threads;
      ThoseCount(threads, Recorded(badBarriers));
      barrier := Some(num);
      assert (set i | 0 <= i < |threads| && !threads[i].FlaggedBad()) == Places(threads, Recorded(badBarriers));
    }

    /** The tail of every mutator. */
    method Changed(l: seq<Thread>)
      requires Valid() && forall t | t in l :: t in known
      modifies this`threads, this`barrier
      ensures Valid() && threads == l && (barrier.Some? <==> old(barrier).Some?)
    {
      threads := l;
      if barrier.Some? {
        UpdateBarrier();
      }
    }

    method PushFront(thread: Thread) returns (ok: bool)
      requires Valid() && thread in known
      modifies this`threads, this`barrier
      ensures Valid() && (ok <==> !sealed) && (barrier.Some? <==> old(barrier).Some?)
      ensures threads == if ok then [thread] + old(threads) else old(threads)
    {
      ok := !sealed;
      if ok {
        Changed([thread] + threads);
      }
    }

    method PushBack(thread: Thread) returns (ok: bool)
      requires Valid() && thread in known
      modifies this`threads, this`barrier
      ensures Valid() && (ok <==> !sealed) && (barrier.Some? <==> old(barrier).Some?)
      ensures threads == if ok then old(threads) + [thread] else old(threads)
    {
      ok := !sealed;
      if ok {
        Changed(threads + [thread]);
      }
    }

    method Clear() returns (ok: bool)
      requires Valid()
      modifies this`threads, this`barrier
      ensures Valid() && (ok <==> !sealed) && (barrier.Some? <==> old(barrier).Some?)
      ensures threads == if ok then [] else old(threads)
    {
      ok := !sealed;
      if ok {
        Changed([]);
      }
    }

    /** Removes every occurrence. */
    method Remove(thread: Thread) returns (ok: bool)
      requires Valid()
      modifies this`threads, this`barrier
      ensures Valid() && (ok <==> !sealed) && (barrier.Some? <==> old(barrier).Some?)
      ensures threads == if ok then Those(old(threads), {thread}, false) else old(threads)
    {
      ok := !sealed;
      if ok {
        ThoseAre(threads, {thread}, false);
        forall t | t in Those(threads, {thread}, false) ensures t in known {
          assert t in Set(Those(threads, {thread}, false));
        }
        Changed(Those(threads, {thread}, false));
      }
    }

    /** pop_front, pop_back and erase. */
    method EraseAt(pos: nat) returns (ok: bool)
      requires Valid() && pos < |threads|
      modifies this`threads, this`barrier
      ensures Valid() && (ok <==> !sealed) && (barrier.Some? <==> old(barrier).Some?)
      ensures threads == if ok then old(threads)[..pos] + old(threads)[pos + 1..] else old(threads)
    {
      ok := !sealed;
      if ok {
        Changed(threads[..pos] + threads[pos + 1..]);
      }
    }

    method SetMaintainBarrier(maintain: bool)
      requires Valid()
      modifies this`barrier
      ensures Valid() && (barrier.Some? <==> maintain)
    {
      barrier := None;
      if maintain {
        UpdateBarrier();
      }
    }

    /** wakeup_unlocked(barrier) for a barrier of the given count; waking the threads `throwing` fails.
        `called` are the threads whose wakeup(barrier) was called. */
    method WakeupUnlocked(count: nat, throwing: set<Thread>) returns (r: WakeupResult, called: seq<Thread>)
      requires Flagged()
      ensures called == Good()
      ensures forall t :: t in called <==> t in threads && !t.FlaggedBad()
      ensures r.WakeupFailed? <==> exists t :: t in threads && t in throwing && !t.FlaggedBad()
      ensures r.CountDiffers? <==> !r.WakeupFailed? && count != 1 + |Good()|
    {
      var failed, n := false, 1;
      called := [];
      for i := 0 to |threads|
        invariant n == 1 + |called| && called == Those(threads[..i], Recorded(badBarriers), false)
        invariant failed <==> exists t :: t in threads[..i] && t in throwing && !t.FlaggedBad()
      {
        assert threads[..i + 1][..i] == threads[..i] && threads[..i + 1] == threads[..i] + [threads[i]];
        if !threads[i].FlaggedBad() {
          if threads[i] in throwing {
            failed := true;
          }
          called := called + [threads[i]];
          n := n + 1;
        }
      }
      assert threads[..|threads|] == threads;
      ThoseAre(threads, Recorded(badBarriers), false);
      forall t ensures t in called <==> t in Set(called) {
      }
      r := if failed then WakeupFailed else if n != count then CountDiffers else Woken;
    }

    /** wakeup_and_wait(); `passed` is None if the barrier's wait returned true, and otherwise the
        record of the threads that had arrived when it timed out. */
    method WakeupAndWait(throwing: set<Thread>, passed: Option<seq<Barrier.Tid>>)
        returns (r: WaitResult, bad: seq<Thread>)
      requires Valid()
      modifies this`barrier, this`badBarriers, threads
      ensures Valid()
      ensures r.NoBarrier? <==> old(barrier).None?
      ensures r.WakeupThrew? <==>
                old(barrier).Some? && exists t :: t in threads && t in throwing && !old(t.FlaggedBad())
      ensures r.TimedOut? <==> passed.Some? && !r.NoBarrier? && !r.WakeupThrew?
      ensures bad == if r.TimedOut? then Late(threads, passed.value) else []
      ensures forall t | t in known :: t.FlaggedBad() <==> old(t.FlaggedBad()) || t in bad
      ensures badBarriers == if r.TimedOut? then old(badBarriers) + [BadBarrier(bad)] else old(badBarriers)
      ensures barrier.Some? <==> old(barrier).Some?
    {
      bad := [];
      if barrier.None? {
        return NoBarrier, bad;
      }
      var woken, called := WakeupUnlocked(barrier.value, throwing);
      if woken != Woken {
        return WakeupThrew, bad;
      }
      if passed.None? {
        return InTime, bad;
      }
      bad := FlagMissing(passed.value);
      LateAre(threads, passed.value);
      forall t | t in bad ensures t in known {
        assert t in Set(bad);
      }
      RecordBad(bad);
      r := TimedOut;
    }

    /** The loop that flags the threads that did not arrive. */
    method FlagMissing(passed: seq<Barrier.Tid>) returns (bad: seq<Thread>)
      requires forall t | t in threads :: t in known
      modifies threads
      ensures bad == Late(threads, passed)
      ensures forall t | t in known :: t.FlaggedBad() <==> old(t.FlaggedBad()) || t in bad
    {
      bad := [];
      for i := 0 to |threads|
        invariant bad == Late(threads[..i], passed)
        invariant forall t | t in known :: t.FlaggedBad() <==> old(t.FlaggedBad()) || t in bad
      {
        assert threads[..i + 1][..i] == threads[..i];
        if threads[i].id !in passed {
          bad := bad + [threads[i]];
          threads[i].FlagBad();
        }
      }
      assert threads[..|threads|] == threads;
    }

    /** The barrier that timed out is left to the late threads, and a new one is set up. */
    method RecordBad(bad: seq<Thread>)
      requires (forall t | t in threads || t in bad :: t in known) && Recorded(badBarriers) <= known
      requires forall t | t in known :: t.FlaggedBad() <==> t in Recorded(badBarriers) || t in bad
      modifies this`barrier, this`badBarriers
      ensures Valid() && barrier.Some? && badBarriers == old(badBarriers) + [BadBarrier(bad)]
    {
      RecordedAppend(badBarriers, BadBarrier(bad));
      badBarriers := badBarriers + [BadBarrier(bad)];
      barrier := None;
      UpdateBarrier();
    }

    /** try_recover(); `waiting` are the threads whose waiting() is true during the call. */
    method TryRecover(waiting: set<Thread>) returns (recovered: seq<Thread>)
      requires Valid()
      modifies this`barrier, this`badBarriers, known
      ensures Valid()
      ensures badBarriers == Recovered(old(badBarriers), waiting)
      ensures recovered == Leaving(old(badBarriers), waiting)
      ensures Recorded(badBarriers) !! waiting
      ensures barrier.Some? <==> old(barrier).Some? || recovered != []
    {
      ghost var all := badBarriers;
      var left: seq<BadBarrier>;
      left, recovered := RecoverAll(waiting);
      RecoveredRecords(all, waiting);
      badBarriers := left;
      if recovered != [] {
        UpdateBarrier();
      } else {
        NothingRecovered(all, waiting);
      }
    }

    /** The outer loop of try_recover over the bad lists. */
    method RecoverAll(waiting: set<Thread>) returns (left: seq<BadBarrier>, recovered: seq<Thread>)
      requires Flagged()
      modifies known
      ensures left == Recovered(badBarriers, waiting) && recovered == Leaving(badBarriers, waiting)
      ensures forall t | t in known :: t.FlaggedBad() <==> old(t.FlaggedBad()) && t !in Set(recovered)
    {
      left, recovered := [], [];
      for i := 0 to |badBarriers|
        invariant left == Recovered(badBarriers[..i], waiting) && recovered == Leaving(badBarriers[..i], waiting)
        invariant forall t | t in known :: t.FlaggedBad() <==> old(t.FlaggedBad()) && t !in Set(recovered)
      {
        assert badBarriers[..i + 1][..i] == badBarriers[..i];
        KnownBad(badBarriers, i);
        var late, gone := RecoverOne(badBarriers[i].threads, waiting);
        SetConcat(recovered, gone);
        recovered := recovered + gone;
        if late != [] {
          left := left + [BadBarrier(late)];
        }
      }
      assert badBarriers[..|badBarriers|] == badBarriers;
    }

    /** The inner loop of try_recover over one bad list. */
    method RecoverOne(l: seq<Thread>, waiting: set<Thread>) returns (left: seq<Thread>, gone: seq<Thread>)
      requires forall t | t in l :: t in known
      modifies known
      ensures left == Those(l, waiting, false) && gone == Those(l, waiting, true)
      ensures forall t | t in known :: t.FlaggedBad() <==> old(t.FlaggedBad()) && t !in Set(gone)
    {
      left, gone := l, [];
      var i: nat := 0;
      ghost var k: nat := 0;  // elements of `l` seen
      while i < |left|
        invariant PartlyOut(l, k, waiting, left, i, gone)
        invariant forall t | t in known :: t.FlaggedBad() <==> old(t.FlaggedBad()) && t !in Set(gone)
        decreases |l| - k
        modifies known
      {
        if left[i] in waiting {
          OneTakenOut(l, k, waiting, left, i, gone);
          left[i].ClearBad();
          SetAppend(gone, left[i]);
          gone := gone + [left[i]];
          left := left[..i] + left[i + 1..];
        } else {
          OnePassedOver(l, k, waiting, left, i, gone);
          i := i + 1;
        }
        k := k + 1;
      }
      AllSeen(l, k, waiting, left, i, gone);
    }
  }
}
