/** Runs of setters and erasures, with the overrides as the host file has them, on the leaf maps. */
module ConfigRuns {
  import opened ConfigTree
  import opened ConfigOverlay
  import opened Options
  import opened ConfigOverrides

  /** The trees in memory, and the overrides as they were written last. */
  datatype Kept = Kept(now: Trees, stored: Tree)

  /** What a reload starts from beside the base files. */
  ghost function Written(k: Kept): Trees {
    Trees(k.now.root, k.stored)
  }

  ghost function NextKept(conv: Converters, k: Kept, op: Op): Kept {
    var s := Next(conv, k.now, op);
    Kept(s, if Succeeds(conv, k.now, op) then s.host else k.stored)
  }

  /** The state after the first `n` calls. */
  ghost function At(conv: Converters, k: Kept, ops: seq<Op>, n: nat): Kept
    requires n <= |ops|
    decreases n
  {
    if n == 0 then k else NextKept(conv, At(conv, k, ops, n - 1), ops[n - 1])
  }

  /** Over every run of plain calls the overrides stay visible and nothing visible is made up. */
  lemma {:induction false} RunKeeps(conv: Converters, base: Tree, k: Kept, ops: seq<Op>, n: nat)
    requires n <= |ops| && Consistent(base, k.now) && forall op | op in ops :: Plain(conv, op)
    ensures Consistent(base, At(conv, k, ops, n).now)
    decreases n
  {
    if n == 0 {
    } else {
      RunKeeps(conv, base, k, ops, n - 1);
      NextKeeps(conv, base, At(conv, k, ops, n - 1).now, ops[n - 1]);
    }
  }

  /** Every visible leaf and every override, in memory or written, is accounted for. */
  ghost predicate Tracked(conv: Converters, base: Tree, k: Kept) {
    && Sane(conv, k.now) && Typed(conv, k.stored)
    && Traceable(conv, base, k.now) && Traceable(conv, base, Written(k))
  }

  lemma NextKeepsTracked(conv: Converters, base: Tree, k: Kept, op: Op)
    requires Tracked(conv, base, k)
    ensures Tracked(conv, base, NextKept(conv, k, op))
  {
    NextKeepsSane(conv, k.now, op);
    match op
    case Set(p, text) =>
      if Inner(k.now.host, p) { CoveredInner(k.now, p); }
      SetKeepsTrace(conv, base, k.now, p, text);
      if conv.Classify(text).None? {
        SetKeepsTrace(conv, base, Written(k), p, text);
      }
    case Erase(p) =>
      EraseKeepsTrace(conv, base, k.now, p);
      if !Succeeds(conv, k.now, op) {
        RefusedErase(conv, k.now, p);
      }
  }

  /** An erasure that does not go through leaves what is visible alone. */
  lemma RefusedErase(conv: Converters, s: Trees, p: Path)
    requires PrefixFree(s.host) && PrefixFree(s.root) && !Succeeds(conv, s, Erase(p))
    ensures Next(conv, s, Erase(p)).root == s.root
  {
    if p in s.host {
      assert !Inner(s.host, p);
    }
  }

  lemma {:induction false} RunKeepsTrace(conv: Converters, base: Tree, k: Kept, ops: seq<Op>, n: nat)
    requires n <= |ops| && Tracked(conv, base, k)
    ensures Tracked(conv, base, At(conv, k, ops, n))
    decreases n
  {
    if n == 0 {
    } else {
      RunKeepsTrace(conv, base, k, ops, n - 1);
      NextKeepsTracked(conv, base, At(conv, k, ops, n - 1), ops[n - 1]);
    }
  }

  // --- what single calls do to a path ---------------------------------------

  /** The path becomes a visible leaf, or stops being one; its text has no kind; either of the first two;
      it becomes an override, or stops being one. */
  datatype Effect = Shown | Hidden | Tearing | Replaced | Overridden | Dropped

  ghost predicate Shows(s: Trees, op: Op, x: Path) {
    op.Set? && op.path == x && x != Top && Accepted(s, op)
  }

  ghost predicate Hides(conv: Converters, s: Trees, op: Op, x: Path) {
    match op
    case Set(p, _) => Above(x, p) && Accepted(s, op)
    case Erase(p) => p == x && Succeeds(conv, s, op)
  }

  ghost predicate Drops(conv: Converters, s: Trees, op: Op, x: Path) {
    match op
    case Set(p, _) => Above(x, p) && Succeeds(conv, s, op)
    case Erase(p) => p == x && Accepted(s, op)
  }

  ghost predicate HasOn(conv: Converters, s: Trees, op: Op, f: Effect, x: Path) {
    match f
    case Shown => Shows(s, op, x)
    case Hidden => Hides(conv, s, op, x)
    case Tearing => Shows(s, op, x) && conv.Classify(op.text).None?
    case Replaced => Shows(s, op, x) || Hides(conv, s, op, x)
    case Overridden => Shows(s, op, x) && Succeeds(conv, s, op)
    case Dropped => Drops(conv, s, op, x)
  }

  ghost predicate TornAt(conv: Converters, l: Tree, x: Path) {
    x in l && Torn(conv, l[x])
  }

  lemma OneCall(conv: Converters, s: Trees, op: Op, x: Path)
    requires PrefixFree(s.root) && PrefixFree(s.host)
    ensures var s' := Next(conv, s, op);
            && (x in s'.root <==> HasOn(conv, s, op, Shown, x) || (x in s.root && !HasOn(conv, s, op, Hidden, x)))
            && (TornAt(conv, s'.root, x) <==>
                  HasOn(conv, s, op, Tearing, x) || (TornAt(conv, s.root, x) && !HasOn(conv, s, op, Replaced, x)))
            && (x in s'.host <==>
                  HasOn(conv, s, op, Overridden, x) || (x in s.host && !HasOn(conv, s, op, Dropped, x)))
  {
    assert x in s.root ==> x != Top && !Inner(s.root, x);
    assert x in s.host ==> x != Top && !Inner(s.host, x);
    if Above(x, x) { AboveIsShallower(x, x); }
  }

  lemma NotBoth(conv: Converters, s: Trees, op: Op, x: Path)
    ensures !(HasOn(conv, s, op, Shown, x) && HasOn(conv, s, op, Hidden, x))
  {
    if Above(x, x) { AboveIsShallower(x, x); }
  }

  // --- which calls of a run do so last --------------------------------------

  ghost predicate Has(conv: Converters, k: Kept, ops: seq<Op>, i: nat, f: Effect, x: Path)
    requires i < |ops|
  {
    HasOn(conv, At(conv, k, ops, i).now, ops[i], f, x)
  }

  ghost predicate NoneSince(conv: Converters, k: Kept, ops: seq<Op>, i: nat, n: nat, g: Effect, x: Path)
    requires n <= |ops|
  {
    forall j | i < j < n :: !Has(conv, k, ops, j, g, x)
  }

  /** Of the first `n` calls one has the effect `f` on `x`, and none after it the effect `g`. */
  ghost predicate Last(conv: Converters, k: Kept, ops: seq<Op>, n: nat, f: Effect, g: Effect, x: Path)
    requires n <= |ops|
  {
    exists i :: 0 <= i < n && Has(conv, k, ops, i, f, x) && NoneSince(conv, k, ops, i, n, g, x)
  }

  lemma LastOfMore(conv: Converters, k: Kept, ops: seq<Op>, n: nat, f: Effect, g: Effect, x: Path)
    requires n < |ops|
    ensures Last(conv, k, ops, n + 1, f, g, x) <==>
            Has(conv, k, ops, n, f, x) || (Last(conv, k, ops, n, f, g, x) && !Has(conv, k, ops, n, g, x))
  {
    if Has(conv, k, ops, n, f, x) {
      assert NoneSince(conv, k, ops, n, n + 1, g, x);
    } else if Last(conv, k, ops, n, f, g, x) && !Has(conv, k, ops, n, g, x) {
      LastStays(conv, k, ops, n, f, g, x);
    } else if Last(conv, k, ops, n + 1, f, g, x) {
      LastWasBefore(conv, k, ops, n, f, g, x);
    }
  }

  lemma LastStays(conv: Converters, k: Kept, ops: seq<Op>, n: nat, f: Effect, g: Effect, x: Path)
    requires n < |ops| && Last(conv, k, ops, n, f, g, x) && !Has(conv, k, ops, n, g, x)
    ensures Last(conv, k, ops, n + 1, f, g, x)
  {
    var i :| 0 <= i < n && Has(conv, k, ops, i, f, x) && NoneSince(conv, k, ops, i, n, g, x);
    assert NoneSince(conv, k, ops, i, n + 1, g, x);
  }

  lemma LastWasBefore(conv: Converters, k: Kept, ops: seq<Op>, n: nat, f: Effect, g: Effect, x: Path)
    requires n < |ops| && Last(conv, k, ops, n + 1, f, g, x) && !Has(conv, k, ops, n, f, x)
    ensures Last(conv, k, ops, n, f, g, x) && !Has(conv, k, ops, n, g, x)
  {
    var i :| 0 <= i < n + 1 && Has(conv, k, ops, i, f, x) && NoneSince(conv, k, ops, i, n + 1, g, x);
    assert i < n;
    assert NoneSince(conv, k, ops, i, n, g, x);
  }

  /** What the `n`-th call does to `x`, in terms of its effects. */
  lemma CallAt(conv: Converters, base: Tree, k: Kept, ops: seq<Op>, n: nat, x: Path)
    requires n < |ops| && Tracked(conv, base, k)
    ensures var s, s' := At(conv, k, ops, n).now, At(conv, k, ops, n + 1).now;
            && (x !in s'.root <==> Has(conv, k, ops, n, Hidden, x) || (x !in s.root && !Has(conv, k, ops, n, Shown, x)))
            && (TornAt(conv, s'.root, x) <==>
                  Has(conv, k, ops, n, Tearing, x)
                  || (TornAt(conv, s.root, x) && !Has(conv, k, ops, n, Replaced, x)))
            && (x in s'.host <==>
                  Has(conv, k, ops, n, Overridden, x) || (x in s.host && !Has(conv, k, ops, n, Dropped, x)))
  {
    RunKeepsTrace(conv, base, k, ops, n);
    OneCall(conv, At(conv, k, ops, n).now, ops[n], x);
    NotBoth(conv, At(conv, k, ops, n).now, ops[n], x);
  }

  /** A leaf that was visible at first is not so any more exactly if the last call that showed or hid it
      hid it. */
  lemma {:induction false} HiddenIff(conv: Converters, base: Tree, k: Kept, ops: seq<Op>, n: nat, x: Path)
    requires n <= |ops| && Tracked(conv, base, k) && x in k.now.root
    ensures x !in At(conv, k, ops, n).now.root <==> Last(conv, k, ops, n, Hidden, Shown, x)
    decreases n
  {
    if n == 0 {
    } else {
      HiddenIff(conv, base, k, ops, n - 1, x);
      CallAt(conv, base, k, ops, n - 1, x);
      LastOfMore(conv, k, ops, n - 1, Hidden, Shown, x);
    }
  }

  /** The torn leaves are those of calls that no later call replaced. */
  lemma {:induction false} TornIff(conv: Converters, base: Tree, k: Kept, ops: seq<Op>, n: nat, x: Path)
    requires n <= |ops| && Tracked(conv, base, k) && Typed(conv, k.now.root)
    ensures TornAt(conv, At(conv, k, ops, n).now.root, x) <==> Last(conv, k, ops, n, Tearing, Replaced, x)
    decreases n
  {
    if n == 0 {
    } else {
      TornIff(conv, base, k, ops, n - 1, x);
      CallAt(conv, base, k, ops, n - 1, x);
      LastOfMore(conv, k, ops, n - 1, Tearing, Replaced, x);
    }
  }

  lemma {:induction false} OverriddenIff(conv: Converters, base: Tree, k: Kept, ops: seq<Op>, n: nat, x: Path)
    requires n <= |ops| && Tracked(conv, base, k) && x !in k.now.host
    ensures x in At(conv, k, ops, n).now.host <==> Last(conv, k, ops, n, Overridden, Dropped, x)
    decreases n
  {
    if n == 0 {
    } else {
      OverriddenIff(conv, base, k, ops, n - 1, x);
      CallAt(conv, base, k, ops, n - 1, x);
      LastOfMore(conv, k, ops, n - 1, Overridden, Dropped, x);
    }
  }

  /** How many of the first `n` calls there are up to the last that wrote the overrides. */
  ghost function LastWrite(conv: Converters, k: Kept, ops: seq<Op>, n: nat): (m: nat)
    requires n <= |ops|
    ensures m <= n
    decreases n
  {
    if n == 0 then 0
    else if Succeeds(conv, At(conv, k, ops, n - 1).now, ops[n - 1]) then n
    else LastWrite(conv, k, ops, n - 1)
  }

  lemma {:induction false} StoredAt(conv: Converters, k: Kept, ops: seq<Op>, n: nat)
    requires n <= |ops| && k.stored == k.now.host
    ensures At(conv, k, ops, n).stored == At(conv, k, ops, LastWrite(conv, k, ops, n)).now.host
    decreases n
  {
    if n == 0 {
    } else {
      StoredAt(conv, k, ops, n - 1);
    }
  }

  // --- reloading ------------------------------------------------------------

  /** The state after a load. */
  ghost predicate Fresh(conv: Converters, base: Tree, k: Kept) {
    && k.stored == k.now.host && Tracked(conv, base, k)
    && PrefixFree(base) && base.Keys <= k.now.root.Keys
    && Typed(conv, base) && Typed(conv, k.now.root)
    && NamesNoRoot(base) && NamesNoRoot(k.now.host)
  }

  /** A call has hidden a base leaf, and none after it has shown it again. */
  ghost predicate LosesBase(conv: Converters, base: Tree, k: Kept, ops: seq<Op>) {
    exists q :: q in base && Last(conv, k, ops, |ops|, Hidden, Shown, q)
  }

  /** A setter has left a torn leaf, and no call after it has replaced it. */
  ghost predicate LeavesTorn(conv: Converters, k: Kept, ops: seq<Op>) {
    exists x :: Last(conv, k, ops, |ops|, Tearing, Replaced, x)
  }

  /** A setter has made an override with an element "root", and no call after it has dropped it by the
      time the overrides were written last. */
  ghost predicate WritesRoot(conv: Converters, k: Kept, ops: seq<Op>) {
    exists h :: Mentions(h, "root") && Last(conv, k, ops, LastWrite(conv, k, ops, |ops|), Overridden, Dropped, h)
  }

  /** The run keeps the effective tree from being rebuilt. */
  ghost predicate Spoils(conv: Converters, base: Tree, k: Kept, ops: seq<Op>) {
    LosesBase(conv, base, k, ops) || LeavesTorn(conv, k, ops) || WritesRoot(conv, k, ops)
  }

  /** After any run of setters and erasures, with any paths and values, the base files and the written
      overrides give the live tree exactly if the run does not spoil it. */
  lemma RunSurvivesReload(conv: Converters, base: Tree, k: Kept, ops: seq<Op>)
    requires Fresh(conv, base, k)
    ensures Reproducible(base, Written(At(conv, k, ops, |ops|))) <==> !Spoils(conv, base, k, ops)
  {
    RunKeepsTrace(conv, base, k, ops, |ops|);
    ReproducibleIff(conv, base, Written(At(conv, k, ops, |ops|)));
    BaseIsVisible(conv, base, k, ops);
    NoneIsTorn(conv, base, k, ops);
    StoredNames(conv, base, k, ops);
  }

  lemma BaseIsVisible(conv: Converters, base: Tree, k: Kept, ops: seq<Op>)
    requires Fresh(conv, base, k)
    ensures base.Keys <= At(conv, k, ops, |ops|).now.root.Keys <==> !LosesBase(conv, base, k, ops)
  {
    var root := At(conv, k, ops, |ops|).now.root;
    forall q | q in base ensures q !in root <==> Last(conv, k, ops, |ops|, Hidden, Shown, q) {
      HiddenIff(conv, base, k, ops, |ops|, q);
    }
    assert base.Keys <= root.Keys <==> forall q | q in base :: q in root;
  }

  lemma NoneIsTorn(conv: Converters, base: Tree, k: Kept, ops: seq<Op>)
    requires Fresh(conv, base, k)
    ensures Typed(conv, At(conv, k, ops, |ops|).now.root) <==> !LeavesTorn(conv, k, ops)
  {
    var root := At(conv, k, ops, |ops|).now.root;
    TypedIffNoneTorn(conv, root);
    forall x ensures TornAt(conv, root, x) <==> Last(conv, k, ops, |ops|, Tearing, Replaced, x) {
      TornIff(conv, base, k, ops, |ops|, x);
    }
  }

  lemma TypedIffNoneTorn(conv: Converters, l: Tree)
    ensures Typed(conv, l) <==> forall x :: !TornAt(conv, l, x)
  {
    if forall x :: !TornAt(conv, l, x) {
      forall p | p in l ensures !Torn(conv, l[p]) {
        assert !TornAt(conv, l, p);
      }
    }
  }

  lemma StoredNames(conv: Converters, base: Tree, k: Kept, ops: seq<Op>)
    requires Fresh(conv, base, k)
    ensures NamesNoRoot(At(conv, k, ops, |ops|).stored) <==> !WritesRoot(conv, k, ops)
  {
    var m := LastWrite(conv, k, ops, |ops|);
    StoredAt(conv, k, ops, |ops|);
    OverridesNamed(conv, base, k, ops, m);
  }

  lemma OverridesNamed(conv: Converters, base: Tree, k: Kept, ops: seq<Op>, m: nat)
    requires m <= |ops| && Fresh(conv, base, k)
    ensures NamesNoRoot(At(conv, k, ops, m).now.host) <==>
            forall h | Mentions(h, "root") :: !Last(conv, k, ops, m, Overridden, Dropped, h)
  {
    var host := At(conv, k, ops, m).now.host;
    forall h | Mentions(h, "root") ensures h in host <==> Last(conv, k, ops, m, Overridden, Dropped, h) {
      OverriddenIff(conv, base, k, ops, m, h);
    }
  }

  // --- setters alone --------------------------------------------------------

  lemma SetKeepsBuried(conv: Converters, s: Trees, op: Op, q: Path)
    requires op.Set? && (Inner(s.root, q) || Hides(conv, s, op, q))
    ensures Inner(Next(conv, s, op).root, q)
  {
    var p, s' := op.path, Next(conv, s, op);
    if Inner(s.root, q) {
      var x :| x in s.root && Above(q, x);
      if x !in s'.root {
        AboveTransitive(q, x, p);
        assert p in s'.root;
      }
    } else {
      assert p in s'.root;
    }
  }

  lemma {:induction false} BuriedForGood(conv: Converters, k: Kept, ops: seq<Op>, i: nat, n: nat, q: Path)
    requires i < n <= |ops| && (forall op | op in ops :: op.Set?) && Has(conv, k, ops, i, Hidden, q)
    ensures Inner(At(conv, k, ops, n).now.root, q)
    decreases n
  {
    if n > i + 1 {
      BuriedForGood(conv, k, ops, i, n - 1, q);
    }
    SetKeepsBuried(conv, At(conv, k, ops, n - 1).now, ops[n - 1], q);
  }

  /** Without erasures nothing brings a base leaf back: the run loses one exactly if some call that is let
      through goes below one. */
  lemma SettersLoseForGood(conv: Converters, base: Tree, k: Kept, ops: seq<Op>)
    requires forall op | op in ops :: op.Set?
    ensures LosesBase(conv, base, k, ops) <==>
            exists i, q :: 0 <= i < |ops| && q in base && Has(conv, k, ops, i, Hidden, q)
  {
    if i, q :| 0 <= i < |ops| && q in base && Has(conv, k, ops, i, Hidden, q) {
      forall j | i < j < |ops| ensures !Has(conv, k, ops, j, Shown, q) {
        BuriedForGood(conv, k, ops, i, j, q);
      }
      assert NoneSince(conv, k, ops, i, |ops|, Shown, q);
      assert Last(conv, k, ops, |ops|, Hidden, Shown, q);
    }
  }
}
