/** Setters and erasures, the override file they write, and loading it again. */
module ConfigReload {
  import opened ConfigTree
  import opened ConfigOverlay
  import opened Options
  import opened ConfigNode
  import opened ConfigDocument
  import opened ConfigLoad
  import opened ConfigFiles
  import opened ConfigOverrides
  import opened ConfigRuns
  import opened ConfigPair
  import Y = YamlConfiguration

  // --- disks that differ in the host file only ------------------------------

  /** The worklist comes to read the file `name`, or finds it missing. */
  ghost predicate Consults(disk: Disk, q: seq<QueueEntry>, name: string)
    requires !LeadsIntoCycle(disk, q)
    decreases TurnsLeft(disk, q)
  {
    q != [] &&
    (OneTurnLess(disk, q);
     (!q[0].isDir && q[0].name == name) || Consults(disk, q[1..] + QueuedBy(disk, q[0]), name))
  }

  ghost predicate SameExcept(disk: Disk, disk': Disk, name: string) {
    && disk'.dirs == disk.dirs && disk'.confdir == disk.confdir
    && forall f | f != name ::
         (f in disk'.files <==> f in disk.files) && (f in disk.files ==> disk'.files[f] == disk.files[f])
  }

  lemma {:induction false} SameIncludes(disk: Disk, disk': Disk, incs: seq<Include>, hostFile: string)
    requires disk'.dirs == disk.dirs && disk'.confdir == disk.confdir
    ensures ReadIncludes(disk', incs, hostFile) == ReadIncludes(disk, incs, hostFile)
    decreases |incs|
  {
    if incs == [] {
    } else {
      SameIncludes(disk, disk', incs[..|incs| - 1], hostFile);
    }
  }

  lemma SameTurn(conv: Converters, disk: Disk, disk': Disk, e: QueueEntry, s: Progress, name: string)
    requires SameExcept(disk, disk', name) && (e.isDir || e.name != name)
    ensures ReadOne(conv, disk', e, s) == ReadOne(conv, disk, e, s) && QueuedBy(disk', e) == QueuedBy(disk, e)
  {
    if Reads(disk, e) {
      SameIncludes(disk, disk', Includes(disk.files[e.name]), s.hostFile);
      SameIncludes(disk, disk', Includes(disk.files[e.name]), "");
    }
  }

  /** Writing a file that loading does not consult does not change what the files load to. */
  lemma {:induction false} SameLoad(
    conv: Converters, disk: Disk, disk': Disk,
    q: seq<QueueEntry>, s: Progress, name: string)
    requires !LeadsIntoCycle(disk, q) && !LeadsIntoCycle(disk', q) && SameExcept(disk, disk', name)
    requires !Consults(disk, q, name)
    ensures LoadQueue(conv, disk', q, s) == LoadQueue(conv, disk, q, s)
    decreases TurnsLeft(disk, q)
  {
    if q == [] {
    } else {
      OneTurnLess(disk, q);
      OneTurnLess(disk', q);
      SameTurn(conv, disk, disk', q[0], s, name);
      match ReadOne(conv, disk, q[0], s)
      case None =>
      case Some(s') => SameLoad(conv, disk, disk', q[1..] + QueuedBy(disk, q[0]), s', name);
    }
  }

  /** Nothing but the host file has been written, and only as a file without includes. */
  ghost predicate HostOnly(disk: Disk, disk': Disk, hostFile: string) {
    disk' != disk ==>
      && hostFile != "" && SameExcept(disk, disk', hostFile) && hostFile in disk'.files
      && Includes(disk'.files[hostFile]) == []
      && (disk'.files[hostFile].Empty? || (CleanDoc(disk'.files[hostFile].doc) && WellKeyed(disk'.files[hostFile].doc)))
  }

  lemma StaysLoadable(disk: Disk, disk': Disk, q: seq<QueueEntry>, hostFile: string)
    requires WellKeyedDisk(disk) && !LeadsIntoCycle(disk, q) && HostOnly(disk, disk', hostFile)
    ensures WellKeyedDisk(disk') && !LeadsIntoCycle(disk', q)
  {
    if disk' != disk {
      forall cycle | Cyclic(disk', cycle) ensures Cyclic(disk, cycle) {
        SameCycle(disk, disk', hostFile, cycle);
      }
    }
  }

  lemma SameCycle(disk: Disk, disk': Disk, hostFile: string, cycle: set<string>)
    requires SameExcept(disk, disk', hostFile) && hostFile in disk'.files && Includes(disk'.files[hostFile]) == []
    requires Cyclic(disk', cycle)
    ensures Cyclic(disk, cycle)
  {
    forall f | f in cycle ensures IncludesOneOf(disk, f, cycle) {
      assert IncludesOneOf(disk', f, cycle);
      SameQueued(disk, disk', hostFile, f);
    }
  }

  lemma SameQueued(disk: Disk, disk': Disk, hostFile: string, f: string)
    requires SameExcept(disk, disk', hostFile) && hostFile in disk'.files && Includes(disk'.files[hostFile]) == []
    requires f in disk'.files || QueuedBy(disk', QueueEntry(f, true, false)) != []
    ensures f == hostFile ==> QueuedBy(disk', QueueEntry(f, true, false)) == []
    ensures f != hostFile ==>
              QueuedBy(disk', QueueEntry(f, true, false)) == QueuedBy(disk, QueueEntry(f, true, false))
  {
    if f != hostFile {
      SameIncludes(disk, disk', Includes(disk.files[f]), "");
    }
  }

  // --- what the host file holds ---------------------------------------------

  /** The host file loads to the leaves `host`. */
  ghost predicate Stored(conv: Converters, disk: Disk, hostFile: string, host: Tree) {
    if hostFile !in disk.files then host == map[]
    else
      var f := disk.files[hostFile];
      var m := ReadIncludes(disk, Includes(f), hostFile);
      m.Some? && m.value.queued == [] && AllClassified(FileTexts(f), conv) && FileLeaves(conv, f) == host
  }

  /** Reading a dump gives the leaves of the dumped tree back: scalars, kinds and paths. */
  lemma DumpedLeaves(conv: Converters, f: File, t: Tree)
    requires IsDump(f, t) && Typed(conv, Leaves(t))
    ensures AllClassified(FileTexts(f), conv) && FileLeaves(conv, f) == Leaves(t)
  {
    forall p | p in FileTexts(f) ensures p in Leaves(t) && conv.Classify(FileTexts(f)[p]) == Some(t[p].kind) {
      assert !Torn(conv, Leaves(t)[p]);
    }
  }

  lemma WrittenIsStored(conv: Converters, disk: Disk, disk': Disk, hostFile: string, host: Tree)
    requires hostFile != "" && Y.Persisted(disk, disk', hostFile, host) && Typed(conv, Leaves(host))
    ensures Stored(conv, disk', hostFile, Leaves(host))
  {
    DumpedLeaves(conv, disk'.files[hostFile], host);
  }

  /** A written host file is free of conflicts; it is free of "root" if the override paths are. */
  lemma StoredIsReadable(conv: Converters, disk: Disk, disk': Disk, hostFile: string, host: Tree)
    requires CleanDisk(disk) && HostOnly(disk, disk', hostFile) && Stored(conv, disk', hostFile, host)
    requires NamesNoRoot(host)
    ensures CleanDisk(disk')
  {
    forall f | f in disk'.files ensures CleanFile(disk'.files[f]) {
      if disk' != disk && f == hostFile {
        assert forall p | p in FileTexts(disk'.files[f]) :: p in FileLeaves(conv, disk'.files[f]);
      }
    }
  }

  // --- loading again --------------------------------------------------------

  /** What the base files load to, as long as they do not include the host file themselves. */
  ghost predicate BaseIs(
    conv: Converters, disk: Disk, filename: string, base: Progress)
    requires !LeadsIntoCycle(disk, Start(filename))
  {
    && LoadQueue(conv, disk, Start(filename), NOTHING) == Some(base)
    && base.hostFile != "" && !Consults(disk, Start(filename), base.hostFile)
  }

  /** Loading again overlays the base files with the stored overrides, or fails on a clash. */
  lemma LoadedAgain(
    conv: Converters, disk: Disk, disk': Disk, filename: string,
    base: Progress, host: Tree)
    requires !LeadsIntoCycle(disk, Start(filename)) && !LeadsIntoCycle(disk', Start(filename))
    requires BaseIs(conv, disk, filename, base)
    requires HostOnly(disk, disk', base.hostFile) && Stored(conv, disk', base.hostFile, host)
    ensures LoadConfig(conv, disk', filename) ==
            if LeafClash(base.leaves, host) then None
            else Some(Loaded(Overlay(base.leaves, host), host, base.hostFile))
  {
    SameLoad(conv, disk, disk', Start(filename), NOTHING, base.hostFile);
    OverlayNothing(base.leaves);
  }

  /** An override with an element "root" shows in the effective tree. */
  lemma RootIsVisible(conv: Converters, base: Tree, s: Trees)
    requires Traceable(conv, base, s) && NamesNoRoot(base) && NamesNoRoot(s.root)
    ensures NamesNoRoot(s.host)
  {
    forall h | h in s.host ensures !Mentions(h, "root") {
      assert Accounted(conv, base, s, h);
      if Inner(base, h) {
        var b :| b in base && Above(h, b);
        if Mentions(h, "root") { MentionsBelow(h, b, "root"); }
      } else if TornBelow(conv, s.root, h) {
        var x :| x in s.root && Above(h, x) && Torn(conv, s.root[x]);
        if Mentions(h, "root") { MentionsBelow(h, x, "root"); }
      }
    }
  }

  /** Reading again succeeds and gives the live tree exactly if it can be rebuilt. */
  lemma RereadIff(
    conv: Converters, disk: Disk, disk': Disk, filename: string,
    base: Progress, s: Trees, read: Trees, ok: bool, changes: seq<string>)
    requires !LeadsIntoCycle(disk, Start(filename)) && !LeadsIntoCycle(disk', Start(filename))
    requires BaseIs(conv, disk, filename, base)
    requires CleanDisk(disk) && HostOnly(disk, disk', base.hostFile) && Stored(conv, disk', base.hostFile, s.host)
    requires Traceable(conv, base.leaves, s) && NamesNoRoot(base.leaves)
    requires Y.Reread(conv, disk', filename, s.root, read, ok, changes)
    ensures ok && changes == [] <==> Reproducible(base.leaves, s)
  {
    Y.EmptyDiff(s.root, read.root, ok, changes);
    if NamesNoRoot(s.host) {
      StoredIsReadable(conv, disk, disk', base.hostFile, s.host);
      LoadedAgain(conv, disk, disk', filename, base, s.host);
    } else if ok && changes == [] {
      RootIsVisible(conv, base.leaves, s);
    }
  }

  // --- what a load starts with ----------------------------------------------

  lemma {:induction false} LoadedIsTyped(
    conv: Converters, disk: Disk, q: seq<QueueEntry>, s: Progress)
    requires !LeadsIntoCycle(disk, q) && Typed(conv, s.leaves) && LoadQueue(conv, disk, q, s).Some?
    ensures Typed(conv, LoadQueue(conv, disk, q, s).value.leaves)
    decreases TurnsLeft(disk, q)
  {
    if q == [] {
    } else {
      OneTurnLess(disk, q);
      LoadedIsTyped(conv, disk, q[1..] + QueuedBy(disk, q[0]), ReadOne(conv, disk, q[0], s).value);
    }
  }

  /** A load leaves the overrides as they are stored. */
  ghost function Unchanged(s: Trees): Kept {
    Kept(s, s.host)
  }

  lemma FreshlyLoaded(
    conv: Converters, disk: Disk, filename: string, base: Progress, root: Tree, host: Tree,
    hostFile: string)
    requires !LeadsIntoCycle(disk, Start(filename)) && CleanDisk(disk)
    requires LoadQueue(conv, disk, Start(filename), NOTHING) == Some(base)
    requires LoadedConfig(conv, disk, filename, root, host, hostFile, true)
    ensures hostFile == base.hostFile && Fresh(conv, base.leaves, Unchanged(TreesOf(root, host)))
    ensures base.hostFile != "" ==> Stored(conv, disk, hostFile, Leaves(host))
  {
    var b, s := base.leaves, TreesOf(root, host);
    LoadedIsTyped(conv, disk, Start(filename), NOTHING);
    LeavesPrefixFree(root);
    LeavesPrefixFree(host);
    OverlayNothing(b);
    assert !LeafClash(b, s.host) && s.root == Overlay(b, s.host);
    SmallerPrefixFree(b, s.root);
    LoadedIsTraceable(conv, b, s.host);
    LoadedIsCovered(b, s.host);
    SoundIsTyped(conv, root);
    SoundIsTyped(conv, host);
    assert NamesNoRoot(b) by { assert b.Keys <= s.root.Keys; }
  }

  lemma LoadedIsCovered(base: Tree, host: Tree)
    ensures Covered(Trees(Overlay(base, host), host))
  {
    forall h | h in host && h !in Overlay(base, host) ensures Inner(Overlay(base, host), h) {
      var b :| b in base && Above(h, b);
      assert b in Overlay(base, host);
    }
  }

  lemma SoundIsTyped(conv: Converters, t: Tree)
    requires Sound(t, conv)
    ensures Typed(conv, Leaves(t))
  {
    forall p | p in Leaves(t) ensures !Torn(conv, Leaves(t)[p]) {
      assert SoundAt(t, conv, p);
    }
  }

  // --- change, write, reload ------------------------------------------------

  /** A call of one of the setters, or of erase. */
  datatype Call = SetCall(path: seq<Name>, text: string) | EraseCall(path: seq<Name>)

  function OpOf(call: Call): Op {
    match call
    case SetCall(path, text) => Set(PathOf(path), text)
    case EraseCall(path) => Erase(PathOf(path))
  }

  function OpsOf(calls: seq<Call>): (ops: seq<Op>)
    ensures |ops| == |calls|
  {
    seq(|calls|, i requires 0 <= i < |calls| => OpOf(calls[i]))
  }

  /** What a call returns or throws in the state `s`. */
  ghost predicate Returns(conv: Converters, s: Trees, op: Op, hostFile: string, r: Outcome) {
    if Succeeds(conv, s, op) then r == if hostFile == "" then NoHostFile else Done
    else
      match op
      case Set(p, text) => r == if Accepted(s, op) && conv.Classify(text).None? then BadScalar else NonLeaf
      case Erase(p) =>
        if Inner(s.host, p) || (Erasable(s.host, p) && Inner(s.root, p)) then r == NonLeaf else r.Missing?
  }

  /** What the call `op` does to the trees, the outcome being that before the host file is written. */
  ghost predicate CallAs(
    conv: Converters, op: Op, root: Tree, host: Tree, root': Tree, host': Tree, r: Outcome)
  {
    match op
    case Set(p, text) => SetAs(conv, root, host, root', host', p, text, r)
    case Erase(p) => EraseAs(conv, root, host, root', host', p, r)
  }

  /** The call takes the trees where the leaf maps say, and gets as far as writing if it succeeds. */
  lemma CallOnLeaves(
    conv: Converters, op: Op, root: Tree, host: Tree, root': Tree, host': Tree, hostFile: string,
    r0: Outcome, r: Outcome)
    requires CallAs(conv, op, root, host, root', host', r0)
    requires r == if r0.Done? && hostFile == "" then NoHostFile else r0
    ensures TreesOf(root', host') == Next(conv, TreesOf(root, host), op)
    ensures r0.Done? <==> Succeeds(conv, TreesOf(root, host), op)
    ensures Returns(conv, TreesOf(root, host), op, hostFile, r)
  {
  }

  /** The state after the first `n` calls: that of the run on the leaf maps, with the overrides stored
      that were written last. */
  ghost predicate After(
    conv: Converters, loaded: Kept, ops: seq<Op>, n: nat, now: Trees, disk: Disk, hostFile: string)
    requires n <= |ops|
  {
    && now == At(conv, loaded, ops, n).now && Sane(conv, now)
    && (hostFile != "" ==> Stored(conv, disk, hostFile, At(conv, loaded, ops, n).stored))
  }

  lemma AfterOneMore(
    conv: Converters, loaded: Kept, ops: seq<Op>, n: nat, hostFile: string, root: Tree, host: Tree, disk: Disk,
    root': Tree, host': Tree, disk': Disk, r: Outcome)
    requires n < |ops| && After(conv, loaded, ops, n, TreesOf(root, host), disk, hostFile)
    requires CallAs(conv, ops[n], root, host, root', host', Y.BeforeWriting(r))
    requires Y.Finished(disk, disk', hostFile, host', Y.BeforeWriting(r), r)
    ensures After(conv, loaded, ops, n + 1, TreesOf(root', host'), disk', hostFile)
    ensures Returns(conv, At(conv, loaded, ops, n).now, ops[n], hostFile, r)
  {
    var s := TreesOf(root, host);
    CallOnLeaves(conv, ops[n], root, host, root', host', hostFile, Y.BeforeWriting(r), r);
    NextKeepsSane(conv, s, ops[n]);
    assert At(conv, loaded, ops, n + 1) == NextKept(conv, At(conv, loaded, ops, n), ops[n]);
    if r.Done? {
      WrittenIsStored(conv, disk, disk', hostFile, host');
    }
  }

  lemma FinishedIsHostOnly(disk0: Disk, disk: Disk, disk': Disk, hostFile: string, host: Tree, r0: Outcome, r: Outcome)
    requires HostOnly(disk0, disk, hostFile) && Y.Finished(disk, disk', hostFile, host, r0, r)
    ensures HostOnly(disk0, disk', hostFile)
  {
  }

  /** The results of the first `n` calls. */
  ghost predicate ResultsAre(
    conv: Converters, loaded: Kept, ops: seq<Op>, n: nat, hostFile: string, results: seq<Outcome>)
    requires n <= |ops|
  {
    && |results| == n
    && forall i | 0 <= i < n :: Returns(conv, At(conv, loaded, ops, i).now, ops[i], hostFile, results[i])
  }

  /** A run has come through its first `n` calls. */
  ghost predicate Session(
    conv: Converters, loaded: Kept, ops: seq<Op>, n: nat, root: Tree, host: Tree, disk: Disk, hostFile: string,
    results: seq<Outcome>)
    requires n <= |ops|
  {
    && After(conv, loaded, ops, n, TreesOf(root, host), disk, hostFile)
    && ResultsAre(conv, loaded, ops, n, hostFile, results)
  }

  lemma SessionGoesOn(
    conv: Converters, loaded: Kept, ops: seq<Op>, n: nat, hostFile: string, root: Tree, host: Tree, disk: Disk,
    root': Tree, host': Tree, disk': Disk, results: seq<Outcome>, r: Outcome)
    requires n < |ops|
    requires CallAs(conv, ops[n], root, host, root', host', Y.BeforeWriting(r))
    requires Y.Finished(disk, disk', hostFile, host', Y.BeforeWriting(r), r)
    ensures Session(conv, loaded, ops, n, root, host, disk, hostFile, results) ==>
            Session(conv, loaded, ops, n + 1, root', host', disk', hostFile, results + [r])
  {
    if Session(conv, loaded, ops, n, root, host, disk, hostFile, results) {
      AfterOneMore(conv, loaded, ops, n, hostFile, root, host, disk, root', host', disk', r);
    }
  }

  /** A setter or erase. */
  method MakeCall(cfg: Y.YamlConfiguration, call: Call, ghost t: Layout, ghost u: Layout)
      returns (r: Outcome, ghost t': Layout, ghost u': Layout)
    requires cfg.Valid(t, u)
    modifies cfg`disk, t.repr, u.repr
    ensures cfg.Valid(t', u') && fresh(t'.repr - t.repr) && fresh(u'.repr - u.repr)
    ensures CallAs(cfg.conv, OpOf(call), old(View(t)), old(View(u)), View(t'), View(u'), Y.BeforeWriting(r))
    ensures Y.Finished(old(cfg.disk), cfg.disk, cfg.hostFile, View(u'), Y.BeforeWriting(r), r)
  {
    match call
    case SetCall(path, text) => r, t', u' := cfg.SetValue(path, text, t, u);
    case EraseCall(path) => r, t', u' := cfg.Erase(path, t, u);
  }

  /** One call on a loaded configuration object. */
  method CallNext(
      cfg: Y.YamlConfiguration, call: Call, results: seq<Outcome>,
      ghost loaded: Kept, ghost ops: seq<Op>, ghost n: nat, ghost disk: Disk, ghost t: Layout, ghost u: Layout)
      returns (results': seq<Outcome>, ghost t': Layout, ghost u': Layout)
    requires cfg.Valid(t, u) && HostOnly(disk, cfg.disk, cfg.hostFile)
    requires n < |ops| && ops[n] == OpOf(call)
    modifies cfg`disk, t.repr, u.repr
    ensures cfg.Valid(t', u') && fresh(t'.repr - t.repr) && fresh(u'.repr - u.repr)
    ensures HostOnly(disk, cfg.disk, cfg.hostFile)
    ensures Session(cfg.conv, loaded, ops, n, old(View(t)), old(View(u)), old(cfg.disk), cfg.hostFile, results) ==>
            Session(cfg.conv, loaded, ops, n + 1, View(t'), View(u'), cfg.disk, cfg.hostFile, results')
  {
    ghost var root, host, before := View(t), View(u), cfg.disk;
    var r;
    r, t', u' := MakeCall(cfg, call, t, u);
    results' := results + [r];
    SessionGoesOn(cfg.conv, loaded, ops, n, cfg.hostFile, root, host, before, View(t'), View(u'), cfg.disk, results, r);
    FinishedIsHostOnly(disk, before, cfg.disk, cfg.hostFile, View(u'), Y.BeforeWriting(r), r);
  }

  /** The calls from the `n`-th on. */
  method CallRest(
      cfg: Y.YamlConfiguration, calls: seq<Call>, n: nat, results: seq<Outcome>,
      ghost loaded: Kept, ghost disk: Disk, ghost t: Layout, ghost u: Layout)
      returns (results': seq<Outcome>, ghost t': Layout, ghost u': Layout)
    requires n <= |calls| && cfg.Valid(t, u) && HostOnly(disk, cfg.disk, cfg.hostFile)
    modifies cfg`disk, t.repr, u.repr
    ensures cfg.Valid(t', u') && HostOnly(disk, cfg.disk, cfg.hostFile)
    ensures var ops := OpsOf(calls);
            Session(cfg.conv, loaded, ops, n, old(View(t)), old(View(u)), old(cfg.disk), cfg.hostFile, results) ==>
            Session(cfg.conv, loaded, ops, |calls|, View(t'), View(u'), cfg.disk, cfg.hostFile, results')
    decreases |calls| - n
  {
    results', t', u' := results, t, u;
    if n < |calls| {
      results', t', u' := CallNext(cfg, calls[n], results, loaded, OpsOf(calls), n, disk, t, u);
      results', t', u' := CallRest(cfg, calls, n + 1, results', loaded, disk, t', u');
    }
  }

  /** What loading, a run of calls and reading again come to. */
  ghost predicate ReloadAs(
    conv: Converters, disk: Disk, filename: string, calls: seq<Call>,
    loaded: bool, results: seq<Outcome>, reloaded: bool, changes: seq<string>)
    requires !LeadsIntoCycle(disk, Start(filename))
  {
    CleanDisk(disk) ==>
      match LoadConfig(conv, disk, filename)
      case None => !loaded
      case Some(c) => loaded && SameAgain(conv, disk, filename, c, OpsOf(calls), results, reloaded, changes)
  }

  /** With a host file, reading again gives the live tree exactly if the run does not spoil it; without
      one it gives the tree of the first load. */
  ghost predicate SameAgain(
    conv: Converters, disk: Disk, filename: string, c: Loaded, ops: seq<Op>,
    results: seq<Outcome>, reloaded: bool, changes: seq<string>)
    requires !LeadsIntoCycle(disk, Start(filename)) && LoadQueue(conv, disk, Start(filename), NOTHING).Some?
  {
    var base, k := LoadQueue(conv, disk, Start(filename), NOTHING).value, Unchanged(Trees(c.root, c.host));
    && ResultsAre(conv, k, ops, |ops|, c.hostFile, results)
    && (BaseIs(conv, disk, filename, base) ==> (reloaded && changes == [] <==> !Spoils(conv, base.leaves, k, ops)))
    && (c.hostFile == "" ==> (reloaded && changes == [] <==> At(conv, k, ops, |ops|).now.root == c.root))
  }

  lemma ReloadIsAs(
    conv: Converters, disk: Disk, disk': Disk, filename: string, ops: seq<Op>,
    root0: Tree, host0: Tree, hostFile: string, root: Tree, host: Tree, results: seq<Outcome>,
    read: Trees, reloaded: bool, changes: seq<string>)
    requires !LeadsIntoCycle(disk, Start(filename)) && WellKeyedDisk(disk) && CleanDisk(disk)
    requires LoadedConfig(conv, disk, filename, root0, host0, hostFile, true)
    requires HostOnly(disk, disk', hostFile)
    requires Session(conv, Unchanged(TreesOf(root0, host0)), ops, |ops|, root, host, disk', hostFile, results)
    requires !LeadsIntoCycle(disk', Start(filename))
    requires Y.Reread(conv, disk', filename, Leaves(root), read, reloaded, changes)
    ensures var c := LoadConfig(conv, disk, filename).value;
            SameAgain(conv, disk, filename, c, ops, results, reloaded, changes)
  {
    var base := LoadQueue(conv, disk, Start(filename), NOTHING).value;
    var k := Unchanged(TreesOf(root0, host0));
    FreshlyLoaded(conv, disk, filename, base, root0, host0, hostFile);
    if BaseIs(conv, disk, filename, base) {
      RunKeepsTrace(conv, base.leaves, k, ops, |ops|);
      RereadIff(conv, disk, disk', filename, base, Written(At(conv, k, ops, |ops|)), read, reloaded, changes);
      RunSurvivesReload(conv, base.leaves, k, ops);
    }
    if hostFile == "" {
      Y.EmptyDiff(Leaves(root), read.root, reloaded, changes);
    }
  }

  lemma SessionStarts(
    conv: Converters, disk: Disk, filename: string, ops: seq<Op>,
    root: Tree, host: Tree, hostFile: string)
    requires !LeadsIntoCycle(disk, Start(filename)) && CleanDisk(disk)
    requires LoadedConfig(conv, disk, filename, root, host, hostFile, true)
    ensures Session(conv, Unchanged(TreesOf(root, host)), ops, 0, root, host, disk, hostFile, [])
  {
    var base := LoadQueue(conv, disk, Start(filename), NOTHING).value;
    FreshlyLoaded(conv, disk, filename, base, root, host, hostFile);
  }

  /** Load, then any calls of the setters and of erase, then a file event: the effective tree that is read
      again is the live one exactly if the run lost no leaf of the base files, left no torn leaf and wrote
      no override with an element "root". */
  method ChangeWriteReload(cfg: Y.YamlConfiguration, calls: seq<Call>)
      returns (loaded: bool, results: seq<Outcome>, reloaded: bool, changes: seq<string>)
    requires WellKeyedDisk(cfg.disk) && !LeadsIntoCycle(cfg.disk, Start(cfg.configFile))
    modifies cfg
    ensures !LeadsIntoCycle(old(cfg.disk), Start(cfg.configFile))
    ensures ReloadAs(cfg.conv, old(cfg.disk), cfg.configFile, calls, loaded, results, reloaded, changes)
  {
    ghost var disk, ops := cfg.disk, OpsOf(calls);
    ghost var t, u, read;
    loaded, t, u := cfg.Load();
    ghost var root0, host0, hostFile := View(t), View(u), cfg.hostFile;
    results, reloaded, changes := [], false, [];
    if loaded {
      if CleanDisk(disk) { SessionStarts(cfg.conv, disk, cfg.configFile, ops, root0, host0, hostFile); }
      results, t, u := CallRest(cfg, calls, 0, [], Unchanged(TreesOf(root0, host0)), disk, t, u);
      StaysLoadable(disk, cfg.disk, Start(cfg.configFile), hostFile);
      ghost var root, host, disk' := View(t), View(u), cfg.disk;
      reloaded, changes, read, t, u := cfg.FamEvent(t, u);
      if CleanDisk(disk) {
        ReloadIsAs(cfg.conv, disk, disk', cfg.configFile, ops, root0, host0, hostFile, root, host, results,
                   read, reloaded, changes);
      }
    }
  }
}
