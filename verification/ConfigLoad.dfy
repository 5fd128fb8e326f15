/** Loading a configuration: files, their includes and the worklist of read_yaml_config, as a
    computation on leaf maps. */
module ConfigLoad {
  import opened ConfigTree
  import opened ConfigOverlay
  import opened Options
  import opened ConfigNode
  import opened ConfigDocument

  datatype Tag = Plain | IgnoreMissing | HostSpecific
  datatype Include = Include(text: string, tag: Tag)

  /** The documents of a file: none, a configuration, or meta information and a configuration. */
  datatype File = Empty | Config(doc: Doc) | MetaAndConfig(includes: seq<Include>, doc: Doc)

  /** What loading sees of the file system; `dirs` holds the sorted configuration files by directory. */
  datatype Disk = Disk(files: map<string, File>, dirs: map<string, seq<string>>, confdir: string)

  datatype QueueEntry = QueueEntry(name: string, ignoreMissing: bool, isDir: bool)

  function AbsCfgPath(disk: Disk, path: string): string {
    if path != "" && path[0] == '/' then path else disk.confdir + "/" + path
  }

  /** read_meta_doc on one include; None where it throws. */
  function QueuedByInclude(disk: Disk, i: Include): Option<seq<QueueEntry>> {
    if i.tag.HostSpecific? then Some([])
    else if i.text == "" then None
    else
      var name, ignore := AbsCfgPath(disk, i.text), i.tag.IgnoreMissing?;
      if i.text[|i.text| - 1] != '/' then Some([QueueEntry(name, ignore, false)])
      else if name !in disk.dirs then (if ignore then Some([]) else None)
      else
        var fs := disk.dirs[name];
        Some([QueueEntry(name, ignore, true)] + seq(|fs|, j requires 0 <= j < |fs| => QueueEntry(fs[j], ignore, false)))
  }

  /** Everything a list of includes adds to the queue, and the host file it names. */
  datatype Meta = Meta(queued: seq<QueueEntry>, hostFile: string)

  function ReadIncludes(disk: Disk, incs: seq<Include>, hostFile: string): Option<Meta> {
    if incs == [] then Some(Meta([], hostFile))
    else
      match ReadIncludes(disk, incs[..|incs| - 1], hostFile)
      case None => None
      case Some(m) => ReadInclude(disk, incs[|incs| - 1], m)
  }

  function ReadInclude(disk: Disk, i: Include, m: Meta): Option<Meta> {
    if i.tag.HostSpecific? && m.hostFile != "" then None
    else
      match QueuedByInclude(disk, i)
      case None => None
      case Some(q) => Some(Meta(m.queued + q, if i.tag.HostSpecific? then AbsCfgPath(disk, i.text) else m.hostFile))
  }

  function Includes(f: File): seq<Include> {
    if f.MetaAndConfig? then f.includes else []
  }

  /** What reading a queue entry appends to the queue. */
  function QueuedBy(disk: Disk, e: QueueEntry): seq<QueueEntry> {
    if e.isDir || e.name !in disk.files then []
    else match ReadIncludes(disk, Includes(disk.files[e.name]), "")
         case None => []
         case Some(m) => m.queued
  }

  // --- termination ----------------------------------------------------------

  /** The include graph is acyclic: `rank` falls along every include. */
  ghost predicate Acyclic(disk: Disk, rank: map<string, nat>) {
    && disk.files.Keys <= rank.Keys
    && forall f, e |
         && f in disk.files && e in QueuedBy(disk, QueueEntry(f, true, false))
         && !e.isDir && e.name in disk.files ::
         rank[e.name] < rank[f]
  }

  /** The entry stands for a file that will be read. */
  predicate Reads(disk: Disk, e: QueueEntry) {
    !e.isDir && e.name in disk.files
  }

  /** All files the queue leads to rank below this. */
  ghost function Bound(disk: Disk, rank: map<string, nat>, q: seq<QueueEntry>): (b: nat)
    requires Acyclic(disk, rank)
    ensures forall e | e in q && Reads(disk, e) :: rank[e.name] < b
  {
    if q == [] then 0 else
    var b := Bound(disk, rank, q[1..]);
    if Reads(disk, q[0]) && b <= rank[q[0].name] then rank[q[0].name] + 1 else b
  }

  lemma {:induction false} BoundIsLeast(disk: Disk, rank: map<string, nat>, q: seq<QueueEntry>, c: nat)
    requires Acyclic(disk, rank) && forall e | e in q && Reads(disk, e) :: rank[e.name] < c
    ensures Bound(disk, rank, q) <= c
    decreases |q|
  {
    if q == [] {
    } else {
      BoundIsLeast(disk, rank, q[1..], c);
    }
  }

  /** What a file queues ranks below it. */
  lemma QueuedIsBelow(disk: Disk, rank: map<string, nat>, e: QueueEntry)
    requires Acyclic(disk, rank) && Reads(disk, e)
    ensures Bound(disk, rank, QueuedBy(disk, e)) <= rank[e.name]
  {
    var f := QueueEntry(e.name, true, false);
    assert QueuedBy(disk, e) == QueuedBy(disk, f);
    forall x | x in QueuedBy(disk, f) && Reads(disk, x) ensures rank[x.name] < rank[e.name] {
    }
    BoundIsLeast(disk, rank, QueuedBy(disk, e), rank[e.name]);
  }

  /** Every queued entry counts one plus the weight of what reading it queues. */
  ghost function Weight(disk: Disk, rank: map<string, nat>, q: seq<QueueEntry>): nat
    requires Acyclic(disk, rank)
    decreases Bound(disk, rank, q), |q|
  {
    if q == [] then 0 else
    var rest := Weight(disk, rank, q[1..]);
    if Reads(disk, q[0]) then
      QueuedIsBelow(disk, rank, q[0]);
      1 + Weight(disk, rank, QueuedBy(disk, q[0])) + rest
    else 1 + rest
  }

  lemma {:induction false} WeightAdds(disk: Disk, rank: map<string, nat>, q: seq<QueueEntry>, q': seq<QueueEntry>)
    requires Acyclic(disk, rank)
    ensures Weight(disk, rank, q + q') == Weight(disk, rank, q) + Weight(disk, rank, q')
    decreases |q|
  {
    if q == [] {
      assert q + q' == q';
    } else {
      assert (q + q')[1..] == q[1..] + q';
      WeightAdds(disk, rank, q[1..], q');
    }
  }

  /** Reading the front entry makes the worklist lighter, however much it queues. */
  lemma WorklistShrinks(disk: Disk, rank: map<string, nat>, q: seq<QueueEntry>)
    requires Acyclic(disk, rank) && q != []
    ensures Weight(disk, rank, q[1..] + QueuedBy(disk, q[0])) < Weight(disk, rank, q)
  {
    WeightAdds(disk, rank, q[1..], QueuedBy(disk, q[0]));
  }

  /** The worklist after `n` entries have been read. */
  function WorklistAfter(disk: Disk, q: seq<QueueEntry>, n: nat): seq<QueueEntry>
    decreases n
  {
    if n == 0 || q == [] then q else WorklistAfter(disk, q[1..] + QueuedBy(disk, q[0]), n - 1)
  }

  /** One of the files `cycle` is queued. */
  predicate Queued(q: seq<QueueEntry>, cycle: set<string>) {
    exists e :: e in q && e.name in cycle && !e.isDir
  }

  predicate IncludesOneOf(disk: Disk, f: string, cycle: set<string>) {
    Queued(QueuedBy(disk, QueueEntry(f, true, false)), cycle)
  }

  /** Every file of `cycle` includes one of them. */
  predicate Cyclic(disk: Disk, cycle: set<string>) {
    forall f {:trigger IncludesOneOf(disk, f, cycle)} | f in cycle :: IncludesOneOf(disk, f, cycle)
  }

  /** The queue leads into an include cycle. */
  ghost predicate LeadsIntoCycle(disk: Disk, q: seq<QueueEntry>) {
    exists cycle :: Cyclic(disk, cycle) && Queued(q, cycle)
  }

  /** The worklist becomes empty. */
  ghost predicate Empties(disk: Disk, q: seq<QueueEntry>) {
    exists n: nat :: WorklistAfter(disk, q, n) == []
  }

  /** Once a file of a cycle is queued, the worklist is never empty again. */
  lemma {:induction false} CyclesNeverEnd(disk: Disk, cycle: set<string>, q: seq<QueueEntry>, n: nat)
    requires Cyclic(disk, cycle) && Queued(q, cycle)
    ensures Queued(WorklistAfter(disk, q, n), cycle)
    decreases n
  {
    if n == 0 {
    } else {
      StillQueued(disk, cycle, q);
      CyclesNeverEnd(disk, cycle, q[1..] + QueuedBy(disk, q[0]), n - 1);
    }
  }

  lemma StillQueued(disk: Disk, cycle: set<string>, q: seq<QueueEntry>)
    requires Cyclic(disk, cycle) && Queued(q, cycle)
    ensures Queued(q[1..] + QueuedBy(disk, q[0]), cycle)
  {
    var next := q[1..] + QueuedBy(disk, q[0]);
    var e :| e in q && e.name in cycle && !e.isDir;
    if e == q[0] {
      assert IncludesOneOf(disk, e.name, cycle);
      var x :| x in QueuedBy(disk, q[0]) && x.name in cycle && !x.isDir;
      assert x in next;
    } else {
      assert e in q[1..] && e in next;
    }
  }

  /** The includes of `e` are at most `d` deep. */
  ghost predicate Within(disk: Disk, e: QueueEntry, d: nat)
    decreases d
  {
    d > 0 && forall x | x in QueuedBy(disk, e) :: Within(disk, x, d - 1)
  }

  lemma {:induction false} WithinMore(disk: Disk, e: QueueEntry, d: nat, d': nat)
    requires Within(disk, e, d) && d <= d'
    ensures Within(disk, e, d')
    decreases d
  {
    forall x | x in QueuedBy(disk, e) ensures Within(disk, x, d' - 1) {
      WithinMore(disk, x, d - 1, d' - 1);
    }
  }

  /** What reading the entries `q` queues. */
  function QueuedByAll(disk: Disk, q: seq<QueueEntry>): seq<QueueEntry> {
    if q == [] then [] else QueuedBy(disk, q[0]) + QueuedByAll(disk, q[1..])
  }

  lemma {:induction false} QueuedByOneOf(disk: Disk, q: seq<QueueEntry>, d: nat)
    requires d > 0 && forall e | e in q :: Within(disk, e, d)
    ensures forall x | x in QueuedByAll(disk, q) :: Within(disk, x, d - 1)
  {
    if q == [] {
    } else {
      assert Within(disk, q[0], d);
      assert forall e | e in q[1..] :: e in q;
      QueuedByOneOf(disk, q[1..], d);
    }
  }

  /** Reading everything that was queued leaves what it has queued, and then `n` more entries are read. */
  lemma {:induction false} OneRound(disk: Disk, q: seq<QueueEntry>, more: seq<QueueEntry>, n: nat)
    ensures WorklistAfter(disk, q + more, |q| + n) == WorklistAfter(disk, more + QueuedByAll(disk, q), n)
    decreases |q|
  {
    if q == [] {
      assert q + more == more && more + [] == more;
    } else {
      var next := more + QueuedBy(disk, q[0]);
      assert (q + more)[1..] + QueuedBy(disk, q[0]) == q[1..] + next;
      assert next + QueuedByAll(disk, q[1..]) == more + QueuedByAll(disk, q);
      OneRound(disk, q[1..], next, n);
    }
  }

  /** A worklist whose includes are not arbitrarily deep becomes empty. */
  lemma {:induction false} ShallowEmpties(disk: Disk, q: seq<QueueEntry>, d: nat) returns (n: nat)
    requires forall e | e in q :: Within(disk, e, d)
    ensures WorklistAfter(disk, q, n) == []
    decreases d
  {
    if q == [] {
      n := 0;
    } else {
      assert q[0] in q;
      QueuedByOneOf(disk, q, d);
      n := ShallowEmpties(disk, QueuedByAll(disk, q), d - 1);
      OneRound(disk, q, [], n);
      assert q + [] == q && [] + QueuedByAll(disk, q) == QueuedByAll(disk, q);
      n := |q| + n;
    }
  }

  /** The files from which includes go on without end. */
  ghost function Endless(disk: Disk): set<string> {
    set f | f in disk.files && forall d: nat :: !Within(disk, QueueEntry(f, true, false), d)
  }

  lemma {:induction false} DepthOf(disk: Disk, q: seq<QueueEntry>) returns (d: nat)
    requires !Queued(q, Endless(disk))
    ensures forall e | e in q :: Within(disk, e, d)
  {
    if q == [] {
      d := 0;
    } else {
      assert forall e | e in q[1..] :: e in q;
      var rest := DepthOf(disk, q[1..]);
      var first := DepthOfOne(disk, q[0]);
      d := if rest < first then first else rest;
      WithinMore(disk, q[0], first, d);
      forall e | e in q[1..] ensures Within(disk, e, d) {
        WithinMore(disk, e, rest, d);
      }
    }
  }

  lemma DepthOfOne(disk: Disk, e: QueueEntry) returns (d: nat)
    requires e.isDir || e.name !in Endless(disk)
    ensures Within(disk, e, d)
  {
    if Reads(disk, e) {
      var f := QueueEntry(e.name, true, false);
      d :| Within(disk, f, d);
      assert QueuedBy(disk, e) == QueuedBy(disk, f);
    } else {
      d := 1;
    }
  }

  lemma EndlessIsCyclic(disk: Disk)
    ensures Cyclic(disk, Endless(disk))
  {
    forall f | f in Endless(disk) ensures IncludesOneOf(disk, f, Endless(disk)) {
      var e := QueueEntry(f, true, false);
      if !Queued(QueuedBy(disk, e), Endless(disk)) {
        var d := DepthOf(disk, QueuedBy(disk, e));
        assert Within(disk, e, d + 1);
      }
    }
  }

  /** The worklist becomes empty exactly if the queue does not lead into an include cycle. */
  lemma EmptiesIff(disk: Disk, q: seq<QueueEntry>)
    ensures Empties(disk, q) <==> !LeadsIntoCycle(disk, q)
  {
    if LeadsIntoCycle(disk, q) {
      var cycle :| Cyclic(disk, cycle) && Queued(q, cycle);
      forall n: nat ensures WorklistAfter(disk, q, n) != [] {
        CyclesNeverEnd(disk, cycle, q, n);
      }
    } else {
      EndlessIsCyclic(disk);
      var d := DepthOf(disk, q);
      var n := ShallowEmpties(disk, q, d);
    }
  }

  /** For an acyclic include graph the worklist is empty after as many entries as it weighs. */
  lemma {:induction false} AcyclicEnds(disk: Disk, rank: map<string, nat>, q: seq<QueueEntry>, n: nat)
    requires Acyclic(disk, rank) && n >= Weight(disk, rank, q)
    ensures WorklistAfter(disk, q, n) == []
    decreases n
  {
    if q == [] {
    } else {
      WorklistShrinks(disk, rank, q);
      AcyclicEnds(disk, rank, q[1..] + QueuedBy(disk, q[0]), n - 1);
    }
  }

  /** How many turns empty the worklist, if `n` do. */
  ghost function TurnsWithin(disk: Disk, q: seq<QueueEntry>, n: nat): nat
    requires WorklistAfter(disk, q, n) == []
    decreases n
  {
    if q == [] then 0 else 1 + TurnsWithin(disk, q[1..] + QueuedBy(disk, q[0]), n - 1)
  }

  lemma {:induction false} SameTurns(disk: Disk, q: seq<QueueEntry>, n: nat, m: nat)
    requires WorklistAfter(disk, q, n) == [] && WorklistAfter(disk, q, m) == []
    ensures TurnsWithin(disk, q, n) == TurnsWithin(disk, q, m)
    decreases n
  {
    if q == [] {
    } else {
      SameTurns(disk, q[1..] + QueuedBy(disk, q[0]), n - 1, m - 1);
    }
  }

  /** The turns until the worklist is empty. */
  ghost function TurnsLeft(disk: Disk, q: seq<QueueEntry>): nat
    requires !LeadsIntoCycle(disk, q)
  {
    EmptiesIff(disk, q);
    var n: nat :| WorklistAfter(disk, q, n) == [];
    TurnsWithin(disk, q, n)
  }

  lemma TurnsLeftAre(disk: Disk, q: seq<QueueEntry>, n: nat)
    requires WorklistAfter(disk, q, n) == []
    ensures !LeadsIntoCycle(disk, q) && TurnsLeft(disk, q) == TurnsWithin(disk, q, n)
  {
    EmptiesIff(disk, q);
    forall m: nat | WorklistAfter(disk, q, m) == [] ensures TurnsWithin(disk, q, m) == TurnsWithin(disk, q, n) {
      SameTurns(disk, q, m, n);
    }
  }

  /** Reading the front entry does not lead into a cycle either, and is one of the turns. */
  lemma OneTurnLess(disk: Disk, q: seq<QueueEntry>)
    requires !LeadsIntoCycle(disk, q) && q != []
    ensures !LeadsIntoCycle(disk, q[1..] + QueuedBy(disk, q[0]))
    ensures TurnsLeft(disk, q) == 1 + TurnsLeft(disk, q[1..] + QueuedBy(disk, q[0]))
  {
    EmptiesIff(disk, q);
    var n: nat :| WorklistAfter(disk, q, n) == [];
    TurnsLeftAre(disk, q, n);
    TurnsLeftAre(disk, q[1..] + QueuedBy(disk, q[0]), n - 1);
  }

  /** An acyclic include graph has no cycle to lead into. */
  lemma AcyclicHasNoCycle(disk: Disk, rank: map<string, nat>, q: seq<QueueEntry>)
    requires Acyclic(disk, rank)
    ensures !LeadsIntoCycle(disk, q)
  {
    AcyclicEnds(disk, rank, q, Weight(disk, rank, q));
    EmptiesIff(disk, q);
  }

  // --- the result -----------------------------------------------------------

  /** The texts of a file by path; a document that is a bare scalar holds none. */
  ghost function FileTexts(f: File): map<Path, string> {
    if f.Empty? || f.doc.Text? then map[] else Texts(f.doc, Top)
  }

  ghost function FileLeaves(conv: Converters, f: File): Tree {
    if AllClassified(FileTexts(f), conv) then LeafCells(FileTexts(f), conv) else map[]
  }

  /** Merging a file into the leaf map `l`; None where that throws. */
  ghost function Overlaid(conv: Converters, l: Tree, f: File): Option<Tree> {
    if !AllClassified(FileTexts(f), conv) || LeafClash(l, FileLeaves(conv, f)) then None
    else Some(Overlay(l, FileLeaves(conv, f)))
  }

  datatype Progress = Progress(leaves: Tree, hostFile: string, files: seq<string>)

  /** One turn of the worklist loop. */
  ghost function ReadOne(conv: Converters, disk: Disk, e: QueueEntry, s: Progress): Option<Progress> {
    if e.isDir then Some(s)
    else if e.name !in disk.files then (if e.ignoreMissing then Some(s) else None)
    else
      var f := disk.files[e.name];
      match (ReadIncludes(disk, Includes(f), s.hostFile), Overlaid(conv, s.leaves, f))
      case (Some(m), Some(l)) => Some(Progress(l, m.hostFile, if f.Empty? then s.files else s.files + [e.name]))
      case _ => None
  }

  /** `n` turns of the worklist loop, reading included; None once a read has failed. */
  ghost function Turns(conv: Converters, disk: Disk, q: seq<QueueEntry>, s: Progress, n: nat): Option<seq<QueueEntry>>
    decreases n
  {
    if n == 0 || q == [] then Some(q)
    else
      match ReadOne(conv, disk, q[0], s)
      case None => None
      case Some(s') => Turns(conv, disk, q[1..] + QueuedBy(disk, q[0]), s', n - 1)
  }

  lemma {:induction false} TurnsAre(conv: Converters, disk: Disk, q: seq<QueueEntry>, s: Progress, n: nat)
    ensures Turns(conv, disk, q, s, n) in {None, Some(WorklistAfter(disk, q, n))}
    decreases n
  {
    if n == 0 || q == [] {
    } else {
      match ReadOne(conv, disk, q[0], s)
      case None =>
      case Some(s') => TurnsAre(conv, disk, q[1..] + QueuedBy(disk, q[0]), s', n - 1);
    }
  }

  /** A load whose queue leads into a cycle never succeeds: it fails or goes on for ever. */
  lemma CyclesNeverLoad(conv: Converters, disk: Disk, q: seq<QueueEntry>, s: Progress, n: nat)
    requires LeadsIntoCycle(disk, q)
    ensures Turns(conv, disk, q, s, n) != Some([])
  {
    EmptiesIff(disk, q);
    TurnsAre(conv, disk, q, s, n);
  }

  /** The worklist loop of read_yaml_config. */
  ghost function LoadQueue(
    conv: Converters, disk: Disk, q: seq<QueueEntry>, s: Progress): Option<Progress>
    requires !LeadsIntoCycle(disk, q)
    decreases TurnsLeft(disk, q)
  {
    if q == [] then Some(s)
    else
      match ReadOne(conv, disk, q[0], s)
      case None => None
      case Some(s') =>
        OneTurnLess(disk, q);
        LoadQueue(conv, disk, q[1..] + QueuedBy(disk, q[0]), s')
  }

  datatype Loaded = Loaded(root: Tree, host: Tree, hostFile: string)

  /** The host file is read last; it must not queue anything and may be missing. */
  ghost function WithHost(conv: Converters, disk: Disk, s: Progress): Option<Loaded> {
    if s.hostFile == "" || s.hostFile !in disk.files then Some(Loaded(s.leaves, map[], s.hostFile))
    else
      var f := disk.files[s.hostFile];
      match (ReadIncludes(disk, Includes(f), s.hostFile), Overlaid(conv, s.leaves, f))
      case (Some(m), Some(l)) => if m.queued != [] then None else Some(Loaded(l, FileLeaves(conv, f), s.hostFile))
      case _ => None
  }

  const NOTHING := Progress(map[], "", [])

  function Start(filename: string): seq<QueueEntry> {
    [QueueEntry(filename, false, false)]
  }

  ghost function LoadConfig(conv: Converters, disk: Disk, filename: string): Option<Loaded>
    requires !LeadsIntoCycle(disk, Start(filename))
  {
    match LoadQueue(conv, disk, Start(filename), NOTHING)
    case None => None
    case Some(s) => WithHost(conv, disk, s)
  }

  /** The non-empty files in the order in which the worklist reads them. */
  ghost function Order(disk: Disk, q: seq<QueueEntry>): seq<string>
    requires !LeadsIntoCycle(disk, q)
    decreases TurnsLeft(disk, q)
  {
    if q == [] then []
    else
      OneTurnLess(disk, q);
      var rest := Order(disk, q[1..] + QueuedBy(disk, q[0]));
      if Reads(disk, q[0]) && !disk.files[q[0].name].Empty? then [q[0].name] + rest else rest
  }

  /** Overlaying files from left to right. */
  ghost function OverlayAll(conv: Converters, disk: Disk, l: Tree, fs: seq<string>): Tree
    requires forall f | f in fs :: f in disk.files
  {
    if fs == [] then l
    else Overlay(OverlayAll(conv, disk, l, fs[..|fs| - 1]), FileLeaves(conv, disk.files[fs[|fs| - 1]]))
  }

  lemma {:induction false} OverlayAllFront(conv: Converters, disk: Disk, l: Tree, f: string, fs: seq<string>)
    requires f in disk.files && forall x | x in fs :: x in disk.files
    ensures OverlayAll(conv, disk, l, [f] + fs) ==
            OverlayAll(conv, disk, Overlay(l, FileLeaves(conv, disk.files[f])), fs)
    decreases |fs|
  {
    var all := [f] + fs;
    if fs == [] {
      assert all == [f] && all[..0] == [];
    } else {
      assert all[..|all| - 1] == [f] + fs[..|fs| - 1];
      OverlayAllFront(conv, disk, l, f, fs[..|fs| - 1]);
    }
  }

  lemma {:induction false} OrderOnDisk(disk: Disk, q: seq<QueueEntry>)
    requires !LeadsIntoCycle(disk, q)
    ensures forall f | f in Order(disk, q) :: f in disk.files
    decreases TurnsLeft(disk, q)
  {
    if q == [] {
    } else {
      OneTurnLess(disk, q);
      OrderOnDisk(disk, q[1..] + QueuedBy(disk, q[0]));
    }
  }

  /** A load that does not fail is the left-to-right overlay of the files in queue order. */
  lemma {:induction false} LoadIsOverlay(
    conv: Converters, disk: Disk, q: seq<QueueEntry>, s: Progress)
    requires !LeadsIntoCycle(disk, q) && LoadQueue(conv, disk, q, s).Some?
    ensures forall f | f in Order(disk, q) :: f in disk.files
    ensures LoadQueue(conv, disk, q, s).value.files == s.files + Order(disk, q)
    ensures LoadQueue(conv, disk, q, s).value.leaves == OverlayAll(conv, disk, s.leaves, Order(disk, q))
    decreases TurnsLeft(disk, q)
  {
    OrderOnDisk(disk, q);
    if q == [] {
    } else {
      var s' := ReadOne(conv, disk, q[0], s).value;
      var next := q[1..] + QueuedBy(disk, q[0]);
      OneTurnLess(disk, q);
      LoadIsOverlay(conv, disk, next, s');
      OrderOnDisk(disk, next);
      ReadThenOverlay(conv, disk, q[0], s, Order(disk, next));
    }
  }

  lemma ReadThenOverlay(conv: Converters, disk: Disk, e: QueueEntry, s: Progress, rest: seq<string>)
    requires ReadOne(conv, disk, e, s).Some? && forall f | f in rest :: f in disk.files
    ensures var s' := ReadOne(conv, disk, e, s).value;
            var all := if Reads(disk, e) && !disk.files[e.name].Empty? then [e.name] + rest else rest;
            && s'.files + rest == s.files + all
            && OverlayAll(conv, disk, s'.leaves, rest) == OverlayAll(conv, disk, s.leaves, all)
  {
    if Reads(disk, e) {
      var f := disk.files[e.name];
      if f.Empty? {
        OverlayNothing(s.leaves);
      } else {
        OverlayAllFront(conv, disk, s.leaves, e.name, rest);
        OneFileMore(s.files, e.name, rest);
      }
    }
  }

  lemma OneFileMore(files: seq<string>, f: string, rest: seq<string>)
    ensures files + [f] + rest == files + ([f] + rest)
  {
  }

  lemma OverlayNothing(l: Tree)
    ensures Overlay(l, map[]) == l
  {
  }

  /** No file has a leaf where another one has an inner node. */
  ghost predicate ConflictFree(conv: Converters, disk: Disk, fs: seq<string>)
    requires forall f | f in fs :: f in disk.files
  {
    forall f, g, p | f in fs && g in fs && p in FileLeaves(conv, disk.files[f]) ::
      !Inner(FileLeaves(conv, disk.files[g]), p)
  }

  lemma {:induction false} SomeFileDefines(conv: Converters, disk: Disk, fs: seq<string>, p: Path) returns (f: string)
    requires forall f | f in fs :: f in disk.files
    requires p in OverlayAll(conv, disk, map[], fs)
    ensures f in fs && p in FileLeaves(conv, disk.files[f])
  {
    if p in OverlayAll(conv, disk, map[], fs[..|fs| - 1]) {
      f := SomeFileDefines(conv, disk, fs[..|fs| - 1], p);
    } else {
      f := fs[|fs| - 1];
    }
  }

  /** In conflict-free files a leaf of the last file is no inner node of those before. */
  lemma LastFileIsNotInner(conv: Converters, disk: Disk, fs: seq<string>, p: Path)
    requires fs != [] && (forall f | f in fs :: f in disk.files) && ConflictFree(conv, disk, fs)
    requires p in FileLeaves(conv, disk.files[fs[|fs| - 1]])
    ensures !Inner(OverlayAll(conv, disk, map[], fs[..|fs| - 1]), p)
  {
    var n := |fs| - 1;
    forall q | q in OverlayAll(conv, disk, map[], fs[..n]) ensures !Above(p, q) {
      var g := SomeFileDefines(conv, disk, fs[..n], q);
      assert g in fs && fs[n] in fs;
      assert Above(p, q) ==> Inner(FileLeaves(conv, disk.files[g]), p);
    }
  }

  /** For conflict-free files the last file defining a path wins, and nothing is lost. */
  lemma {:induction false} LastFileWins(conv: Converters, disk: Disk, fs: seq<string>, i: nat, p: Path)
    requires (forall f | f in fs :: f in disk.files) && ConflictFree(conv, disk, fs)
    requires i < |fs| && p in FileLeaves(conv, disk.files[fs[i]])
    requires forall j | i < j < |fs| :: p !in FileLeaves(conv, disk.files[fs[j]])
    ensures p in OverlayAll(conv, disk, map[], fs)
    ensures OverlayAll(conv, disk, map[], fs)[p] == FileLeaves(conv, disk.files[fs[i]])[p]
  {
    var n := |fs| - 1;
    if i == n {
      LastFileIsNotInner(conv, disk, fs, p);
    } else {
      assert fs[..n][i] == fs[i];
      LastFileWins(conv, disk, fs[..n], i, p);
    }
  }

  /** The include names this file, which has no includes itself. */
  ghost predicate IncludesLeafFile(disk: Disk, inc: Include, name: string) {
    && !inc.tag.HostSpecific? && inc.text != "" && inc.text[|inc.text| - 1] != '/'
    && name == (if inc.text[0] == '/' then inc.text else disk.confdir + "/" + inc.text)
    && name in disk.files && (disk.files[name].MetaAndConfig? ==> disk.files[name].includes == [])
  }

  lemma TwoIncludes(disk: Disk, a: Include, b: Include, na: string, nb: string)
    requires IncludesLeafFile(disk, a, na) && IncludesLeafFile(disk, b, nb)
    ensures ReadIncludes(disk, [a, b], "") ==
            Some(Meta([QueueEntry(na, a.tag.IgnoreMissing?, false), QueueEntry(nb, b.tag.IgnoreMissing?, false)], ""))
  {
    assert [a, b][..1] == [a] && [a][..0] == [];
    assert forall e: QueueEntry :: [] + [e] == [e];
    assert forall e: QueueEntry, x: QueueEntry :: [e] + [x] == [e, x];
    assert ReadIncludes(disk, [a], "") == Some(Meta([QueueEntry(na, a.tag.IgnoreMissing?, false)], ""));
  }

  lemma ReadFirst(conv: Converters, disk: Disk, e: QueueEntry, rest: seq<QueueEntry>, s: Progress)
    requires !LeadsIntoCycle(disk, [e] + rest)
    ensures !LeadsIntoCycle(disk, rest + QueuedBy(disk, e))
    ensures LoadQueue(conv, disk, [e] + rest, s) ==
            match ReadOne(conv, disk, e, s)
            case None => None
            case Some(s') => LoadQueue(conv, disk, rest + QueuedBy(disk, e), s')
  {
    assert ([e] + rest)[1..] == rest;
    OneTurnLess(disk, [e] + rest);
  }

  /** A missing file makes the load fail, unless it may be missing: then it is passed over. */
  lemma MissingFileFails(conv: Converters, disk: Disk, e: QueueEntry, rest: seq<QueueEntry>, s: Progress)
    requires !LeadsIntoCycle(disk, [e] + rest) && !e.isDir && e.name !in disk.files
    ensures !LeadsIntoCycle(disk, rest)
    ensures LoadQueue(conv, disk, [e] + rest, s) == if e.ignoreMissing then LoadQueue(conv, disk, rest, s) else None
  {
    assert rest + [] == rest;
    ReadFirst(conv, disk, e, rest, s);
  }

  /** Of two files without conflicts that are included one after the other, the second decides, unless the
      including file has an inner node there. */
  lemma SecondIncludeWins(
    conv: Converters, disk: Disk, filename: string, a: Include, b: Include, na: string, nb: string, p: Path)
    requires !LeadsIntoCycle(disk, Start(filename)) && LoadConfig(conv, disk, filename).Some?
    requires filename in disk.files && disk.files[filename].MetaAndConfig? && disk.files[filename].includes == [a, b]
    requires IncludesLeafFile(disk, a, na) && IncludesLeafFile(disk, b, nb)
    requires p in FileLeaves(conv, disk.files[na]) && p in FileLeaves(conv, disk.files[nb])
    requires !Inner(FileLeaves(conv, disk.files[na]), p)
    ensures !Inner(FileLeaves(conv, disk.files[filename]), p) ==>
              var c := LoadConfig(conv, disk, filename).value;
              p in c.root && c.root[p] == FileLeaves(conv, disk.files[nb])[p]
  {
    var l, la, lb :=
      FileLeaves(conv, disk.files[filename]), FileLeaves(conv, disk.files[na]), FileLeaves(conv, disk.files[nb]);
    TwoIncludedFiles(conv, disk, filename, a, b, na, nb);
    if !Inner(l, p) {
      SecondOverlayWins(l, la, lb, p);
    }
  }

  lemma TwoIncludedFiles(
    conv: Converters, disk: Disk, filename: string, a: Include, b: Include, na: string, nb: string)
    requires !LeadsIntoCycle(disk, Start(filename)) && LoadConfig(conv, disk, filename).Some?
    requires filename in disk.files && disk.files[filename].MetaAndConfig? && disk.files[filename].includes == [a, b]
    requires IncludesLeafFile(disk, a, na) && IncludesLeafFile(disk, b, nb)
    ensures LoadConfig(conv, disk, filename).value.root ==
            Overlay(Overlay(Overlay(map[], FileLeaves(conv, disk.files[filename])), FileLeaves(conv, disk.files[na])),
                    FileLeaves(conv, disk.files[nb]))
  {
    var f := QueueEntry(filename, false, false);
    var ea, eb := QueueEntry(na, a.tag.IgnoreMissing?, false), QueueEntry(nb, b.tag.IgnoreMissing?, false);
    TwoIncludes(disk, a, b, na, nb);
    assert Start(filename) == [f] + [] && [] + [ea, eb] == [ea] + [eb];
    ReadFirst(conv, disk, f, [], NOTHING);
    var s := ReadOne(conv, disk, f, NOTHING).value;
    assert s.hostFile == "" && s.leaves == Overlay(map[], FileLeaves(conv, disk.files[filename]));
    TwoLeafFiles(conv, disk, ea, eb, s);
  }

  lemma TwoLeafFiles(conv: Converters, disk: Disk, e: QueueEntry, e': QueueEntry, s: Progress)
    requires Reads(disk, e) && Includes(disk.files[e.name]) == []
    requires Reads(disk, e') && Includes(disk.files[e'.name]) == []
    requires !LeadsIntoCycle(disk, [e] + [e']) && LoadQueue(conv, disk, [e] + [e'], s).Some?
    ensures var r := LoadQueue(conv, disk, [e] + [e'], s).value;
            && r.hostFile == s.hostFile
            && r.leaves == Overlay(Overlay(s.leaves, FileLeaves(conv, disk.files[e.name])),
                                   FileLeaves(conv, disk.files[e'.name]))
  {
    assert QueuedBy(disk, e) == [] && QueuedBy(disk, e') == [];
    assert [e'] + [] == [e'] && [] + QueuedBy(disk, e') == [];
    ReadFirst(conv, disk, e, [e'], s);
    ReadFirst(conv, disk, e', [], ReadOne(conv, disk, e, s).value);
  }

  lemma SecondOverlayWins(l: Tree, a: Tree, b: Tree, p: Path)
    requires p in a && p in b && !Inner(a, p) && !Inner(l, p)
    ensures var r := Overlay(Overlay(Overlay(map[], l), a), b); p in r && r[p] == b[p]
  {
    forall q | q in Overlay(Overlay(map[], l), a) ensures !Above(p, q) {
      assert q in l || q in a;
    }
  }
}
