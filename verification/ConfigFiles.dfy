/** Building the effective tree and the override tree from files: read_yaml_file and
    read_yaml_config. */
module ConfigFiles {
  import opened ConfigTree
  import opened ConfigOverlay
  import opened Options
  import opened ConfigNode
  import opened ConfigMerge
  import opened ConfigDocument
  import opened ConfigLoad

  /** No conflicting keys and no element called "root". */
  ghost predicate CleanFile(f: File) {
    && (f.Empty? || CleanDoc(f.doc))
    && forall p | p in FileTexts(f) :: !Mentions(p, "root")
  }

  ghost predicate CleanDisk(disk: Disk) {
    forall f | f in disk.files :: CleanFile(disk.files[f])
  }

  ghost predicate WellKeyedDisk(disk: Disk) {
    forall f | f in disk.files :: disk.files[f].Empty? || WellKeyed(disk.files[f].doc)
  }

  // --- one file -------------------------------------------------------------

  lemma {:induction false} FailedIncludes(disk: Disk, incs: seq<Include>, i: nat, hostFile: string)
    requires i <= |incs| && ReadIncludes(disk, incs[..i], hostFile).None?
    ensures ReadIncludes(disk, incs, hostFile).None?
    decreases |incs|
  {
    if i == |incs| {
      assert incs[..i] == incs;
    } else {
      assert incs[..|incs| - 1][..i] == incs[..i];
      FailedIncludes(disk, incs[..|incs| - 1], i, hostFile);
    }
  }

  /** What an include stands for in the queue: a file is one entry, a directory is its own entry followed
      by its files, and a host-specific file, or a directory that may be missing and is, stands for
      nothing.  A text that starts with a slash is a name as it is. */
  ghost predicate StandsFor(disk: Disk, inc: Include, q: seq<QueueEntry>) {
    if inc.tag.HostSpecific? then q == []
    else
      && inc.text != ""
      && var name := if inc.text[0] == '/' then inc.text else disk.confdir + "/" + inc.text;
         if inc.text[|inc.text| - 1] != '/' then q == [QueueEntry(name, inc.tag.IgnoreMissing?, false)]
         else if name in disk.dirs then
           && |q| == 1 + |disk.dirs[name]| && q[0] == QueueEntry(name, inc.tag.IgnoreMissing?, true)
           && forall j | 0 <= j < |disk.dirs[name]| ::
                q[1 + j] == QueueEntry(disk.dirs[name][j], inc.tag.IgnoreMissing?, false)
         else inc.tag.IgnoreMissing? && q == []
  }

  /** The include makes reading throw: it is empty, a missing directory, or a second host-specific file. */
  ghost predicate Refuses(disk: Disk, incs: seq<Include>, hostFile: string, i: nat)
    requires i < |incs|
  {
    var inc := incs[i];
    if inc.tag.HostSpecific? then hostFile != "" || exists j :: 0 <= j < i && incs[j].tag.HostSpecific?
    else
      || inc.text == ""
      || (inc.text[|inc.text| - 1] == '/' && !inc.tag.IgnoreMissing?
          && (if inc.text[0] == '/' then inc.text else disk.confdir + "/" + inc.text) !in disk.dirs)
  }

  function Joined(parts: seq<seq<QueueEntry>>): seq<QueueEntry> {
    if parts == [] then [] else Joined(parts[..|parts| - 1]) + parts[|parts| - 1]
  }

  /** The parts of the queue that the includes stand for, one after the other. */
  ghost predicate InOrder(disk: Disk, incs: seq<Include>, queued: seq<QueueEntry>, parts: seq<seq<QueueEntry>>) {
    && |parts| == |incs| && queued == Joined(parts)
    && forall i | 0 <= i < |incs| :: StandsFor(disk, incs[i], parts[i])
  }

  /** The host file is the one that a host-specific include names, or else that known before. */
  ghost predicate NamesHost(disk: Disk, incs: seq<Include>, before: string, after: string) {
    && ((forall i | 0 <= i < |incs| :: !incs[i].tag.HostSpecific?) ==> after == before)
    && forall i | 0 <= i < |incs| && incs[i].tag.HostSpecific? ::
         after == if incs[i].text != "" && incs[i].text[0] == '/' then incs[i].text
                  else disk.confdir + "/" + incs[i].text
  }

  /** Includes are queued in the order of the list, each as what it stands for. */
  lemma {:induction false} IncludesInOrder(disk: Disk, incs: seq<Include>, hostFile: string)
      returns (parts: seq<seq<QueueEntry>>)
    ensures var m := ReadIncludes(disk, incs, hostFile);
            m.Some? ==> InOrder(disk, incs, m.value.queued, parts) && NamesHost(disk, incs, hostFile, m.value.hostFile)
    decreases |incs|
  {
    parts := [];
    if incs == [] {
    } else {
      var front, last := incs[..|incs| - 1], incs[|incs| - 1];
      var before := IncludesInOrder(disk, front, hostFile);
      var m := ReadIncludes(disk, incs, hostFile);
      if m.Some? {
        var q := QueuedByInclude(disk, last).value;
        QueuedStandsFor(disk, last);
        parts := before + [q];
        OneMorePart(disk, incs, ReadIncludes(disk, front, hostFile).value.queued, before, q);
        OneMoreHost(disk, incs, hostFile);
      }
    }
  }

  lemma QueuedStandsFor(disk: Disk, inc: Include)
    requires QueuedByInclude(disk, inc).Some?
    ensures StandsFor(disk, inc, QueuedByInclude(disk, inc).value)
  {
  }

  lemma OneMorePart(
    disk: Disk, incs: seq<Include>, queued: seq<QueueEntry>, parts: seq<seq<QueueEntry>>, q: seq<QueueEntry>)
    requires incs != [] && InOrder(disk, incs[..|incs| - 1], queued, parts) && StandsFor(disk, incs[|incs| - 1], q)
    ensures InOrder(disk, incs, queued + q, parts + [q])
  {
    assert (parts + [q])[..|parts|] == parts;
    forall i | 0 <= i < |incs| ensures StandsFor(disk, incs[i], (parts + [q])[i]) {
      if i < |incs| - 1 { assert incs[i] == incs[..|incs| - 1][i]; }
    }
  }

  lemma OneMoreHost(disk: Disk, incs: seq<Include>, hostFile: string)
    requires incs != [] && ReadIncludes(disk, incs, hostFile).Some?
    requires var front := incs[..|incs| - 1];
             NamesHost(disk, front, hostFile, ReadIncludes(disk, front, hostFile).value.hostFile)
    ensures NamesHost(disk, incs, hostFile, ReadIncludes(disk, incs, hostFile).value.hostFile)
  {
    var front := incs[..|incs| - 1];
    forall i | 0 <= i < |front| ensures incs[i] == front[i] {
    }
  }

  /** Reading fails exactly if some include makes it. */
  lemma {:induction false} IncludesRefused(disk: Disk, incs: seq<Include>, hostFile: string)
    ensures ReadIncludes(disk, incs, hostFile).None? <==>
            exists i :: 0 <= i < |incs| && Refuses(disk, incs, hostFile, i)
    decreases |incs|
  {
    if incs == [] {
    } else {
      var n := |incs| - 1;
      IncludesRefused(disk, incs[..n], hostFile);
      forall i | 0 <= i < n ensures Refuses(disk, incs[..n], hostFile, i) <==> Refuses(disk, incs, hostFile, i) {
      }
      if ReadIncludes(disk, incs[..n], hostFile).Some? {
        HostIsKnown(disk, incs[..n], hostFile);
        LastRefused(disk, incs, hostFile);
      } else {
        var i :| 0 <= i < n && Refuses(disk, incs[..n], hostFile, i);
        assert Refuses(disk, incs, hostFile, i);
      }
    }
  }

  lemma {:induction false} HostIsKnown(disk: Disk, incs: seq<Include>, hostFile: string)
    requires ReadIncludes(disk, incs, hostFile).Some?
    ensures ReadIncludes(disk, incs, hostFile).value.hostFile != "" <==>
            hostFile != "" || exists j :: 0 <= j < |incs| && incs[j].tag.HostSpecific?
    decreases |incs|
  {
    if incs == [] {
    } else {
      var n := |incs| - 1;
      HostIsKnown(disk, incs[..n], hostFile);
      assert forall j | 0 <= j < n :: incs[..n][j] == incs[j];
    }
  }

  lemma LastRefused(disk: Disk, incs: seq<Include>, hostFile: string)
    requires incs != [] && ReadIncludes(disk, incs[..|incs| - 1], hostFile).Some?
    requires var n := |incs| - 1;
             ReadIncludes(disk, incs[..n], hostFile).value.hostFile != "" <==>
             hostFile != "" || exists j :: 0 <= j < n && incs[..n][j].tag.HostSpecific?
    ensures ReadIncludes(disk, incs, hostFile).None? <==> Refuses(disk, incs, hostFile, |incs| - 1)
  {
    var n := |incs| - 1;
    assert (exists j :: 0 <= j < n && incs[..n][j].tag.HostSpecific?) <==>
           exists j :: 0 <= j < n && incs[j].tag.HostSpecific? by {
      assert forall j | 0 <= j < n :: incs[..n][j] == incs[j];
    }
    QueuesNothing(disk, incs[n]);
  }

  lemma QueuesNothing(disk: Disk, inc: Include)
    ensures QueuedByInclude(disk, inc).None? <==>
            && !inc.tag.HostSpecific?
            && (inc.text == ""
                || (inc.text[|inc.text| - 1] == '/' && !inc.tag.IgnoreMissing?
                    && (if inc.text[0] == '/' then inc.text else disk.confdir + "/" + inc.text) !in disk.dirs))
  {
  }

  lemma {:induction false} JoinedHolds(parts: seq<seq<QueueEntry>>, i: nat)
    requires i < |parts| && parts[i] != []
    ensures Joined(parts) != []
    decreases |parts|
  {
    if i < |parts| - 1 {
      assert parts[..|parts| - 1][i] == parts[i];
      JoinedHolds(parts[..|parts| - 1], i);
    }
  }

  /** A host file that includes another file makes the load fail. */
  lemma HostMustNotInclude(conv: Converters, disk: Disk, s: Progress, i: nat)
    requires s.hostFile != "" && s.hostFile in disk.files && i < |Includes(disk.files[s.hostFile])|
    requires var inc := Includes(disk.files[s.hostFile])[i];
             !inc.tag.HostSpecific? && inc.text != "" && inc.text[|inc.text| - 1] != '/'
    ensures WithHost(conv, disk, s).None?
  {
    var incs := Includes(disk.files[s.hostFile]);
    var parts := IncludesInOrder(disk, incs, s.hostFile);
    if ReadIncludes(disk, incs, s.hostFile).Some? {
      assert StandsFor(disk, incs[i], parts[i]);
      JoinedHolds(parts, i);
    }
  }

  /** read_meta_doc */
  method ReadMetaDoc(disk: Disk, incs: seq<Include>, hostFile: string) returns (m: Option<Meta>)
    ensures m == ReadIncludes(disk, incs, hostFile)
    ensures m.None? <==> exists i :: 0 <= i < |incs| && Refuses(disk, incs, hostFile, i)
    ensures m.Some? ==> exists parts :: InOrder(disk, incs, m.value.queued, parts)
    ensures m.Some? ==> NamesHost(disk, incs, hostFile, m.value.hostFile)
  {
    IncludesRefused(disk, incs, hostFile);
    ghost var parts := IncludesInOrder(disk, incs, hostFile);
    m := QueueIncludes(disk, incs, hostFile);
  }

  /** The loop of read_meta_doc. */
  method QueueIncludes(disk: Disk, incs: seq<Include>, hostFile: string) returns (m: Option<Meta>)
    ensures m == ReadIncludes(disk, incs, hostFile)
  {
    m := Some(Meta([], hostFile));
    for i := 0 to |incs|
      invariant m.Some? && m == ReadIncludes(disk, incs[..i], hostFile)
    {
      var meta, inc := m.value, incs[i];
      assert incs[..i + 1][..i] == incs[..i];
      m := None;
      if inc.tag.HostSpecific? {
        if meta.hostFile == "" {
          m := Some(Meta(meta.queued + [], AbsCfgPath(disk, inc.text)));
        }
      } else {
        var q := QueuedByInclude(disk, inc);
        if q.Some? {
          m := Some(Meta(meta.queued + q.value, meta.hostFile));
        }
      }
      if m.None? {
        FailedIncludes(disk, incs, i + 1, hostFile);
        return;
      }
    }
    assert incs[..|incs|] == incs;
  }

  /** What reading a clean document into a new root node gives. */
  lemma NewRootRead(conv: Converters, t: Tree, t': Tree, f: File, r: Outcome)
    requires t == map[Top := Cell(NoKind, "")] && !f.Empty? && CleanFile(f)
    requires DocAs(conv, t, t', Top, f.doc, r)
    ensures r.Done? <==> AllClassified(FileTexts(f), conv)
    ensures r.Done? ==> Sound(t', conv) && NoRootName(t') && Leaves(t') == FileLeaves(conv, f)
  {
    assert Leaves(t) == map[];
    assert Around(Leaves(t), Top) == map[];
    if r.Done? {
      if f.doc.Mapping? && f.doc.entries != [] {
        NothingYet(Around(Leaves(t), Top), LeafCells(FileTexts(f), conv));
      }
      NamesOfLeaves(t');
    }
  }

  lemma NamesOfLeaves(t: Tree)
    requires Shape(t) && forall p | p in Leaves(t) :: !Mentions(p, "root")
    ensures NoRootName(t)
  {
    forall p | p in t ensures !Mentions(p, "root") {
      if p != Top {
        var q := LeafAtOrBelow(t, p, {});
        if Mentions(p, "root") { MentionsBelow(p, q, "root"); }
      }
    }
  }

  /** A tree read from the file `f`. */
  ghost predicate FileTree(conv: Converters, t: Tree, f: File) {
    Sound(t, conv) && NoRootName(t) && Leaves(t) == FileLeaves(conv, f)
  }

  /** The document part of read_yaml_file: null if the file has none. */
  method ReadYamlFile(conv: Converters, f: File) returns (ok: bool, sub: Node?, ghost t: Layout)
    requires f.Empty? || WellKeyed(f.doc)
    ensures sub == null <==> f.Empty? || !ok
    ensures sub != null ==> Holds(sub, t) && fresh(t.repr) && sub.name == "root"
    ensures CleanFile(f) ==> (ok <==> AllClassified(FileTexts(f), conv)) && (sub != null ==> FileTree(conv, View(t), f))
  {
    if f.Empty? {
      return true, null, Layout(map[], {});
    }
    var n: Node;
    ghost var t0: Layout;
    n, t0 := NewRoot();
    var r: Outcome;
    r, t := ReadConfigDoc(conv, f.doc, n, n, t0, Top);
    OldAndNew(t0.repr, t.repr);
    if CleanFile(f) {
      NewRootRead(conv, map[Top := Cell(NoKind, "")], View(t), f, r);
    }
    ok := r.Done?;
    sub := if ok then n else null;
  }

  lemma OldAndNew(a: set<Node>, b: set<Node>)
    requires a <= b
    ensures b == (b - a) + a
  {
  }

  /** new YamlConfigurationNode("root") */
  method NewRoot() returns (n: Node, ghost t: Layout)
    ensures n.name == "root" && Holds(n, t) && fresh(t.repr) && Top in t.at && t.at[Top] == n
    ensures View(t) == map[Top := Cell(NoKind, "")]
  {
    n := new Node.Named("root", NoKind, "", Top);
    t := Layout(map[Top := n], {n});
    SingleNode(n, t);
  }

  lemma SingleNode(n: Node, t: Layout)
    requires t == Layout(map[Top := n], {n}) && n.place == Top && n.children == map[]
    ensures Holds(n, t) && View(t) == map[Top := Cell(n.kind, n.scalar)]
  {
    assert Snap(t) == map[Top := Content(n.kind, n.scalar, map[])];
  }

  // --- merging a file -------------------------------------------------------

  lemma MergedLeaves(conv: Converters, a: Tree, a': Tree, b: Tree, r: Outcome)
    requires Sound(a, conv) && Sound(b, conv) && NoRootName(b)
    requires MergedAs(conv, a, a', b, Below(b.Keys, Top), Top, Top, r)
    ensures r.Done? <==> !LeafClash(Leaves(a), Leaves(b))
    ensures r.Done? ==> Sound(a', conv) && Leaves(a') == Overlay(Leaves(a), Leaves(b))
  {
    BelowTop(b);
    assert ClashIn(a, b, b.Keys) <==> Clashes(a, b) by {
      if Clashes(a, b) {
        var p :| Clash(a, b, p);
        assert p in b.Keys;
      }
    }
    ClashesAreLeafClashes(a, b, conv);
    if r.Done? {
      LeavesOfMerge(a, b, conv);
    }
  }

  lemma BelowTop(b: Tree)
    ensures Below(b.Keys, Top) == b.Keys
  {
    forall p | p in b ensures p in Below(b.Keys, Top) {
      TopIsAbove(p);
    }
  }

  function WithoutRoot(p: Path): Path {
    if p.Top? then Top else if p.last == "root" then WithoutRoot(p.front) else Snoc(WithoutRoot(p.front), p.last)
  }

  lemma {:induction false} LandsWithoutRoot(p: Path)
    ensures Landing(p, Top, Top) == WithoutRoot(p)
  {
    if p.Top? {
    } else {
      LandsWithoutRoot(p.front);
    }
  }

  /** A merge that does not throw makes a node for every node of the tree merged in, under its path without
      the elements "root", and no others. */
  lemma MergedPaths(conv: Converters, a: Tree, a': Tree, b: Tree)
    requires Sound(b, conv) && MergedAs(conv, a, a', b, Below(b.Keys, Top), Top, Top, Done)
    ensures a'.Keys == a.Keys + set p | p in b :: WithoutRoot(p)
  {
    BelowTop(b);
    forall p ensures Landing(p, Top, Top) == WithoutRoot(p) {
      LandsWithoutRoot(p);
    }
  }

  /** operator+= sends a node called "root" to the tree itself, so a merge that does not throw is the
      overlay exactly if the tree merged in has none. */
  lemma MergeIsOverlayIff(conv: Converters, a: Tree, a': Tree, b: Tree)
    requires Sound(a, conv) && NoRootName(a) && Sound(b, conv) && Shape(a')
    requires MergedAs(conv, a, a', b, Below(b.Keys, Top), Top, Top, Done)
    ensures Leaves(a') == Overlay(Leaves(a), Leaves(b)) <==> NoRootName(b)
  {
    if NoRootName(b) {
      MergedLeaves(conv, a, a', b, Done);
    }
    if Leaves(a') == Overlay(Leaves(a), Leaves(b)) {
      OverlayNeedsNoRootName(a, b, a');
    }
  }

  /** Merging the file `f` made `a'` of the tree `a`, or failed; it never makes a node called "root". */
  ghost predicate FileMerged(conv: Converters, a: Tree, a': Tree, f: File, ok: bool) {
    && (NoRootName(a) ==> NoRootName(a'))
    && (Sound(a, conv) && CleanFile(f) ==>
          && (ok <==> Overlaid(conv, Leaves(a), f).Some?)
          && (ok ==> Sound(a', conv) && Leaves(a') == Overlaid(conv, Leaves(a), f).value))
  }

  /** *root += sub_root for the tree of a file; the two trees share no node afterwards either. */
  method MergeFile(conv: Converters, root: Node, sub: Node, ghost t: Layout, ghost u: Layout, ghost f: File)
      returns (ok: bool, ghost t': Layout)
    requires Holds(root, t) && Holds(sub, u) && t.repr !! u.repr && sub.name == "root"
    requires CleanFile(f) ==> AllClassified(FileTexts(f), conv) && FileTree(conv, View(u), f)
    modifies t.repr
    ensures Holds(root, t') && Holds(sub, u) && View(u) == old(View(u)) && t'.repr !! u.repr
    ensures t.repr <= t'.repr && fresh(t'.repr - t.repr)
    ensures FileMerged(conv, old(View(t)), View(t'), f, ok)
  {
    ghost var a, b := View(t), View(u);
    var r: Outcome;
    r, t' := PlusAssign(conv, root, sub, root, t, Top, sub, u, Top, b);
    if Sound(a, conv) && CleanFile(f) {
      MergedLeaves(conv, a, View(t'), b, r);
    }
    ok := r.Done?;
  }

  // --- the worklist ---------------------------------------------------------

  /** What a list of includes queues does not depend on the host file known before. */
  lemma {:induction false} SameQueue(disk: Disk, incs: seq<Include>, hostFile: string)
    requires ReadIncludes(disk, incs, hostFile).Some?
    ensures ReadIncludes(disk, incs, "").Some?
    ensures ReadIncludes(disk, incs, "").value.queued == ReadIncludes(disk, incs, hostFile).value.queued
    ensures ReadIncludes(disk, incs, "").value.hostFile in {"", ReadIncludes(disk, incs, hostFile).value.hostFile}
    decreases |incs|
  {
    if incs == [] {
    } else {
      SameQueue(disk, incs[..|incs| - 1], hostFile);
    }
  }

  /** One turn of the worklist loop, seen on the leaf maps. */
  ghost predicate TurnAs(conv: Converters, disk: Disk, e: QueueEntry, s: Progress, s': Progress, ok: bool) {
    CleanDisk(disk) ==> (ok <==> ReadOne(conv, disk, e, s).Some?) && (ok ==> ReadOne(conv, disk, e, s) == Some(s'))
  }

  /** The entry `e` made `t'` of the tree `t`, or failed. */
  ghost predicate Turned(
    conv: Converters, disk: Disk, e: QueueEntry, t: Tree, hostFile: string, files: seq<string>,
    t': Tree, hostFile': string, files': seq<string>, ok: bool)
  {
    && (NoRootName(t) ==> NoRootName(t'))
    && (Sound(t, conv) ==>
          && TurnAs(conv, disk, e, Progress(Leaves(t), hostFile, files), Progress(Leaves(t'), hostFile', files'), ok)
          && (CleanDisk(disk) && ok ==> Sound(t', conv)))
  }

  lemma FileTurn(
    conv: Converters, disk: Disk, e: QueueEntry, t: Tree, hostFile: string, files: seq<string>,
    t': Tree, m: Meta, ok: bool)
    requires Reads(disk, e) && ReadIncludes(disk, Includes(disk.files[e.name]), hostFile) == Some(m)
    requires FileMerged(conv, t, t', disk.files[e.name], ok)
    ensures var files' := if disk.files[e.name].Empty? then files else files + [e.name];
            Turned(conv, disk, e, t, hostFile, files, t', m.hostFile, files', ok)
  {
  }

  /** The loop body for an entry that names a file. */
  method ReadQueued(
      conv: Converters, disk: Disk, e: QueueEntry, root: Node, hostFile: string, files: seq<string>, ghost t: Layout)
      returns (ok: bool, hostFile': string, files': seq<string>, queued: seq<QueueEntry>, ghost t': Layout)
    requires Holds(root, t) && WellKeyedDisk(disk) && !e.isDir
    modifies t.repr
    ensures Holds(root, t') && t.repr <= t'.repr && fresh(t'.repr - t.repr)
    ensures ok ==> queued == QueuedBy(disk, e)
    ensures e.name !in disk.files ==>
              (ok <==> e.ignoreMissing) && View(t') == old(View(t)) && hostFile' == hostFile && files' == files
    ensures ok && e.name in disk.files ==> files' == if disk.files[e.name].Empty? then files else files + [e.name]
    ensures Turned(conv, disk, e, old(View(t)), hostFile, files, View(t'), hostFile', files', ok)
  {
    ghost var before := View(t);
    hostFile', files', queued, t' := hostFile, files, [], t;
    if e.name !in disk.files {
      ok := e.ignoreMissing;
    } else {
      var f := disk.files[e.name];
      var m := ReadMetaDoc(disk, Includes(f), hostFile);
      if m.None? {
        assert unchanged(t.repr);
        return false, hostFile', files', queued, t';
      }
      SameQueue(disk, Includes(f), hostFile);
      hostFile', queued := m.value.hostFile, m.value.queued;
      files' := if f.Empty? then files else files + [e.name];
      ok, t' := ReadAndMerge(conv, f, root, t);
      FileTurn(conv, disk, e, before, hostFile, files, View(t'), m.value, ok);
    }
  }

  /** read_yaml_file beside another tree. */
  method ReadBeside(conv: Converters, f: File, root: Node, ghost t: Layout)
      returns (ok: bool, sub: Node?, ghost u: Layout)
    requires Holds(root, t) && (f.Empty? || WellKeyed(f.doc))
    ensures Holds(root, t) && View(t) == old(View(t))
    ensures sub == null <==> f.Empty? || !ok
    ensures sub != null ==> Holds(sub, u) && fresh(u.repr) && t.repr !! u.repr && sub.name == "root"
    ensures CleanFile(f) ==> (ok <==> AllClassified(FileTexts(f), conv)) && (sub != null ==> FileTree(conv, View(u), f))
  {
    ok, sub, u := ReadYamlFile(conv, f);
    assert unchanged(t.repr);
  }

  /** sub_root = read_yaml_file(...); if (sub_root) { *root += sub_root; delete sub_root; } */
  method ReadAndMerge(conv: Converters, f: File, root: Node, ghost t: Layout) returns (ok: bool, ghost t': Layout)
    requires Holds(root, t) && (f.Empty? || WellKeyed(f.doc))
    modifies t.repr
    ensures Holds(root, t') && t.repr <= t'.repr && fresh(t'.repr - t.repr)
    ensures FileMerged(conv, old(View(t)), View(t'), f, ok)
  {
    var sub: Node?;
    ghost var u: Layout;
    ok, sub, u := ReadBeside(conv, f, root, t);
    t' := t;
    if sub != null {
      ok, t' := MergeFile(conv, root, sub, t, u, f);
    } else {
      NoSubtree(conv, View(t), f, ok);
    }
  }

  lemma NoSubtree(conv: Converters, a: Tree, f: File, ok: bool)
    requires f.Empty? || !ok
    requires CleanFile(f) ==> (ok <==> AllClassified(FileTexts(f), conv))
    ensures FileMerged(conv, a, a, f, ok)
  {
    OverlayNothing(Leaves(a));
  }

  /** The worklist loop turned the queue it started from into `q`, having built the tree `t`. */
  ghost predicate Underway(
    conv: Converters, disk: Disk, whole: Option<Progress>, q: seq<QueueEntry>, t: Tree,
    hostFile: string, files: seq<string>)
  {
    && NoRootName(t) && !LeadsIntoCycle(disk, q)
    && (CleanDisk(disk) ==>
          Sound(t, conv) && LoadQueue(conv, disk, q, Progress(Leaves(t), hostFile, files)) == whole)
  }

  lemma NextTurn(
    conv: Converters, disk: Disk, whole: Option<Progress>, q: seq<QueueEntry>,
    t: Tree, hostFile: string, files: seq<string>, t': Tree, hostFile': string, files': seq<string>, ok: bool)
    requires q != [] && Underway(conv, disk, whole, q, t, hostFile, files)
    requires Turned(conv, disk, q[0], t, hostFile, files, t', hostFile', files', ok)
    ensures if ok then Underway(conv, disk, whole, q[1..] + QueuedBy(disk, q[0]), t', hostFile', files')
            else NoRootName(t') && (CleanDisk(disk) ==> whole.None?)
  {
    OneTurnLess(disk, q);
  }

  /** The loop body: read the front of the queue. */
  method ReadFront(
      conv: Converters, disk: Disk, queue: seq<QueueEntry>, root: Node, hostFile: string, files: seq<string>,
      dirs: seq<string>, ghost t: Layout, ghost whole: Option<Progress>)
      returns (ok: bool, queue': seq<QueueEntry>, hostFile': string, files': seq<string>, dirs': seq<string>,
               ghost t': Layout)
    requires WellKeyedDisk(disk) && queue != []
    requires Holds(root, t) && Underway(conv, disk, whole, queue, View(t), hostFile, files)
    modifies t.repr
    ensures Holds(root, t') && t.repr <= t'.repr && fresh(t'.repr - t.repr)
    ensures queue' == queue[1..] + (if ok then QueuedBy(disk, queue[0]) else [])
    ensures dirs' == if queue[0].isDir then dirs + [queue[0].name] else dirs
    ensures queue[0].isDir ==> ok && View(t') == old(View(t)) && hostFile' == hostFile && files' == files
    ensures if ok then Underway(conv, disk, whole, queue', View(t'), hostFile', files')
            else NoRootName(View(t')) && (CleanDisk(disk) ==> whole.None?)
  {
    var qe, more := queue[0], [];
    ghost var before := View(t);
    ok, hostFile', files', dirs', t' := true, hostFile, files, dirs, t;
    if qe.isDir {
      dirs' := dirs + [qe.name];
    } else {
      ok, hostFile', files', more, t' := ReadQueued(conv, disk, qe, root, hostFile, files, t);
    }
    NextTurn(conv, disk, whole, queue, before, hostFile, files, View(t'), hostFile', files', ok);
    queue' := queue[1..] + (if ok then more else []);
  }

  /** The worklist loop. */
  method ReadAll(
      conv: Converters, disk: Disk, q: seq<QueueEntry>, root: Node, ghost t: Layout, ghost whole: Option<Progress>)
      returns (ok: bool, hostFile: string, files: seq<string>, dirs: seq<string>, ghost t': Layout)
    requires WellKeyedDisk(disk) && Holds(root, t) && Underway(conv, disk, whole, q, View(t), "", [])
    modifies t.repr
    ensures Holds(root, t') && t.repr <= t'.repr && fresh(t'.repr - t.repr)
    ensures if ok then Underway(conv, disk, whole, [], View(t'), hostFile, files)
            else NoRootName(View(t')) && (CleanDisk(disk) ==> whole.None?)
  {
    hostFile, files, dirs, ok, t' := "", [], [], true, t;
    var queue := q;
    while queue != [] && ok
      invariant Holds(root, t') && t.repr <= t'.repr && fresh(t'.repr - t.repr)
      invariant if ok then Underway(conv, disk, whole, queue, View(t'), hostFile, files)
                else NoRootName(View(t')) && (CleanDisk(disk) ==> whole.None?)
      decreases ok, if ok then TurnsLeft(disk, queue) else 0
    {
      OneTurnLess(disk, queue);
      ghost var repr := t'.repr;
      ok, queue, hostFile, files, dirs, t' := ReadFront(conv, disk, queue, root, hostFile, files, dirs, t', whole);
      Between(t.repr, repr, t'.repr);
    }
  }

  method LoadFiles(conv: Converters, disk: Disk, filename: string)
      returns (ok: bool, root: Node, hostFile: string, files: seq<string>, dirs: seq<string>, ghost t: Layout)
    requires WellKeyedDisk(disk) && !LeadsIntoCycle(disk, Start(filename))
    ensures Holds(root, t) && fresh(t.repr)
    ensures LoadedFiles(conv, disk, filename, View(t), hostFile, files, ok)
  {
    root, t := UnreadRoot();
    EmptySound(conv, View(t));
    ghost var whole, repr := LoadQueue(conv, disk, Start(filename), NOTHING), t.repr;
    ok, hostFile, files, dirs, t := ReadAll(conv, disk, Start(filename), root, t, whole);
    OldAndNew(repr, t.repr);
  }

  ghost predicate LoadedFiles(
    conv: Converters, disk: Disk, filename: string, t: Tree,
    hostFile: string, files: seq<string>, ok: bool)
    requires !LeadsIntoCycle(disk, Start(filename))
  {
    && NoRootName(t)
    && (CleanDisk(disk) ==>
          var r := LoadQueue(conv, disk, Start(filename), NOTHING);
          && (ok <==> r.Some?)
          && (ok ==> Sound(t, conv) && r.value == Progress(Leaves(t), hostFile, files)))
  }

  /** new YamlConfigurationNode() */
  method UnreadRoot() returns (n: Node, ghost t: Layout)
    ensures n.name == "root" && Holds(n, t) && fresh(t.repr)
    ensures View(t) == map[Top := Cell(Unknown, "")]
  {
    n := new Node.Root();
    t := Layout(map[Top := n], {n});
    SingleNode(n, t);
  }

  lemma EmptySound(conv: Converters, t: Tree)
    requires t.Keys == {Top} && !t[Top].kind.IsScalar()
    ensures Sound(t, conv) && Leaves(t) == map[]
  {
  }

  // --- the host file --------------------------------------------------------

  /** Reading and merging the host file turned the effective tree `a` into `t` and made the tree `u`. */
  ghost predicate HostAs(
    conv: Converters, disk: Disk, a: Tree, hostFile: string, files: seq<string>, t: Tree, u: Tree, ok: bool)
  {
    && (NoRootName(a) ==> NoRootName(t))
    && (Sound(a, conv) && CleanDisk(disk) ==>
          var r := WithHost(conv, disk, Progress(Leaves(a), hostFile, files));
          && (ok <==> r.Some?)
          && (ok ==> Sound(t, conv) && Sound(u, conv) && r == Some(Loaded(Leaves(t), Leaves(u), hostFile))))
  }

  lemma HostNotRead(
    conv: Converters, disk: Disk, a: Tree, hostFile: string, files: seq<string>, u: Tree, m: Option<Meta>,
    missing: bool)
    requires u == map[Top := Cell(Unknown, "")] && (missing <==> hostFile == "" || hostFile !in disk.files)
    requires !missing ==>
               m == ReadIncludes(disk, Includes(disk.files[hostFile]), hostFile) && (m.None? || m.value.queued != [])
    ensures HostAs(conv, disk, a, hostFile, files, a, u, missing)
  {
    EmptySound(conv, u);
  }

  lemma HostRead(
    conv: Converters, disk: Disk, a: Tree, hostFile: string, files: seq<string>, t: Tree, u: Tree, m: Option<Meta>,
    read: bool)
    requires hostFile != "" && hostFile in disk.files
    requires m.Some? && m == ReadIncludes(disk, Includes(disk.files[hostFile]), hostFile) && m.value.queued == []
    requires FileMerged(conv, a, t, disk.files[hostFile], read) && HostTree(conv, u, disk.files[hostFile], read)
    ensures HostAs(conv, disk, a, hostFile, files, t, u, read)
  {
  }

  /** An unread tree beside another tree. */
  method UnreadBeside(root: Node, ghost t: Layout) returns (n: Node, ghost u: Layout)
    requires Holds(root, t)
    ensures Holds(root, t) && View(t) == old(View(t))
    ensures Holds(n, u) && fresh(u.repr) && t.repr !! u.repr
    ensures View(u) == map[Top := Cell(Unknown, "")]
  {
    n, u := UnreadRoot();
    assert unchanged(t.repr);
  }

  ghost predicate HostTree(conv: Converters, u: Tree, f: File, ok: bool) {
    CleanFile(f) && ok ==> Sound(u, conv) && Leaves(u) == FileLeaves(conv, f)
  }

  /** The end of read_yaml_config: the overrides are read and merged last. */
  method ReadHost(conv: Converters, disk: Disk, root: Node, hostFile: string, files: seq<string>, ghost t: Layout)
      returns (ok: bool, hostRoot: Node, files': seq<string>, ghost t': Layout, ghost u: Layout)
    requires WellKeyedDisk(disk) && Holds(root, t)
    modifies t.repr
    ensures Holds(root, t') && t.repr <= t'.repr && fresh(t'.repr - t.repr)
    ensures Holds(hostRoot, u) && fresh(u.repr) && t'.repr !! u.repr
    ensures HostAs(conv, disk, old(View(t)), hostFile, files, View(t'), View(u), ok)
    ensures hostFile == "" || hostFile !in disk.files ==>
              ok && View(t') == old(View(t)) && View(u) == map[Top := Cell(Unknown, "")]
  {
    ghost var before := View(t);
    var m: Option<Meta> := None;
    var missing := hostFile == "" || hostFile !in disk.files;
    if !missing {
      m := ReadMetaDoc(disk, Includes(disk.files[hostFile]), hostFile);
    }
    if missing || m.None? || m.value.queued != [] {
      ok, files', t' := missing, files, t;
      hostRoot, u := UnreadBeside(root, t);
      HostNotRead(conv, disk, before, hostFile, files, View(u), m, ok);
    } else {
      var f := disk.files[hostFile];
      files' := if f.Empty? then files else files + [hostFile];
      ok, hostRoot, t', u := ReadHostFile(conv, f, root, t);
      HostRead(conv, disk, before, hostFile, files, View(t'), View(u), m, ok);
    }
  }

  method ReadHostFile(conv: Converters, f: File, root: Node, ghost t: Layout)
      returns (ok: bool, hostRoot: Node, ghost t': Layout, ghost u: Layout)
    requires (f.Empty? || WellKeyed(f.doc)) && Holds(root, t)
    modifies t.repr
    ensures Holds(root, t') && t.repr <= t'.repr && fresh(t'.repr - t.repr)
    ensures Holds(hostRoot, u) && fresh(u.repr) && t'.repr !! u.repr
    ensures FileMerged(conv, old(View(t)), View(t'), f, ok)
    ensures HostTree(conv, View(u), f, ok)
  {
    var sub: Node?;
    ok, sub, u := ReadBeside(conv, f, root, t);
    if sub == null {
      t' := t;
      hostRoot, u := NoHostTree(conv, f, root, t, ok);
    } else {
      hostRoot := sub;
      ok, t' := MergeFile(conv, root, sub, t, u, f);
    }
  }

  /** There is no tree to merge, or it could not be read. */
  method NoHostTree(conv: Converters, f: File, root: Node, ghost t: Layout, ok: bool)
      returns (hostRoot: Node, ghost u: Layout)
    requires Holds(root, t) && (f.Empty? || !ok) && (CleanFile(f) ==> (ok <==> AllClassified(FileTexts(f), conv)))
    ensures Holds(root, t) && View(t) == old(View(t)) && FileMerged(conv, View(t), View(t), f, ok)
    ensures Holds(hostRoot, u) && fresh(u.repr) && t.repr !! u.repr && HostTree(conv, View(u), f, ok)
  {
    hostRoot, u := UnreadBeside(root, t);
    NoSubtree(conv, View(t), f, ok);
    EmptySound(conv, View(u));
  }

  ghost predicate LoadedConfig(
    conv: Converters, disk: Disk, filename: string, t: Tree, u: Tree, hostFile: string,
    ok: bool)
    requires !LeadsIntoCycle(disk, Start(filename))
  {
    && NoRootName(t)
    && (CleanDisk(disk) ==>
          && (ok <==> LoadConfig(conv, disk, filename).Some?)
          && (ok ==> Sound(t, conv) && Sound(u, conv)
                     && LoadConfig(conv, disk, filename) == Some(Loaded(Leaves(t), Leaves(u), hostFile))))
  }

  method ReadYamlConfig(conv: Converters, disk: Disk, filename: string)
      returns (ok: bool, root: Node, hostRoot: Node, hostFile: string, files: seq<string>, dirs: seq<string>,
               ghost t: Layout, ghost u: Layout)
    requires WellKeyedDisk(disk) && !LeadsIntoCycle(disk, Start(filename))
    ensures Holds(root, t) && Holds(hostRoot, u) && fresh(t.repr) && fresh(u.repr) && t.repr !! u.repr
    ensures LoadedConfig(conv, disk, filename, View(t), View(u), hostFile, ok)
  {
    ok, root, hostFile, files, dirs, t := LoadFiles(conv, disk, filename);
    if ok {
      ghost var repr := t.repr;
      ok, hostRoot, files, t, u := ReadHost(conv, disk, root, hostFile, files, t);
      OldAndNew(repr, t.repr);
    } else {
      hostRoot, u := UnreadRoot();
    }
  }
}
