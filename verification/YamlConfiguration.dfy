/** The configuration object: the effective tree, the persisted overrides and the files behind them. */
module YamlConfiguration {
  import opened ConfigTree
  import opened ConfigOverlay
  import opened Options
  import opened ConfigNode
  import opened ConfigListing
  import opened ConfigLoad
  import opened ConfigFiles
  import opened ConfigOverrides
  import opened ConfigPair

  /** The host file, if there is one, was replaced by a dump of `host`. */
  ghost predicate Persisted(disk: Disk, disk': Disk, hostFile: string, host: Tree) {
    if hostFile == "" then disk' == disk
    else
      && hostFile in disk'.files && IsDump(disk'.files[hostFile], host)
      && disk' == disk.(files := disk.files[hostFile := disk'.files[hostFile]])
  }

  /** After the trees have been changed the host file is written, which throws if there is none. */
  ghost predicate Finished(disk: Disk, disk': Disk, hostFile: string, host: Tree, r0: Outcome, r: Outcome) {
    if r0.Done? then r == (if hostFile == "" then NoHostFile else Done) && Persisted(disk, disk', hostFile, host)
    else r == r0 && disk' == disk
  }

  /** The outcome of changing the trees, before the host file is written. */
  function BeforeWriting(r: Outcome): Outcome {
    if r.NoHostFile? then Done else r
  }

  class YamlConfiguration {
    const conv: Converters
    const configFile: string
    var disk: Disk
    var hostFile: string
    var root: Node
    var hostRoot: Node

    ghost predicate Valid(t: Layout, u: Layout)
      reads this, t.repr, u.repr
    {
      Holds(root, t) && Holds(hostRoot, u) && t.repr !! u.repr
    }

    /** Until the first load the trees are unread. */
    constructor (c: Converters, file: string, d: Disk)
      ensures conv == c && configFile == file && disk == d && hostFile == ""
    {
      conv, configFile, disk, hostFile := c, file, d, "";
      root := new Node.Root();
      hostRoot := new Node.Root();
    }

    /** Take over freshly read trees. */
    method Adopt(newRoot: Node, newHostRoot: Node, newHostFile: string, ghost t: Layout, ghost u: Layout)
      requires Holds(newRoot, t) && Holds(newHostRoot, u) && t.repr !! u.repr
      modifies this`root, this`hostRoot, this`hostFile
      ensures root == newRoot && hostRoot == newHostRoot && hostFile == newHostFile
      ensures Valid(t, u) && View(t) == old(View(t)) && View(u) == old(View(u))
    {
      label read:
      root, hostRoot, hostFile := newRoot, newHostRoot, newHostFile;
      assert unchanged@read(t.repr) && unchanged@read(u.repr);
    }

    /** load */
    method Load() returns (ok: bool, ghost t: Layout, ghost u: Layout)
      requires WellKeyedDisk(disk) && !LeadsIntoCycle(disk, Start(configFile))
      modifies this`root, this`hostRoot, this`hostFile
      ensures Valid(t, u) && fresh(t.repr) && fresh(u.repr)
      ensures LoadedConfig(conv, disk, configFile, View(t), View(u), hostFile, ok)
    {
      var newRoot, newHostRoot: Node;
      var newHostFile: string;
      var files, dirs: seq<string>;
      ok, newRoot, newHostRoot, newHostFile, files, dirs, t, u := ReadYamlConfig(conv, disk, configFile);
      Adopt(newRoot, newHostRoot, newHostFile, t, u);
    }

    method WriteHostFile(ghost t: Layout, ghost u: Layout) returns (r: Outcome)
      requires Valid(t, u)
      modifies this`disk
      ensures Valid(t, u) && View(t) == old(View(t)) && View(u) == old(View(u))
      ensures Finished(old(disk), disk, hostFile, View(u), Done, r)
    {
      if hostFile == "" {
        return NoHostFile;
      }
      var f := Dump(hostRoot, u);
      label dumped:
      disk := disk.(files := disk.files[hostFile := f]);
      assert unchanged@dumped(t.repr) && unchanged@dumped(u.repr);
      r := Done;
    }

    /** set_float, set_uint, set_int, set_bool and set_string, for the text of the value. */
    method SetValue(path: seq<Name>, s: string, ghost t: Layout, ghost u: Layout)
        returns (r: Outcome, ghost t': Layout, ghost u': Layout)
      requires Valid(t, u)
      modifies this`disk, t.repr, u.repr
      ensures Valid(t', u') && fresh(t'.repr - t.repr) && fresh(u'.repr - u.repr)
      ensures SetAs(conv, old(View(t)), old(View(u)), View(t'), View(u'), PathOf(path), s, BeforeWriting(r))
      ensures Finished(old(disk), disk, hostFile, View(u'), BeforeWriting(r), r)
    {
      r, t', u' := SetTrees(conv, path, s, root, hostRoot, t, u);
      if r.Done? {
        r := WriteHostFile(t', u');
      }
    }

    method Erase(path: seq<Name>, ghost t: Layout, ghost u: Layout)
        returns (r: Outcome, ghost t': Layout, ghost u': Layout)
      requires Valid(t, u)
      modifies this`disk, t.repr, u.repr
      ensures Valid(t', u') && fresh(t'.repr - t.repr) && fresh(u'.repr - u.repr)
      ensures EraseAs(conv, old(View(t)), old(View(u)), View(t'), View(u'), PathOf(path), BeforeWriting(r))
      ensures Finished(old(disk), disk, hostFile, View(u'), BeforeWriting(r), r)
    {
      r, t', u' := EraseTrees(conv, path, root, hostRoot, t, u);
      if r.Done? {
        r := WriteHostFile(t', u');
      }
    }

    /** fam_event: re-read everything, and swap the trees if some leaf differs. `ok` says that nothing
        was thrown and caught, and `read` is what has been read. */
    method FamEvent(ghost t: Layout, ghost u: Layout)
        returns (ok: bool, changes: seq<string>, ghost read: Trees, ghost t': Layout, ghost u': Layout)
      requires Valid(t, u) && WellKeyedDisk(disk) && !LeadsIntoCycle(disk, Start(configFile))
      modifies this`root, this`hostRoot, this`hostFile
      ensures Valid(t', u')
      ensures !LeadsIntoCycle(old(disk), Start(configFile))
      ensures Reread(conv, old(disk), configFile, Leaves(old(View(t))), read, ok, changes)
      ensures ok ==> Leaves(View(t')) == read.root
      ensures changes == [] ==> hostFile == old(hostFile) && View(t') == old(View(t)) && View(u') == old(View(u))
      ensures changes != [] ==>
                && ok && TreesOf(View(t'), View(u')) == read
                && LoadedConfig(conv, old(disk), configFile, View(t'), View(u'), hostFile, true)
    {
      ghost var before := View(t);
      var newRoot, newHostRoot, newHostFile;
      ok, changes, newRoot, newHostRoot, newHostFile, t', u' := ReadAgain(conv, disk, configFile, root, t);
      assert unchanged(t.repr) && unchanged(u.repr);
      read := TreesOf(View(t'), View(u'));
      EmptyDiff(Leaves(before), read.root, ok, changes);
      t', u' := AdoptIf(changes != [], newRoot, newHostRoot, newHostFile, t, u, t', u');
    }

    /** The end of fam_event. */
    method AdoptIf(
        swap: bool, newRoot: Node, newHostRoot: Node, newHostFile: string,
        ghost t: Layout, ghost u: Layout, ghost nt: Layout, ghost nu: Layout)
        returns (ghost t': Layout, ghost u': Layout)
      requires Valid(t, u) && Holds(newRoot, nt) && Holds(newHostRoot, nu) && nt.repr !! nu.repr
      modifies this`root, this`hostRoot, this`hostFile
      ensures Valid(t', u')
      ensures hostFile == if swap then newHostFile else old(hostFile)
      ensures View(t') == old(if swap then View(nt) else View(t))
      ensures View(u') == old(if swap then View(nu) else View(u))
    {
      t', u' := t, u;
      if swap {
        Adopt(newRoot, newHostRoot, newHostFile, nt, nu);
        t', u' := nt, nu;
      }
    }
  }

  /** The first half of fam_event. */
  method ReadAgain(
      conv: Converters, disk: Disk, filename: string, root: Node,
      ghost t: Layout)
      returns (ok: bool, changes: seq<string>, newRoot: Node, newHostRoot: Node, newHostFile: string,
               ghost nt: Layout, ghost nu: Layout)
    requires Holds(root, t) && WellKeyedDisk(disk) && !LeadsIntoCycle(disk, Start(filename))
    ensures Holds(newRoot, nt) && Holds(newHostRoot, nu) && nt.repr !! nu.repr
    ensures LoadedConfig(conv, disk, filename, View(nt), View(nu), newHostFile, ok)
    ensures Reread(conv, disk, filename, Leaves(old(View(t))), TreesOf(View(nt), View(nu)), ok, changes)
  {
    ghost var before := View(t);
    var files, dirs;
    ok, newRoot, newHostRoot, newHostFile, files, dirs, nt, nu := ReadYamlConfig(conv, disk, filename);
    assert unchanged(t.repr);
    ghost var read, host := View(nt), View(nu);
    changes := Changes(ok, root, newRoot, t, nt, before, read);
    RereadFrom(conv, disk, filename, before, read, host, newHostFile, ok, changes);
  }

  method Changes(
      ok: bool, a: Node, b: Node, ghost ta: Layout, ghost tb: Layout, ghost before: Tree, ghost read: Tree)
      returns (changes: seq<string>)
    requires Holds(a, ta) && Holds(b, tb) && before == View(ta) && read == View(tb)
    ensures Differing(Leaves(before), Leaves(read), ok, changes)
  {
    changes := [];
    if ok {
      changes := Diff(a, b, ta, tb);
      assert unchanged(ta.repr) && unchanged(tb.repr);
    }
  }

  lemma RereadFrom(
    conv: Converters, disk: Disk, filename: string, before: Tree, root: Tree, host: Tree,
    hostFile: string, ok: bool, changes: seq<string>)
    requires !LeadsIntoCycle(disk, Start(filename)) && LoadedConfig(conv, disk, filename, root, host, hostFile, ok)
    requires Differing(Leaves(before), Leaves(root), ok, changes)
    ensures Reread(conv, disk, filename, Leaves(before), TreesOf(root, host), ok, changes)
  {
  }

  /** If reading succeeds the changes are exactly the path strings on which the leaves differ, each once,
      and otherwise there are none. */
  ghost predicate Differing(before: Tree, read: Tree, ok: bool, changes: seq<string>) {
    if ok then NoDuplicates(changes) && forall s :: s in changes <==> DiffersAt(before, read, s) else changes == []
  }

  /** Reading again gives what the files load to and reports exactly the differing paths; and whatever
      the files hold, nothing that is read is called "root". */
  ghost predicate Reread(
    conv: Converters, disk: Disk, filename: string, before: Tree, read: Trees,
    ok: bool, changes: seq<string>)
    requires !LeadsIntoCycle(disk, Start(filename))
  {
    && Differing(before, read.root, ok, changes)
    && NamesNoRoot(read.root)
    && (CleanDisk(disk) ==>
          match LoadConfig(conv, disk, filename)
          case None => !ok
          case Some(c) => ok && read == Trees(c.root, c.host))
  }

  lemma EmptyDiff(a: Tree, b: Tree, ok: bool, changes: seq<string>)
    requires Differing(a, b, ok, changes)
    ensures ok ==> (changes == [] <==> a == b)
  {
    DiffIsSymmetricAndExact(a, b);
    if ok && changes == [] {
      forall p | p in DiffPaths(a, b) ensures false {
        assert DiffersAt(a, b, Rel(Top, p));
      }
    } else if ok {
      assert DiffersAt(a, b, changes[0]);
    }
  }
}
