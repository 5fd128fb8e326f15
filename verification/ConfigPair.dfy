/** What setters and erasures do to the two trees of a configuration object, one after the other. */
module ConfigPair {
  import opened ConfigTree
  import opened ConfigOverlay
  import opened Options
  import opened ConfigNode
  import opened ConfigListing
  import opened ConfigDocument
  import opened ConfigLoad
  import opened ConfigOverrides

  /** Both trees are scalar-leaved and every override is visible. */
  ghost predicate Coherent(conv: Converters, root: Tree, host: Tree) {
    Sound(root, conv) && Sound(host, conv) && Sub(Leaves(host), Leaves(root))
  }

  ghost function TreesOf(root: Tree, host: Tree): Trees {
    Trees(Leaves(root), Leaves(host))
  }

  /** A setter goes to the effective tree first. It goes through exactly if both trees let it and its value
      has a kind; one that throws over its value, or that only the overrides refuse, has changed the
      effective tree already. The overrides do not refuse what the effective tree lets through as long
      as they are covered. */
  ghost predicate SetAs(
    conv: Converters, root: Tree, host: Tree, root': Tree, host': Tree, p: Path, s: string, r: Outcome)
  {
    var before, op := TreesOf(root, host), Set(p, s);
    && SetWith(conv, before, p, s, r)
    && TreesOf(root', host') == Next(conv, before, op)
    && (!r.Done? ==> host' == host)
    && (!Accepted(before, op) ==> root' == root)
    && (r.BadScalar? && Sound(root, conv) && p != Top ==> root' != root)
    && (Covered(before) ==> (r.NonLeaf? <==> !Accepted(before, op)))
    && (r.Done? && Coherent(conv, root, host) && p != Top ==> Coherent(conv, root', host'))
  }

  /** What a setter returns or throws. */
  ghost predicate SetWith(conv: Converters, s: Trees, p: Path, text: string, r: Outcome) {
    match r
    case Done => Succeeds(conv, s, Set(p, text))
    case NonLeaf => Inner(s.root, p) || (conv.Classify(text).Some? && Inner(s.host, p))
    case BadScalar => !Inner(s.root, p) && conv.Classify(text).None?
    case _ => false
  }

  /** An erasure goes to the overrides first. It goes through exactly if both trees let it; one that the
      effective tree refuses has removed the override already, which happens exactly if the override is
      not visible. */
  ghost predicate EraseAs(conv: Converters, root: Tree, host: Tree, root': Tree, host': Tree, p: Path, r: Outcome) {
    var before, op := TreesOf(root, host), Erase(p);
    && ErasedWith(before, p, r)
    && TreesOf(root', host') == Next(conv, before, op)
    && (!r.Done? ==> root' == root)
    && (host' != host <==> p in before.host)
    && (!r.Done? && host' != host <==> p in before.host && p !in before.root)
    && (Coherent(conv, root, host) ==> Coherent(conv, root', host') && (r.Done? || host' == host))
  }

  /** What erase returns or throws. */
  ghost predicate ErasedWith(s: Trees, p: Path, r: Outcome) {
    match r
    case Done => Erasable(s.host, p) && Erasable(s.root, p)
    case NonLeaf => Inner(s.host, p) || (Erasable(s.host, p) && Inner(s.root, p))
    case Missing(_) =>
      || (!Erasable(s.host, p) && !Inner(s.host, p))
      || (Erasable(s.host, p) && !Erasable(s.root, p) && !Inner(s.root, p))
    case _ => false
  }

  lemma InnerIffInterior(t: Tree, p: Path)
    requires Shape(t)
    ensures Inner(Leaves(t), p) <==> Interior(t, p)
  {
    InteriorIffLeafBelow(t, p);
  }

  /** One assignment, on the leaf map. */
  lemma SetLeaves(conv: Converters, t: Tree, t': Tree, p: Path, text: string, r: Outcome)
    requires Shape(t) && SetOne(conv, t, t', p, text, r)
    ensures r.NonLeaf? <==> Inner(Leaves(t), p)
    ensures r.Done? <==> !Inner(Leaves(t), p) && conv.Classify(text).Some?
    ensures r.Done? ==> Leaves(t') == Put(Leaves(t), p, Cell(conv.Classify(text).value, text))
    ensures r.BadScalar? ==> Leaves(t') == Put(Leaves(t), p, Cell(KindAt(Leaves(t), p), text))
    ensures r.BadScalar? && Sound(t, conv) && p != Top ==> t' != t
  {
    InnerIffInterior(t, p);
    if r.Done? {
      LeavesOfAssign(t, p, Cell(conv.Classify(text).value, text));
    } else if r.BadScalar? {
      var k := Insert(t, p)[p].kind;
      LeavesOfAssign(t, p, Cell(k, text));
      if p != Top {
        KindKept(t, p);
        if Sound(t, conv) { TornSet(conv, t, p, k, text); }
      }
    }
  }

  lemma SetKeepsCoherent(conv: Converters, root: Tree, host: Tree, p: Path, c: Cell)
    requires Coherent(conv, root, host) && p != Top && !Interior(root, p) && !Interior(host, p)
    requires conv.Classify(c.scalar) == Some(c.kind)
    ensures Coherent(conv, Assign(root, p, c), Assign(host, p, c))
  {
    AssignSound(root, conv, p, c);
    AssignSound(host, conv, p, c);
    LeavesOfAssign(root, p, c);
    LeavesOfAssign(host, p, c);
  }

  /** The kind a value that has none is stored under. */
  lemma KindKept(t: Tree, p: Path)
    requires Shape(t) && p != Top && !Interior(t, p)
    ensures Insert(t, p)[p].kind == KindAt(Leaves(t), p)
  {
    if p in t {
      InsertKeepsCells(t, p, p);
    } else {
      if AtOrAbove(p, p.front) { AboveTransitive(p, p.front, p); AboveIsShallower(p, p); }
      assert p !in Insert(t, p.front);
    }
  }

  /** A setter that throws over its value has changed the effective tree. */
  lemma TornSet(conv: Converters, root: Tree, p: Path, k: Kind, s: string)
    requires Sound(root, conv) && p != Top && !Interior(root, p) && conv.Classify(s).None?
    ensures Insert(root, p)[p := Cell(k, s)] != root
  {
    if p in root {
      assert SoundAt(root, conv, p);
    }
  }

  /** One erasure, on the leaf map. */
  lemma ErasedLeaves(t: Tree, t': Tree, p: Path, r: Outcome)
    requires Shape(t) && EraseOne(t, t', p, r)
    ensures r.Done? <==> Erasable(Leaves(t), p)
    ensures r.NonLeaf? <==> Inner(Leaves(t), p)
    ensures Leaves(t') == if r.Done? then Leaves(t) - {p} else Leaves(t)
    ensures t' == t <==> p !in Leaves(t)
    ensures p in Leaves(t) ==> r.Done?
  {
    InnerIffInterior(t, p);
    if p !in t && Interior(t, p) { InteriorInTree(t, p); }
    if r.Done? {
      LeavesOfPrune(t, p);
    }
  }

  lemma PrunedCoherent(conv: Converters, root: Tree, host: Tree, p: Path)
    requires Coherent(conv, root, host) && p in Leaves(host) && p in root && !Interior(root, p)
    ensures Coherent(conv, Prune(root, p), Prune(host, p))
  {
    PruneSound(root, conv, p);
    PruneSound(host, conv, p);
    LeavesOfPrune(root, p);
    LeavesOfPrune(host, p);
  }

  lemma SetEffect(
    conv: Converters, root: Tree, host: Tree, root': Tree, host': Tree, p: Path, s: string, first: Outcome, r: Outcome)
    requires BothSet(conv, root, host, root', host', p, s, first, r)
    ensures SetAs(conv, root, host, root', host', p, s, r) && !r.NoHostFile?
  {
    SetLeaves(conv, root, root', p, s, first);
    if Covered(TreesOf(root, host)) && Inner(Leaves(host), p) {
      CoveredInner(TreesOf(root, host), p);
    }
    if first.Done? {
      SetLeaves(conv, host, host', p, s, r);
      if r.Done? && Coherent(conv, root, host) && p != Top {
        SetKeepsCoherent(conv, root, host, p, Cell(conv.Classify(s).value, s));
      }
    }
  }

  lemma EraseEffect(
    conv: Converters, root: Tree, host: Tree, root': Tree, host': Tree, p: Path, first: Outcome, r: Outcome)
    requires BothErased(root, host, root', host', p, first, r)
    ensures EraseAs(conv, root, host, root', host', p, r) && !r.NoHostFile?
  {
    ErasedLeaves(host, host', p, first);
    if first.Done? {
      ErasedLeaves(root, root', p, r);
      if Coherent(conv, root, host) && p in Leaves(host) {
        PrunedCoherent(conv, root, host, p);
      }
    }
  }

  // --- the calls ------------------------------------------------------------

  lemma StillApart(a: set<Node>, b: set<Node>, a': set<Node>)
    requires a !! b && a <= a' && (a' - a) !! b
    ensures a' !! b
  {
  }

  /** set_value on one of two trees that share no node; the other one stays as it is. */
  method SetOneOfTwo(
      conv: Converters, path: seq<Name>, s: string, root: Node, ghost t: Layout, ghost other: Node, ghost u: Layout)
      returns (r: Outcome, ghost t': Layout)
    requires Holds(root, t) && Holds(other, u) && t.repr !! u.repr
    modifies t.repr
    ensures Holds(root, t') && Holds(other, u) && t'.repr !! u.repr
    ensures t.repr <= t'.repr && fresh(t'.repr - t.repr)
    ensures View(u) == old(View(u)) && Shape(old(View(t)))
    ensures SetOne(conv, old(View(t)), View(t'), PathOf(path), s, r)
  {
    r, t' := root.SetValue(conv, path, s, t);
    StillApart(t.repr, u.repr, t'.repr);
    assert unchanged(u.repr);
  }

  /** The first two statements of a setter. */
  method SetTrees(
      conv: Converters, path: seq<Name>, s: string, root: Node, host: Node, ghost t: Layout, ghost u: Layout)
      returns (r: Outcome, ghost t': Layout, ghost u': Layout)
    requires Holds(root, t) && Holds(host, u) && t.repr !! u.repr
    modifies t.repr, u.repr
    ensures Holds(root, t') && Holds(host, u') && t'.repr !! u'.repr
    ensures fresh(t'.repr - t.repr) && fresh(u'.repr - u.repr) && !r.NoHostFile?
    ensures SetAs(conv, old(View(t)), old(View(u)), View(t'), View(u'), PathOf(path), s, r)
  {
    ghost var before, hostBefore := View(t), View(u);
    ghost var first: Outcome;
    first, r, t', u' := SetInTurn(conv, path, s, root, host, t, u);
    SetEffect(conv, before, hostBefore, View(t'), View(u'), PathOf(path), s, first, r);
  }

  /** What the calls on the two trees return and do; the second one is made if the first succeeds. */
  method SetInTurn(
      conv: Converters, path: seq<Name>, s: string, root: Node, host: Node, ghost t: Layout, ghost u: Layout)
      returns (ghost first: Outcome, r: Outcome, ghost t': Layout, ghost u': Layout)
    requires Holds(root, t) && Holds(host, u) && t.repr !! u.repr
    modifies t.repr, u.repr
    ensures Holds(root, t') && Holds(host, u') && t'.repr !! u'.repr
    ensures fresh(t'.repr - t.repr) && fresh(u'.repr - u.repr)
    ensures BothSet(conv, old(View(t)), old(View(u)), View(t'), View(u'), PathOf(path), s, first, r)
  {
    assert Shape(View(u)) by { Facts(host, u); }
    r, t' := SetOneOfTwo(conv, path, s, root, t, host, u);
    first, u' := r, u;
    if r.Done? {
      r, u' := SetOneOfTwo(conv, path, s, host, u, root, t');
    }
  }

  ghost predicate BothSet(
    conv: Converters, root: Tree, host: Tree, root': Tree, host': Tree, p: Path, s: string, first: Outcome, r: Outcome)
  {
    && Shape(root) && Shape(host) && SetOne(conv, root, root', p, s, first)
    && if first.Done? then SetOne(conv, host, host', p, s, r) else host' == host && r == first
  }

  /** erase on one of two trees that share no node. */
  method EraseOneOfTwo(path: seq<Name>, root: Node, ghost t: Layout, ghost other: Node, ghost u: Layout)
      returns (r: Outcome, ghost t': Layout)
    requires Holds(root, t) && Holds(other, u) && t.repr !! u.repr
    modifies t.repr
    ensures Holds(root, t') && Holds(other, u) && t'.repr == t.repr
    ensures View(u) == old(View(u)) && Shape(old(View(t)))
    ensures EraseOne(old(View(t)), View(t'), PathOf(path), r)
  {
    r, t' := root.Erase(path, t);
    assert unchanged(u.repr);
  }

  ghost predicate BothErased(
    root: Tree, host: Tree, root': Tree, host': Tree, p: Path, first: Outcome, r: Outcome)
  {
    && Shape(root) && Shape(host) && EraseOne(host, host', p, first)
    && if first.Done? then EraseOne(root, root', p, r) else root' == root && r == first
  }

  /** The first two statements of erase. */
  method EraseTrees(conv: Converters, path: seq<Name>, root: Node, host: Node, ghost t: Layout, ghost u: Layout)
      returns (r: Outcome, ghost t': Layout, ghost u': Layout)
    requires Holds(root, t) && Holds(host, u) && t.repr !! u.repr
    modifies t.repr, u.repr
    ensures Holds(root, t') && Holds(host, u') && t'.repr !! u'.repr && !r.NoHostFile?
    ensures t'.repr == t.repr && u'.repr == u.repr
    ensures EraseAs(conv, old(View(t)), old(View(u)), View(t'), View(u'), PathOf(path), r)
  {
    ghost var before, hostBefore := View(t), View(u);
    ghost var first: Outcome;
    first, r, t', u' := EraseInTurn(path, root, host, t, u);
    EraseEffect(conv, before, hostBefore, View(t'), View(u'), PathOf(path), first, r);
  }

  /** What the calls on the two trees return and do; the second one is made if the first succeeds. */
  method EraseInTurn(path: seq<Name>, root: Node, host: Node, ghost t: Layout, ghost u: Layout)
      returns (ghost first: Outcome, r: Outcome, ghost t': Layout, ghost u': Layout)
    requires Holds(root, t) && Holds(host, u) && t.repr !! u.repr
    modifies t.repr, u.repr
    ensures Holds(root, t') && Holds(host, u') && t'.repr == t.repr && u'.repr == u.repr
    ensures BothErased(old(View(t)), old(View(u)), View(t'), View(u'), PathOf(path), first, r)
  {
    assert Shape(View(t)) by { Facts(root, t); }
    r, u' := EraseOneOfTwo(path, host, u, root, t);
    first, t' := r, t;
    if r.Done? {
      r, t' := EraseOneOfTwo(path, root, t, host, u');
    }
  }

  // --- the host file --------------------------------------------------------

  /** The file holds exactly the leaves of the tree. */
  ghost predicate IsDump(f: File, t: Tree) {
    && Includes(f) == []
    && (f.Empty? || (CleanDoc(f.doc) && WellKeyed(f.doc)))
    && FileTexts(f) == TextsOf(t, Leaves(t).Keys)
  }

  lemma CleanIsWellKeyed(d: Doc)
    requires CleanValue(d)
    ensures WellKeyed(d)
    decreases d
  {
    if d.Mapping? {
      forall i | 0 <= i < |d.entries| ensures WellKeyed(d.entries[i].value) {
        CleanIsWellKeyed(d.entries[i].value);
      }
    }
  }

  method Dump(host: Node, ghost t: Layout) returns (f: File)
    requires Holds(host, t)
    ensures IsDump(f, View(t))
  {
    KidsAre(host, t, Top);
    AllLeavesUnderTop(View(t), host.children.Keys);
    var d := Emit(host, host, t, Top);
    if d.Some? {
      CleanIsWellKeyed(d.value);
      f := Config(d.value);
    } else {
      f := Empty;
    }
  }
}
