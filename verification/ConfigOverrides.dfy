/** Runs of setters and erasures on the pair of trees a YamlConfiguration keeps, as leaf maps: the
    effective tree and the persisted overrides. */
module ConfigOverrides {
  import opened ConfigTree
  import opened ConfigOverlay
  import opened Options

  datatype Trees = Trees(root: Tree, host: Tree)

  /** A call of a setter, with the text of its value, or of erase. */
  datatype Op = Set(path: Path, text: string) | Erase(path: Path)

  /** The first tree the operation goes to does not refuse it. */
  ghost predicate Accepted(s: Trees, op: Op) {
    if op.Set? then !Inner(s.root, op.path) else op.path in s.host
  }

  /** The kind a leaf has before its text is replaced. */
  ghost function KindAt(l: Tree, p: Path): Kind {
    if p in l then l[p].kind else NoKind
  }

  /** A value whose kind cannot be determined reaches the effective tree only, under the old kind; so does
      one that the overrides refuse. An erasure that the effective tree refuses has reached the overrides
      only. */
  ghost function Next(conv: Converters, s: Trees, op: Op): Trees {
    if !Accepted(s, op) then s
    else
      match op
      case Erase(p) => Trees(if Inner(s.root, p) then s.root else s.root - {p}, s.host - {p})
      case Set(p, text) =>
        match conv.Classify(text)
        case Some(k) =>
          Trees(Put(s.root, p, Cell(k, text)), if Inner(s.host, p) then s.host else Put(s.host, p, Cell(k, text)))
        case None => Trees(Put(s.root, p, Cell(KindAt(s.root, p), text)), s.host)
  }

  /** erase goes through on a tree with these leaves; on the empty path it does so without a change. */
  ghost predicate Erasable(l: Tree, p: Path) {
    !Inner(l, p) && (p == Top || p in l)
  }

  /** The call gets as far as writing the overrides. */
  ghost predicate Succeeds(conv: Converters, s: Trees, op: Op) {
    match op
    case Set(p, text) => Accepted(s, op) && !Inner(s.host, p) && conv.Classify(text).Some?
    case Erase(p) => Erasable(s.host, p) && Erasable(s.root, p)
  }

  /** The kind of the leaf is not that of its text. */
  ghost predicate Torn(conv: Converters, c: Cell) {
    conv.Classify(c.scalar) != Some(c.kind)
  }

  ghost predicate Typed(conv: Converters, l: Tree) {
    forall p | p in l :: !Torn(conv, l[p])
  }

  ghost predicate NamesNoRoot(l: Tree) {
    forall p | p in l :: !Mentions(p, "root")
  }

  ghost predicate Sub(a: Tree, b: Tree) {
    forall p | p in a :: p in b && b[p] == a[p]
  }

  /** Every override path is still a leaf or an inner node of the effective tree. */
  ghost predicate Covered(s: Trees) {
    forall h | h in s.host :: h in s.root || Inner(s.root, h)
  }

  /** The overrides are visible, and whatever is visible is an override or comes from the base files. */
  ghost predicate Consistent(base: Tree, s: Trees) {
    PrefixFree(s.root) && Sub(s.host, s.root) && Sub(s.root, base + s.host)
  }

  /** Rebuilding from the base files and the overrides works and gives the effective tree again.
      Overrides with an element "root" are merged elsewhere. */
  ghost predicate Reproducible(base: Tree, s: Trees) {
    NamesNoRoot(s.host) && !LeafClash(base, s.host) && Overlay(base, s.host) == s.root
  }

  /** Loading makes the trees consistent exactly if no override is an inner node of the base. */
  lemma LoadedIsConsistent(base: Tree, host: Tree)
    requires PrefixFree(base) && PrefixFree(host) && !LeafClash(base, host)
    ensures Consistent(base, Trees(Overlay(base, host), host)) <==> forall p | p in host :: !Inner(base, p)
  {
    var root := Overlay(base, host);
    if Sub(host, root) {
      forall p | p in host ensures !Inner(base, p) {
        assert p in root && (p in base ==> !Inner(base, p));
      }
    }
    if forall p | p in host :: !Inner(base, p) {
      forall p | p in root ensures p != Top && !Inner(root, p) {
        OverlaidLeaf(base, host, p);
      }
    }
  }

  lemma OverlaidLeaf(base: Tree, host: Tree, p: Path)
    requires PrefixFree(base) && PrefixFree(host) && !LeafClash(base, host)
    requires p in Overlay(base, host)
    ensures !Inner(Overlay(base, host), p)
  {
    forall q | q in Overlay(base, host) ensures !Above(p, q) {
      assert q in base ==> Above(p, q) ==> Inner(base, p);
      assert q in host ==> Above(p, q) ==> Inner(host, p);
    }
  }

  lemma PutPrefixFree(l: Tree, p: Path, c: Cell)
    requires PrefixFree(l) && !Inner(l, p)
    ensures PrefixFree(Put(l, p, c))
  {
    var r := Put(l, p, c);
    forall q, x | q in r && x in r ensures !Above(q, x) {
      if x == p {
        if q == p && Above(p, p) { AboveIsShallower(p, p); }
      } else {
        assert Above(q, x) ==> Inner(l, q);
      }
    }
  }

  lemma SmallerPrefixFree(l: Tree, m: Tree)
    requires PrefixFree(m) && l.Keys <= m.Keys
    ensures PrefixFree(l)
  {
    forall p | p in l ensures p != Top && !Inner(l, p) {
      assert !Inner(m, p);
    }
  }

  /** An override path that is an inner node is one in the effective tree as well, so that the second
      tree cannot refuse what the first has let through. */
  lemma CoveredInner(s: Trees, p: Path)
    requires Covered(s) && Inner(s.host, p)
    ensures Inner(s.root, p)
  {
    var h :| h in s.host && Above(p, h);
    if h !in s.root {
      var x :| x in s.root && Above(h, x);
      AboveTransitive(p, h, x);
    }
  }

  lemma SetKeepsCovered(conv: Converters, s: Trees, p: Path, text: string)
    requires Covered(s)
    ensures Covered(Next(conv, s, Set(p, text)))
  {
    var s' := Next(conv, s, Set(p, text));
    if Accepted(s, Set(p, text)) && p != Top {
      if Inner(s.host, p) { CoveredInner(s, p); }
      forall h | h in s'.host ensures h in s'.root || Inner(s'.root, h) {
        if h in s.host && !Above(h, p) {
          SetKeepsInner(s.root, p, s'.root[p], h);
        } else if Above(h, p) {
          assert p in s'.root;
        }
      }
    }
  }

  lemma SetKeepsInner(l: Tree, p: Path, c: Cell, h: Path)
    requires p != Top && !Above(h, p) && (h in l || Inner(l, h))
    ensures h in Put(l, p, c) || Inner(Put(l, p, c), h)
  {
    if h !in l {
      var x :| x in l && Above(h, x);
      if Above(x, p) { AboveTransitive(h, x, p); }
      assert x in Put(l, p, c);
    }
  }

  lemma EraseKeepsCovered(conv: Converters, s: Trees, p: Path)
    requires Covered(s) && PrefixFree(s.host)
    ensures Covered(Next(conv, s, Erase(p)))
  {
    var s' := Next(conv, s, Erase(p));
    if p in s.host {
      forall h | h in s'.host ensures h in s'.root || Inner(s'.root, h) {
        if h !in s.root {
          var x :| x in s.root && Above(h, x);
          assert x == p ==> Inner(s.host, h);
          assert x in s'.root;
        }
      }
    }
  }

  // --- calls that reach one of the trees only -------------------------------

  /** A host file {root: {x: ..}} alone makes the override "/root/x", which shows as "/x"; setting "/root"
      is then refused after it has changed the effective tree. */
  lemma UnshownOverrideIsSet(conv: Converters, c: Cell, text: string)
    requires conv.Classify(text).Some?
    ensures var r := Snoc(Top, "root");
            var s := Trees(map[Snoc(Top, "x") := c], map[Snoc(r, "x") := c]);
            && !Covered(s) && Accepted(s, Set(r, text)) && !Succeeds(conv, s, Set(r, text))
            && r in Next(conv, s, Set(r, text)).root && Next(conv, s, Set(r, text)).host == s.host
  {
    var r := Snoc(Top, "root");
    var s := Trees(map[Snoc(Top, "x") := c], map[Snoc(r, "x") := c]);
    assert Above(r, Snoc(r, "x")) && Snoc(r, "x") in s.host;
    assert Inner(s.host, r);
    assert !Above(r, Snoc(Top, "x")) && !Above(Snoc(r, "x"), Snoc(Top, "x"));
  }

  /** With a base file {a: {b: ..}} and an override {a: ..}, which loads without a clash, erasing "/a"
      is refused after it has removed the override. */
  lemma HiddenOverrideIsErased(conv: Converters, visible: Cell, hidden: Cell)
    ensures var a := Snoc(Top, "a");
            var base, host := map[Snoc(a, "b") := visible], map[a := hidden];
            var s := Trees(Overlay(base, host), host);
            && PrefixFree(base) && PrefixFree(host) && !LeafClash(base, host) && Covered(s)
            && Accepted(s, Erase(a)) && !Succeeds(conv, s, Erase(a))
            && Next(conv, s, Erase(a)) == Trees(s.root, map[])
  {
    var a := Snoc(Top, "a");
    var ab := Snoc(a, "b");
    var base, host := map[ab := visible], map[a := hidden];
    assert Above(a, ab) && !Above(a, a) && !Above(ab, a) && !Above(ab, ab);
    assert ab in base;
    assert Inner(base, a);
    assert Overlay(base, host) == base;
  }

  // --- what keeps the trees consistent --------------------------------------

  /** The path is not empty, and a value has a kind. */
  predicate Plain(conv: Converters, op: Op) {
    op.path != Top && (op.Set? ==> conv.Classify(op.text).Some?)
  }

  lemma NextKeeps(conv: Converters, base: Tree, s: Trees, op: Op)
    requires Consistent(base, s) && Plain(conv, op)
    ensures Consistent(base, Next(conv, s, op))
  {
    if Accepted(s, op) {
      var s' := Next(conv, s, op);
      if op.Set? {
        assert !Inner(s.host, op.path);
        PutPrefixFree(s.root, op.path, s'.host[op.path]);
      } else {
        assert op.path in s.root;
        forall p | p in s'.root ensures !Inner(s'.root, p) {
          assert !Inner(s.root, p);
        }
      }
    }
  }

  /** A setter keeps the base leaves visible exactly if it does not go below one of them. */
  lemma SetKeepsBase(conv: Converters, base: Tree, s: Trees, p: Path, text: string)
    requires base.Keys <= s.root.Keys && Accepted(s, Set(p, text))
    ensures base.Keys <= Next(conv, s, Set(p, text)).root.Keys <==> forall q | q in base :: !Above(q, p)
  {
    if q :| q in base && Above(q, p) {
      assert q != p by { if q == p { AboveIsShallower(p, p); } }
      assert p != Top;
      assert q !in Next(conv, s, Set(p, text)).root;
    }
  }

  lemma EraseKeepsBase(conv: Converters, base: Tree, s: Trees, p: Path)
    requires Consistent(base, s) && base.Keys <= s.root.Keys && Accepted(s, Erase(p))
    ensures base.Keys <= Next(conv, s, Erase(p)).root.Keys <==> p !in base
  {
    assert p in s.root && !Inner(s.root, p);
  }

  // --- what every call keeps ------------------------------------------------

  /** The override `h` is visible, or hidden by the base, or what hides it is torn. */
  ghost predicate Accounted(conv: Converters, base: Tree, s: Trees, h: Path)
    requires h in s.host
  {
    || Inner(base, h)
    || (h in s.root && (s.root[h] == s.host[h] || Torn(conv, s.root[h])))
    || TornBelow(conv, s.root, h)
  }

  ghost predicate TornBelow(conv: Converters, l: Tree, h: Path) {
    exists x :: x in l && Above(h, x) && Torn(conv, l[x])
  }

  /** What every call keeps, whatever values the setters are given. */
  ghost predicate Traceable(conv: Converters, base: Tree, s: Trees) {
    && PrefixFree(s.root)
    && (forall h | h in s.host :: Accounted(conv, base, s, h))
    && (forall r | r in s.root :: Torn(conv, s.root[r]) || SameAs(base + s.host, s.root, r))
  }

  ghost predicate SameAs(a: Tree, b: Tree, p: Path)
    requires p in b
  {
    p in a && a[p] == b[p]
  }

  lemma LoadedIsTraceable(conv: Converters, base: Tree, host: Tree)
    requires PrefixFree(base) && PrefixFree(host) && !LeafClash(base, host)
    ensures Traceable(conv, base, Trees(Overlay(base, host), host))
  {
    var root := Overlay(base, host);
    forall p | p in root ensures p != Top && !Inner(root, p) {
      OverlaidLeaf(base, host, p);
    }
    forall r | r in root ensures SameAs(base + host, root, r) {
      assert r in base ==> !Inner(base, r);
    }
  }

  /** Overrides survive a reload exactly as long as they name no "root", every base leaf is still
      visible and no visible leaf is torn. */
  lemma ReproducibleIff(conv: Converters, base: Tree, s: Trees)
    requires Traceable(conv, base, s) && PrefixFree(base) && Typed(conv, base) && Typed(conv, s.host)
    ensures Reproducible(base, s) <==>
            NamesNoRoot(s.host) && base.Keys <= s.root.Keys && Typed(conv, s.root)
  {
    if base.Keys <= s.root.Keys && Typed(conv, s.root) {
      BaseIsApart(conv, base, s);
      OverlayIsRoot(conv, base, s);
    }
  }

  lemma BaseIsApart(conv: Converters, base: Tree, s: Trees)
    requires Traceable(conv, base, s) && PrefixFree(base) && base.Keys <= s.root.Keys && Typed(conv, s.root)
    ensures !LeafClash(base, s.host)
  {
    forall p | p in base ensures !Inner(s.host, p) {
      assert !Inner(base, p) && !Inner(s.root, p);
      forall h | h in s.host ensures !Above(p, h) {
        assert Accounted(conv, base, s, h);
        if Inner(base, h) {
          var b :| b in base && Above(h, b);
          if Above(p, h) { AboveTransitive(p, h, b); }
        }
      }
    }
  }

  lemma OverlayIsRoot(conv: Converters, base: Tree, s: Trees)
    requires Traceable(conv, base, s) && PrefixFree(base) && base.Keys <= s.root.Keys && Typed(conv, s.root)
    ensures Overlay(base, s.host) == s.root
  {
    var all := Overlay(base, s.host);
    forall p | p in s.root ensures !Inner(base, p) && SameAs(base + s.host, s.root, p) {
      assert !Inner(s.root, p);
    }
    forall p | p in all ensures p in s.root {
      if p !in base {
        assert Accounted(conv, base, s, p);
      }
    }
  }

  lemma SetKeepsTrace(conv: Converters, base: Tree, s: Trees, p: Path, text: string)
    requires Traceable(conv, base, s) && (conv.Classify(text).Some? && Inner(s.host, p) ==> Inner(s.root, p))
    ensures Traceable(conv, base, Next(conv, s, Set(p, text)))
  {
    var s' := Next(conv, s, Set(p, text));
    if Accepted(s, Set(p, text)) && p != Top {
      PutPrefixFree(s.root, p, s'.root[p]);
      forall h | h in s'.host ensures Accounted(conv, base, s', h) {
        SetKeepsAccount(conv, base, s, p, text, h);
      }
      forall r | r in s'.root ensures Torn(conv, s'.root[r]) || SameAs(base + s'.host, s'.root, r) {
        assert r != p ==> Torn(conv, s.root[r]) || SameAs(base + s.host, s.root, r);
      }
    }
  }

  lemma SetKeepsAccount(conv: Converters, base: Tree, s: Trees, p: Path, text: string, h: Path)
    requires Traceable(conv, base, s) && p != Top && Accepted(s, Set(p, text))
    requires conv.Classify(text).Some? ==> !Inner(s.host, p)
    requires h in Next(conv, s, Set(p, text)).host
    ensures Accounted(conv, base, Next(conv, s, Set(p, text)), h)
  {
    var s' := Next(conv, s, Set(p, text));
    if h != p || conv.Classify(text).None? {
      assert Accounted(conv, base, s, h);
      if Above(h, p) {
        assert Torn(conv, s'.root[p]);
      } else if TornBelow(conv, s.root, h) {
        var x :| x in s.root && Above(h, x) && Torn(conv, s.root[x]);
        if Above(x, p) { AboveTransitive(h, x, p); }
        assert x in s'.root && s'.root[x] == s.root[x];
      }
    }
  }

  lemma EraseKeepsTrace(conv: Converters, base: Tree, s: Trees, p: Path)
    requires Traceable(conv, base, s) && PrefixFree(s.host)
    ensures Traceable(conv, base, Next(conv, s, Erase(p)))
  {
    var s' := Next(conv, s, Erase(p));
    if p in s.host {
      SmallerPrefixFree(s'.root, s.root);
      forall h | h in s'.host ensures Accounted(conv, base, s', h) {
        assert Accounted(conv, base, s, h);
        if TornBelow(conv, s.root, h) {
          var x :| x in s.root && Above(h, x) && Torn(conv, s.root[x]);
          assert x == p ==> Inner(s.host, h);
          assert x in s'.root;
        }
      }
      forall r | r in s'.root ensures Torn(conv, s'.root[r]) || SameAs(base + s'.host, s'.root, r) {
        assert Torn(conv, s.root[r]) || SameAs(base + s.host, s.root, r);
        assert !Inner(s.root, r);
      }
    }
  }

  /** The overrides are well-formed, and each is or hides behind a visible leaf. */
  ghost predicate Sane(conv: Converters, s: Trees) {
    Covered(s) && PrefixFree(s.host) && Typed(conv, s.host)
  }

  lemma NextKeepsSane(conv: Converters, s: Trees, op: Op)
    requires Sane(conv, s)
    ensures Sane(conv, Next(conv, s, op))
  {
    match op
    case Set(p, text) =>
      SetKeepsCovered(conv, s, p, text);
      if Succeeds(conv, s, op) && p != Top {
        PutPrefixFree(s.host, p, Cell(conv.Classify(text).value, text));
      }
    case Erase(p) =>
      EraseKeepsCovered(conv, s, p);
      SmallerPrefixFree(Next(conv, s, op).host, s.host);
  }
}
