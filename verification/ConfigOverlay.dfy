/** Scalar typing, merging of two trees, and the same operations on leaf maps. */
module ConfigOverlay {
  import opened ConfigTree
  import opened Options

  /** The scalar parsers the node class asks; what each accepts is left open. */
  datatype Converters = Converters(
    asUint: string -> bool, asInt: string -> Option<int>, asFloat: string -> bool, asBool: string -> bool)
  {
    /** determine_scalar_type; None where reading the value as an int throws. */
    function Classify(s: string): (k: Option<Kind>)
      ensures k.Some? ==> k.value.IsScalar()
      ensures k.None? <==> asUint(s) && asInt(s).None?
    {
      if asUint(s) then
        match asInt(s)
        case None => None
        case Some(v) => Some(if v >= 0 then Uint32 else Int32)
      else if asInt(s).Some? then Some(Int32)
      else if asFloat(s) then Some(Float)
      else if asBool(s) then Some(Bool)
      else Some(String)
    }
  }

  /** Which kind a text gets: a number is one before it is anything else, an integer before a float, and
      unsigned exactly if the unsigned parser takes it and its value is not negative; a text that only the
      unsigned parser takes has no kind. */
  lemma KindsOfTexts(conv: Converters, s: string)
    ensures var k, v := conv.Classify(s), conv.asInt(s);
            && (k == Some(Uint32) <==> conv.asUint(s) && v.Some? && v.value >= 0)
            && (k == Some(Int32) <==> v.Some? && (v.value < 0 || !conv.asUint(s)))
            && (k.None? <==> conv.asUint(s) && v.None?)
            && (k == Some(Float) <==> !conv.asUint(s) && v.None? && conv.asFloat(s))
            && (k == Some(Bool) <==> !conv.asUint(s) && v.None? && !conv.asFloat(s) && conv.asBool(s))
            && (k == Some(String) <==> !conv.asUint(s) && v.None? && !conv.asFloat(s) && !conv.asBool(s))
  {
  }

  /** Scalar-leaved and consistently typed: inner nodes are no scalars, every leaf carries the kind of
      its text. */
  ghost predicate Sound(t: Tree, conv: Converters) {
    && Shape(t)
    && !t[Top].kind.IsScalar()
    && forall p | p in t && p != Top :: SoundAt(t, conv, p)
  }

  ghost predicate SoundAt(t: Tree, conv: Converters, p: Path)
    requires p in t
  {
    if Interior(t, p) then !t[p].kind.IsScalar() else conv.Classify(t[p].scalar) == Some(t[p].kind)
  }

  /** After inserting `p` its ancestors are no scalars, unless one was a scalar with children before. */
  lemma {:induction false} InsertedAncestors(t: Tree, p: Path, q: Path)
    requires Shape(t) && Above(q, p) && (q in t && Interior(t, q) ==> !t[q].kind.IsScalar())
    ensures !Insert(t, p)[q].kind.IsScalar()
  {
    if q == p.front {
      if p in Insert(t, q) {
        if AtOrAbove(p, q) { AboveTransitive(q, p, q); AboveIsShallower(q, q); }
        assert p == Snoc(q, p.last);
        InsertKeepsCells(t, p, q);
      }
    } else {
      InsertedAncestors(t, p.front, q);
    }
  }

  lemma AssignSound(t: Tree, conv: Converters, p: Path, c: Cell)
    requires Sound(t, conv) && p != Top && !Interior(t, p) && conv.Classify(c.scalar) == Some(c.kind)
    ensures Sound(Assign(t, p, c), conv)
  {
    var r := Assign(t, p, c);
    TopIsAbove(p);
    InsertedAncestors(t, p, Top);
    forall q | q in r && q != Top ensures SoundAt(r, conv, q) {
      InteriorAfterInsert(t, p, q);
      if Above(p, p) { AboveIsShallower(p, p); }
      if Above(q, p) {
        assert q in t ==> SoundAt(t, conv, q);
        InsertedAncestors(t, p, q);
      } else if q != p {
        InsertKeepsCells(t, p, q);
        assert SoundAt(t, conv, q);
      }
    }
  }

  lemma PruneSound(t: Tree, conv: Converters, p: Path)
    requires Sound(t, conv) && p in t && !Interior(t, p)
    ensures Sound(Prune(t, p), conv)
  {
    PruneSoundFrom(t, conv, p);
  }

  /** Pruning keeps soundness even while the node being pruned is an emptied inner node. */
  lemma {:induction false} PruneSoundFrom(t: Tree, conv: Converters, p: Path)
    requires Shape(t) && !t[Top].kind.IsScalar() && p in t && !Interior(t, p)
    requires forall q | q in t && q != Top && q != p :: SoundAt(t, conv, q)
    ensures Sound(Prune(t, p), conv)
  {
    if p.Top? {
    } else {
      var cut := t - {p};
      CutShape(t, p);
      forall q | q in cut && q != Top && (q != p.front || Interior(cut, q)) ensures SoundAt(cut, conv, q) {
        InteriorAfterCut(t, p, q);
        assert SoundAt(t, conv, q);
      }
      if !Interior(cut, p.front) {
        PruneSoundFrom(cut, conv, p.front);
      }
    }
  }

  // --- merging --------------------------------------------------------------

  /** The left tree after the nodes `s` of `b` have been merged into it: unknown nodes are copied,
      scalars overwrite scalars, everything else stays. */
  ghost function MergePart(a: Tree, b: Tree, s: set<Path>): Tree
    requires s <= b.Keys
  {
    map q | q in a.Keys + s ::
      if q in s && (q !in a || (a[q].kind.IsScalar() && b[q].kind.IsScalar())) then b[q] else a[q]
  }

  ghost function Merge(a: Tree, b: Tree): Tree { MergePart(a, b, b.Keys) }

  /** Merging would replace a scalar by a non-scalar. */
  ghost predicate Clash(a: Tree, b: Tree, p: Path) {
    p in a && p in b && a[p].kind.IsScalar() && !b[p].kind.IsScalar()
  }

  ghost predicate Clashes(a: Tree, b: Tree) {
    exists p :: Clash(a, b, p)
  }

  // --- leaf maps ------------------------------------------------------------

  /** `p` is a strict prefix of a leaf of `l`. */
  ghost predicate Inner(l: Tree, p: Path) {
    exists q :: q in l && Above(p, q)
  }

  /** A leaf of `a` is an inner node of `b`. */
  ghost predicate LeafClash(a: Tree, b: Tree) {
    exists p :: p in a && Inner(b, p)
  }

  /** `a` overridden by those leaves of `b` that are not inner nodes of `a`. */
  ghost function Overlay(a: Tree, b: Tree): Tree {
    a + (map q | q in b && !Inner(a, q) :: b[q])
  }

  ghost predicate PrefixFree(l: Tree) {
    forall p | p in l :: p != Top && !Inner(l, p)
  }

  lemma LeavesPrefixFree(t: Tree)
    requires Shape(t)
    ensures PrefixFree(Leaves(t))
  {
    forall p | p in Leaves(t) ensures !Inner(Leaves(t), p) {
      InteriorIffLeafBelow(t, p);
    }
  }

  lemma ClashesAreLeafClashes(a: Tree, b: Tree, conv: Converters)
    requires Sound(a, conv) && Sound(b, conv)
    ensures Clashes(a, b) <==> LeafClash(Leaves(a), Leaves(b))
  {
    if Clashes(a, b) {
      var p :| Clash(a, b, p);
      InteriorIffLeafBelow(b, p);
      assert (p != Top ==> SoundAt(a, conv, p)) && (p != Top ==> SoundAt(b, conv, p));
      assert p in Leaves(a);
    }
    if LeafClash(Leaves(a), Leaves(b)) {
      var p :| p in Leaves(a) && Inner(Leaves(b), p);
      InteriorIffLeafBelow(b, p);
      InteriorInTree(b, p);
      assert SoundAt(b, conv, p) && SoundAt(a, conv, p);
      assert Clash(a, b, p);
    }
  }

  lemma InteriorOfMerge(a: Tree, b: Tree, p: Path)
    ensures Interior(Merge(a, b), p) <==> Interior(a, p) || Interior(b, p)
  {
    if Interior(a, p) {
      var k :| Snoc(p, k) in a;
      assert Snoc(p, k) in Merge(a, b);
    }
    if Interior(b, p) {
      var k :| Snoc(p, k) in b;
      assert Snoc(p, k) in Merge(a, b);
    }
  }

  /** operator+= is overlay on the leaf maps, and keeps the result scalar-leaved. */
  lemma LeavesOfMerge(a: Tree, b: Tree, conv: Converters)
    requires Sound(a, conv) && Sound(b, conv) && !Clashes(a, b)
    ensures Sound(Merge(a, b), conv)
    ensures Leaves(Merge(a, b)) == Overlay(Leaves(a), Leaves(b))
  {
    MergeSound(a, b, conv);
    forall p ensures p in Leaves(Merge(a, b)) <==> p in Overlay(Leaves(a), Leaves(b)) {
      MergedLeaf(a, b, conv, p);
    }
    forall p | p in Leaves(Merge(a, b))
      ensures Leaves(Merge(a, b))[p] == Overlay(Leaves(a), Leaves(b))[p]
    {
      MergedLeaf(a, b, conv, p);
    }
  }

  lemma MergeSound(a: Tree, b: Tree, conv: Converters)
    requires Sound(a, conv) && Sound(b, conv) && !Clashes(a, b)
    ensures Sound(Merge(a, b), conv)
  {
    var m := Merge(a, b);
    forall p | p in m && p != Top ensures SoundAt(m, conv, p) {
      MergedCell(a, b, conv, p);
    }
  }

  lemma MergedLeaf(a: Tree, b: Tree, conv: Converters, p: Path)
    requires Sound(a, conv) && Sound(b, conv) && !Clashes(a, b)
    ensures p in Leaves(Merge(a, b)) <==> p in Leaves(a) || (p in Leaves(b) && !Inner(Leaves(a), p))
    ensures p in Leaves(Merge(a, b)) ==>
              Merge(a, b)[p] == if p in Leaves(b) && !Inner(Leaves(a), p) then b[p] else a[p]
  {
    InteriorOfMerge(a, b, p);
    InteriorIffLeafBelow(a, p);
    if Interior(a, p) { InteriorInTree(a, p); }
    if Interior(b, p) { InteriorInTree(b, p); }
    assert !Clash(a, b, p);
    if p in a && p in b && p != Top {
      MergedCell(a, b, conv, p);
    }
  }

  lemma MergedCell(a: Tree, b: Tree, conv: Converters, p: Path)
    requires Sound(a, conv) && Sound(b, conv) && !Clashes(a, b)
    requires p != Top && (p in a || p in b)
    ensures SoundAt(Merge(a, b), conv, p)
    ensures p in a && p in b && Interior(b, p) ==> Interior(a, p)
  {
    InteriorOfMerge(a, b, p);
    assert !Clash(a, b, p);
    if Interior(a, p) { InteriorInTree(a, p); }
    if Interior(b, p) { InteriorInTree(b, p); }
    assert p in a ==> SoundAt(a, conv, p);
    assert p in b ==> SoundAt(b, conv, p);
  }

  // --- names ----------------------------------------------------------------

  /** A tree without nodes called "root" shows no leaf whose path has one, so it is an overlay only of
      trees without them. */
  lemma OverlayNeedsNoRootName(a: Tree, b: Tree, m: Tree)
    requires Shape(a) && Shape(b) && Shape(m) && NoRootName(a) && NoRootName(m)
    requires Leaves(m) == Overlay(Leaves(a), Leaves(b))
    ensures NoRootName(b)
  {
    forall p | p in b && p != Top ensures !Mentions(p, "root") {
      var q := LeafAtOrBelow(b, p, {});
      assert !Mentions(q, "root") by {
        if Inner(Leaves(a), q) {
          var r :| r in Leaves(a) && Above(q, r);
          if Mentions(q, "root") { MentionsBelow(q, r, "root"); }
        } else {
          assert q in Overlay(Leaves(a), Leaves(b));
        }
      }
      if Mentions(p, "root") { MentionsBelow(p, q, "root"); }
    }
  }
}
