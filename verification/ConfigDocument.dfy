/** Configuration documents: emitting a tree as one and building a tree from one. */
module ConfigDocument {
  import opened ConfigTree
  import opened ConfigOverlay
  import opened Options
  import opened ConfigNode
  import opened ConfigListing

  /** A document is a scalar text or a mapping; a key is given as the elements it splits into. */
  datatype Doc = Text(text: string) | Mapping(entries: seq<Entry>)
  datatype Entry = Entry(key: seq<Name>, value: Doc)

  /** The text of every scalar of the document, by path, when it is read in below `at`. */
  ghost function Texts(d: Doc, at: Path): map<Path, string>
    decreases d
  {
    match d
    case Text(s) => map[at := s]
    case Mapping(es) => EntryTexts(es, at)
  }

  ghost function EntryTexts(es: seq<Entry>, at: Path): map<Path, string>
    decreases es
  {
    if es == [] then map[]
    else EntryTexts(es[..|es| - 1], at) + Texts(es[|es| - 1].value, Along(at, es[|es| - 1].key))
  }

  /** Neither key is a prefix of the other, so that neither place lies on the way to the other. */
  ghost predicate Incomparable(p: seq<Name>, q: seq<Name>) {
    !(p <= q) && !(q <= p)
  }

  ghost predicate CleanEntries(es: seq<Entry>)
    decreases es
  {
    && (forall i | 0 <= i < |es| :: es[i].key != [] && CleanValue(es[i].value))
    && (forall i, j | 0 <= i < j < |es| :: Incomparable(es[i].key, es[j].key))
  }

  /** Conflict-free, and every mapping inside holds something. */
  ghost predicate CleanValue(d: Doc)
    decreases d
  {
    d.Mapping? ==> d.entries != [] && CleanEntries(d.entries)
  }

  ghost predicate CleanDoc(d: Doc) {
    d.Mapping? ==> CleanEntries(d.entries)
  }

  /** The leaf map the texts of a document stand for. */
  ghost function LeafCells(m: map<Path, string>, conv: Converters): Tree
    requires AllClassified(m, conv)
  {
    map p | p in m :: Cell(conv.Classify(m[p]).value, m[p])
  }

  ghost predicate AllClassified(m: map<Path, string>, conv: Converters) {
    forall p | p in m :: conv.Classify(m[p]).Some?
  }

  /** The texts of the leaves `ls`. */
  ghost function TextsOf(t: Tree, ls: set<Path>): map<Path, string> {
    map p | p in ls && p in t :: t[p].scalar
  }

  // --- emit -----------------------------------------------------------------

  /** emit: nothing for a childless node, otherwise a mapping of the children. */
  method Emit(n: Node, ghost root: Node, ghost t: Layout, ghost at: Path) returns (d: Option<Doc>)
    requires Holds(root, t) && at in t.at && t.at[at] == n
    ensures d.None? <==> n.children == map[]
    ensures d.Some? ==> d.value.Mapping? && CleanValue(d.value)
    ensures d.Some? ==> Texts(d.value, at) == TextsOf(View(t), Part(Leaves(View(t)).Keys, at, n.children.Keys))
    decreases Below(t.at.Keys, at), 1
  {
    if n.children == map[] {
      return None;
    }
    var es: seq<Entry> := [];
    ghost var done: set<Name> := {};
    var todo := n.children.Keys;
    assert Part(Leaves(View(t)).Keys, at, {}) == {};
    while todo != {}
      invariant todo + done == n.children.Keys && todo !! done
      invariant EmittedSoFar(es, View(t), at, done)
    {
      var k :| k in todo;
      todo := todo - {k};
      var v := EmitChild(n, k, root, t, at);
      EmittedMore(es, View(t), at, done, k, v);
      es := es + [Entry([k], v)];
      done := done + {k};
    }
    EmittedIsClean(es, done);
    d := Some(Mapping(es));
  }

  /** The loop body: the value emitted for the child `k` of `n`. */
  method EmitChild(n: Node, k: Name, ghost root: Node, ghost t: Layout, ghost at: Path) returns (v: Doc)
    requires Holds(root, t) && at in t.at && t.at[at] == n && k in n.children
    ensures CleanValue(v) && Texts(v, Snoc(at, k)) == TextsOf(View(t), Below(Leaves(View(t)).Keys, Snoc(at, k)))
    decreases Below(t.at.Keys, at), 0
  {
    var c := n.children[k];
    EnterChild(root, t, at, k, "", at);
    if c.children != map[] {
      var sub := Emit(c, root, t, Snoc(at, k));
      v := sub.value;
    } else {
      v := Text(c.scalar);
    }
    EmittedChild(root, t, Snoc(at, k), v);
  }

  ghost predicate EmittedSoFar(es: seq<Entry>, t: Tree, at: Path, done: set<Name>) {
    && (es == [] ==> done == {})
    && Emitted(es, done)
    && EntryTexts(es, at) == TextsOf(t, Part(Leaves(t).Keys, at, done))
  }

  /** Entries with the distinct single-element keys `done`. */
  ghost predicate Emitted(es: seq<Entry>, done: set<Name>) {
    && (forall i | 0 <= i < |es| :: |es[i].key| == 1 && es[i].key[0] in done && CleanValue(es[i].value))
    && (forall i, j | 0 <= i < j < |es| :: es[i].key != es[j].key)
  }

  lemma EmittedIsClean(es: seq<Entry>, done: set<Name>)
    requires Emitted(es, done)
    ensures CleanEntries(es)
  {
    forall i, j | 0 <= i < j < |es| ensures Incomparable(es[i].key, es[j].key) {
      assert es[i].key == [es[i].key[0]] && es[j].key == [es[j].key[0]];
    }
  }

  lemma EmittedChild(root: Node, t: Layout, p: Path, v: Doc)
    requires Holds(root, t) && p in t.at && p != Top
    requires if t.at[p].children == map[] then v == Text(t.at[p].scalar)
             else Texts(v, p) == TextsOf(View(t), Part(Leaves(View(t)).Keys, p, t.at[p].children.Keys))
    ensures Texts(v, p) == TextsOf(View(t), Below(Leaves(View(t)).Keys, p))
  {
    KidsAre(root, t, p);
    LeavesBelowNode(View(t), p, t.at[p].children.Keys);
    assert View(t)[p].scalar == t.at[p].scalar;
  }

  lemma EmittedMore(es: seq<Entry>, t: Tree, at: Path, done: set<Name>, k: Name, v: Doc)
    requires EmittedSoFar(es, t, at, done) && k !in done && CleanValue(v)
    requires Texts(v, Snoc(at, k)) == TextsOf(t, Below(Leaves(t).Keys, Snoc(at, k)))
    ensures EmittedSoFar(es + [Entry([k], v)], t, at, done + {k})
  {
    var all := es + [Entry([k], v)];
    assert Emitted(all, done + {k});
    assert all[..|all| - 1] == es;
    assert Along(at, [k]) == Snoc(at, k) by { assert Along(Snoc(at, k), [k][1..]) == Snoc(at, k); }
    LeavesGrow(t, at, done, k, at);
    TextsUnion(t, Part(Leaves(t).Keys, at, done), Below(Leaves(t).Keys, Snoc(at, k)));
  }

  lemma TextsUnion(t: Tree, s: set<Path>, s': set<Path>)
    ensures TextsOf(t, s) + TextsOf(t, s') == TextsOf(t, s + s')
  {
  }

  // --- read_config_doc ------------------------------------------------------

  /** Scalar-leaved except that the node `x` may still be childless. */
  ghost predicate SoundBut(t: Tree, conv: Converters, x: Path) {
    && Shape(t) && !t[Top].kind.IsScalar()
    && x in t && !t[x].kind.IsScalar()
    && forall p | p in t && p != Top && p != x :: SoundAt(t, conv, p)
  }

  /** Creating the node of an entry: a classified scalar, or a mapping that is still empty. */
  lemma CreatedSound(t: Tree, conv: Converters, x: Path, p: Path, c: Cell)
    requires SoundBut(t, conv, x) && Above(x, p) && p !in t
    requires c.kind.IsScalar() ==> conv.Classify(c.scalar) == Some(c.kind)
    ensures SoundBut(Assign(t, p, c), conv, if c.kind.IsScalar() then x else p)
    ensures c.kind.IsScalar() ==> Sound(Assign(t, p, c), conv)
  {
    var r := Assign(t, p, c);
    TopIsAbove(p);
    InsertedAncestors(t, p, Top);
    InsertedAncestors(t, p, x);
    if Above(p, p) { AboveIsShallower(p, p); }
    forall q | q in r && q != Top && (q != p || c.kind.IsScalar()) ensures SoundAt(r, conv, q) {
      CreatedSoundAt(t, conv, x, p, c, q);
    }
  }

  lemma CreatedSoundAt(t: Tree, conv: Converters, x: Path, p: Path, c: Cell, q: Path)
    requires SoundBut(t, conv, x) && Above(x, p) && p !in t
    requires c.kind.IsScalar() ==> conv.Classify(c.scalar) == Some(c.kind)
    requires q in Assign(t, p, c) && q != Top && (q != p || c.kind.IsScalar())
    ensures SoundAt(Assign(t, p, c), conv, q)
  {
    InteriorAfterInsert(t, p, q);
    if Above(p, p) { AboveIsShallower(p, p); }
    if Above(q, p) {
      assert q in t && q != x ==> SoundAt(t, conv, q);
      InsertedAncestors(t, p, q);
    } else if q == p {
      if Interior(t, p) { InteriorInTree(t, p); }
    } else {
      InsertKeepsCells(t, p, q);
      assert SoundAt(t, conv, q);
    }
  }

  // Paths below `at` compare like the keys that lead to them.

  lemma AlongLast(at: Path, q: seq<Name>)
    requires q != []
    ensures Along(at, q) == Snoc(Along(at, q[..|q| - 1]), q[|q| - 1])
  {
    assert q == q[..|q| - 1] + [q[|q| - 1]];
    AlongAppended(at, q[..|q| - 1], q[|q| - 1]);
  }

  lemma {:induction false} AlongInjective(at: Path, q: seq<Name>, q': seq<Name>)
    requires Along(at, q) == Along(at, q')
    ensures q == q'
    decreases |q| + |q'|
  {
    if q == [] || q' == [] {
      if q != [] { BelowItself(at, q); }
      if q' != [] { BelowItself(at, q'); }
    } else {
      var n, n' := |q| - 1, |q'| - 1;
      AlongLast(at, q);
      AlongLast(at, q');
      assert q == q[..n] + [q[n]] && q' == q'[..n'] + [q'[n']];
      AlongInjective(at, q[..n], q'[..n']);
    }
  }

  lemma BelowItself(at: Path, q: seq<Name>)
    requires q != []
    ensures Above(at, Along(at, q)) && Along(at, q) != at
  {
    AlongIsBelow(Snoc(at, q[0]), q[1..]);
    AboveTransitive(at, Snoc(at, q[0]), Along(at, q));
    AboveIsShallower(at, Along(at, q));
  }

  lemma {:induction false} AlongPrefix(at: Path, q: seq<Name>, q': seq<Name>)
    requires AtOrAbove(Along(at, q), Along(at, q'))
    ensures q <= q'
    decreases |q'|
  {
    if Along(at, q) == Along(at, q') {
      AlongInjective(at, q, q');
    } else if q' == [] {
      if q != [] { BelowItself(at, q); AboveTransitive(at, Along(at, q), at); AboveIsShallower(at, at); }
    } else {
      var n := |q'| - 1;
      AlongLast(at, q');
      AlongPrefix(at, q, q'[..n]);
      assert q'[..n] <= q';
    }
  }

  lemma Separate(at: Path, q: seq<Name>, q': seq<Name>, x: Path)
    requires Incomparable(q, q') && AtOrAbove(Along(at, q), x)
    ensures !AtOrAbove(Along(at, q'), x) && !Above(x, Along(at, q'))
  {
    if AtOrAbove(Along(at, q'), x) {
      Comparable(Along(at, q), Along(at, q'), x);
    }
    if Above(x, Along(at, q')) {
      AboveTransitive(Along(at, q), x, Along(at, q'));
    }
    if AtOrAbove(Along(at, q), Along(at, q')) { AlongPrefix(at, q, q'); }
    if AtOrAbove(Along(at, q'), Along(at, q)) { AlongPrefix(at, q', q); }
  }

  // The texts of a document.

  lemma {:induction false} TextsBelow(d: Doc, at: Path, p: Path)
    requires p in Texts(d, at)
    ensures AtOrAbove(at, p)
    decreases d
  {
    if d.Mapping? {
      var i := TextOfEntry(d.entries, at, p);
      TextsBelow(d.entries[i].value, Along(at, d.entries[i].key), p);
      AlongIsBelow(at, d.entries[i].key);
      AboveTransitive(at, Along(at, d.entries[i].key), p);
    }
  }

  lemma {:induction false} TextOfEntry(es: seq<Entry>, at: Path, p: Path) returns (i: nat)
    requires p in EntryTexts(es, at)
    ensures i < |es| && p in Texts(es[i].value, Along(at, es[i].key))
  {
    var n := |es| - 1;
    if p in Texts(es[n].value, Along(at, es[n].key)) {
      i := n;
    } else {
      i := TextOfEntry(es[..n], at, p);
    }
  }

  lemma {:induction false} PrefixTexts(conv: Converters, es: seq<Entry>, i: nat, at: Path)
    requires CleanEntries(es) && i <= |es| && !AllClassified(EntryTexts(es[..i], at), conv)
    ensures !AllClassified(EntryTexts(es, at), conv)
  {
    var n := |es| - 1;
    if i == |es| {
      assert es[..i] == es;
    } else {
      assert es[..n][..i] == es[..i];
      PrefixTexts(conv, es[..n], i, at);
      var p :| p in EntryTexts(es[..n], at) && conv.Classify(EntryTexts(es[..n], at)[p]).None?;
      NotInLast(es, at, p);
      assert p in EntryTexts(es, at) && EntryTexts(es, at)[p] == EntryTexts(es[..n], at)[p];
    }
  }

  lemma NotInLast(es: seq<Entry>, at: Path, p: Path)
    requires CleanEntries(es) && es != [] && p in EntryTexts(es[..|es| - 1], at)
    ensures p !in Texts(es[|es| - 1].value, Along(at, es[|es| - 1].key))
  {
    var n := |es| - 1;
    var j := TextOfEntry(es[..n], at, p);
    TextsBelow(es[j].value, Along(at, es[j].key), p);
    Separate(at, es[j].key, es[n].key, p);
    if p in Texts(es[n].value, Along(at, es[n].key)) {
      TextsBelow(es[n].value, Along(at, es[n].key), p);
    }
  }

  // Reading as a change of the leaf map.

  /** The leaves that stay when something is put below `p`. */
  ghost function Around(l: Tree, p: Path): Tree {
    map q | q in l && !AtOrAbove(q, p) :: l[q]
  }

  /** Reading the entries `es` below `at` turned `t` into `t'`. */
  ghost predicate ReadPart(conv: Converters, t: Tree, t': Tree, at: Path, es: seq<Entry>) {
    && AllClassified(EntryTexts(es, at), conv)
    && SoundBut(t', conv, at)
    && if es == [] then t' == t
       else Sound(t', conv) && Leaves(t') == Around(Leaves(t), at) + LeafCells(EntryTexts(es, at), conv)
  }

  /** What read_config_doc does for a conflict-free document at a childless node: it fails exactly if
      the kind of some scalar cannot be determined, and otherwise the texts are the new leaves. */
  ghost predicate DocAs(conv: Converters, t: Tree, t': Tree, at: Path, d: Doc, r: Outcome) {
    && (d.Text? ==> r.Done? && t' == t)
    && (d.Mapping? && CleanEntries(d.entries) && SoundBut(t, conv, at) && !Interior(t, at) ==>
          && (r.Done? <==> AllClassified(Texts(d, at), conv))
          && (r.Done? ==> ReadPart(conv, t, t', at, d.entries)))
  }

  /** The same for one entry whose place is still free. */
  ghost predicate EntryAs(conv: Converters, t: Tree, t': Tree, at: Path, e: Entry, r: Outcome) {
    var p := Along(at, e.key);
    e.key != [] && SoundBut(t, conv, at) && p !in t && CleanValue(e.value) ==>
      && (r.Done? <==> AllClassified(Texts(e.value, p), conv))
      && (r.Done? ==> p in t' && Sound(t', conv)
                      && Leaves(t') == Around(Leaves(t), p) + LeafCells(Texts(e.value, p), conv))
  }

  /** A childless node has no nodes below, and is the only leaf on the way to any path below it. */
  lemma NearChildless(t: Tree, at: Path, p: Path, q: Path)
    requires Shape(t) && at in t && !Interior(t, at) && Above(at, p) && q in Leaves(t)
    ensures q != at ==> !AtOrAbove(q, p) && !AtOrAbove(p, q)
  {
    if Above(at, q) {
      var k := NextBelow(at, q);
      PrefixClosed(t, Snoc(at, k), q);
    }
    if Above(q, at) {
      var k := NextBelow(q, at);
      PrefixClosed(t, Snoc(q, k), at);
    }
    if AtOrAbove(q, p) { Comparable(q, at, p); }
    if AtOrAbove(p, q) { AboveTransitive(at, p, q); }
  }

  /** No leaf met so far is in the way of the next entry, except the node `at` before the first one. */
  lemma LeafElsewhere(conv: Converters, t: Tree, ti: Tree, at: Path, es: seq<Entry>, e: Entry, q: Path)
    requires SoundBut(t, conv, at) && !Interior(t, at) && CleanEntries(es + [e])
    requires ReadPart(conv, t, ti, at, es) && q in Leaves(ti)
    ensures q == at ==> es == []
    ensures q != at ==> !AtOrAbove(q, Along(at, e.key)) && !AtOrAbove(Along(at, e.key), q)
  {
    var all := es + [e];
    assert all[|es|] == e;
    BelowItself(at, e.key);
    if es != [] && q in EntryTexts(es, at) {
      var j := TextOfEntry(es, at, q);
      assert all[j] == es[j];
      TextsBelow(es[j].value, Along(at, es[j].key), q);
      Separate(at, es[j].key, e.key, q);
      BelowItself(at, es[j].key);
      AboveTransitive(at, Along(at, es[j].key), q);
      if q == at { AboveIsShallower(at, at); }
    } else {
      NearChildless(t, at, Along(at, e.key), q);
    }
  }

  lemma PlaceIsFree(conv: Converters, t: Tree, ti: Tree, at: Path, es: seq<Entry>, e: Entry)
    requires SoundBut(t, conv, at) && !Interior(t, at) && CleanEntries(es + [e])
    requires ReadPart(conv, t, ti, at, es)
    ensures Along(at, e.key) !in ti
  {
    var p := Along(at, e.key);
    assert (es + [e])[|es|] == e;
    BelowItself(at, e.key);
    if p in ti {
      var q := LeafAtOrBelow(ti, p, {});
      LeafElsewhere(conv, t, ti, at, es, e, q);
      if q == at { AboveTransitive(at, p, q); AboveIsShallower(at, at); }
    }
  }

  lemma NothingInTheWay(conv: Converters, t: Tree, ti: Tree, at: Path, es: seq<Entry>, e: Entry)
    requires SoundBut(t, conv, at) && !Interior(t, at) && CleanEntries(es + [e])
    requires ReadPart(conv, t, ti, at, es)
    ensures Around(Leaves(ti), Along(at, e.key)) == if es == [] then Around(Leaves(t), at) else Leaves(ti)
  {
    var p := Along(at, e.key);
    assert (es + [e])[|es|] == e;
    BelowItself(at, e.key);
    forall q | q in Leaves(ti) ensures AtOrAbove(q, p) <==> q == at && es == [] {
      LeafElsewhere(conv, t, ti, at, es, e, q);
    }
    if es == [] { AroundChildless(t, at); }
  }

  lemma AroundChildless(t: Tree, at: Path)
    requires Shape(t) && at in t && !Interior(t, at)
    ensures Around(Leaves(t), at) == Leaves(t) - {at}
  {
    forall q | q in Leaves(t) && Above(q, at) ensures false {
      var k := NextBelow(q, at);
      PrefixClosed(t, Snoc(q, k), at);
    }
  }

  lemma NextEntry(
    conv: Converters, t: Tree, ti: Tree, t': Tree, at: Path, es: seq<Entry>, e: Entry, r: Outcome)
    requires SoundBut(t, conv, at) && !Interior(t, at) && CleanEntries(es + [e])
    requires ReadPart(conv, t, ti, at, es) && EntryAs(conv, ti, t', at, e, r)
    ensures r.Done? <==> AllClassified(EntryTexts(es + [e], at), conv)
    ensures r.Done? ==> ReadPart(conv, t, t', at, es + [e])
  {
    var p, all := Along(at, e.key), es + [e];
    assert all[|es|] == e && all[..|all| - 1] == es;
    PlaceIsFree(conv, t, ti, at, es, e);
    NothingInTheWay(conv, t, ti, at, es, e);
    ClassifiedUnion(EntryTexts(es, at), Texts(e.value, p), conv);
    if r.Done? {
      OpenAbove(conv, t', at, e.key);
      var a, b, c := Around(Leaves(t), at), LeafCells(EntryTexts(es, at), conv), LeafCells(Texts(e.value, p), conv);
      if es == [] { NothingYet(b, c); } else { ThenMore(a, b, c); }
    }
  }

  lemma NothingYet(b: Tree, c: Tree)
    requires b == map[]
    ensures b + c == c
  {
  }

  lemma ThenMore(a: Tree, b: Tree, c: Tree)
    ensures (a + b) + c == a + (b + c)
  {
  }

  lemma OpenAbove(conv: Converters, t: Tree, at: Path, key: seq<Name>)
    requires Sound(t, conv) && key != [] && Along(at, key) in t
    ensures SoundBut(t, conv, at)
  {
    BelowItself(at, key);
    var k := NextBelow(at, Along(at, key));
    PrefixClosed(t, Snoc(at, k), Along(at, key));
    InteriorInTree(t, at);
    assert at != Top ==> SoundAt(t, conv, at);
  }

  lemma ClassifiedUnion(m: map<Path, string>, m': map<Path, string>, conv: Converters)
    requires AllClassified(m, conv)
    ensures AllClassified(m + m', conv) <==> AllClassified(m', conv)
    ensures AllClassified(m', conv) ==> LeafCells(m + m', conv) == LeafCells(m, conv) + LeafCells(m', conv)
  {
    assert forall p | p in m' :: (m + m')[p] == m'[p];
  }

  /** What the creation of the entry's node makes of the tree; None if its kind cannot be determined. */
  function NewCell(conv: Converters, d: Doc): Option<Cell> {
    match d
    case Mapping(_) => Some(Cell(Map, ""))
    case Text(s) =>
      match conv.Classify(s)
      case None => None
      case Some(k) => Some(Cell(k, s))
  }

  lemma EntryFailed(conv: Converters, t: Tree, t': Tree, at: Path, e: Entry)
    requires NewCell(conv, e.value).None?
    ensures EntryAs(conv, t, t', at, e, BadScalar)
  {
    assert e.value.Text?;
    assert Along(at, e.key) in Texts(e.value, Along(at, e.key));
  }

  lemma EntryRead(conv: Converters, t: Tree, mid: Tree, t': Tree, at: Path, e: Entry, r: Outcome)
    requires Shape(t) && NewCell(conv, e.value).Some?
    requires mid == Assign(t, Along(at, e.key), NewCell(conv, e.value).value) && mid.Keys <= t'.Keys
    requires DocAs(conv, mid, t', Along(at, e.key), e.value, r)
    ensures EntryAs(conv, t, t', at, e, r)
  {
    var p, c := Along(at, e.key), NewCell(conv, e.value).value;
    if e.key != [] && SoundBut(t, conv, at) && p !in t && CleanValue(e.value) {
      EntryCreated(conv, t, at, e, c);
      if e.value.Text? {
        OneText(conv, p, e.value.text);
        AroundAndOne(Leaves(t), p, c);
      } else {
        AroundTwice(Leaves(t), p, c);
      }
    }
  }

  lemma OneText(conv: Converters, p: Path, s: string)
    requires conv.Classify(s).Some?
    ensures LeafCells(map[p := s], conv) == map[p := Cell(conv.Classify(s).value, s)]
  {
  }

  lemma EntryCreated(conv: Converters, t: Tree, at: Path, e: Entry, c: Cell)
    requires SoundBut(t, conv, at) && e.key != [] && Along(at, e.key) !in t
    requires NewCell(conv, e.value) == Some(c)
    ensures var p := Along(at, e.key);
            var mid := Assign(t, p, c);
            && p != Top && Leaves(mid) == Put(Leaves(t), p, c)
            && if e.value.Text? then Sound(mid, conv) else SoundBut(mid, conv, p) && !Interior(mid, p)
  {
    BelowItself(at, e.key);
    CreatedSound(t, conv, at, Along(at, e.key), c);
    StillChildless(t, Along(at, e.key), c);
    LeavesOfAssign(t, Along(at, e.key), c);
  }

  lemma StillChildless(t: Tree, p: Path, c: Cell)
    requires Shape(t) && p !in t
    ensures !Interior(t, p) && !Interior(Assign(t, p, c), p)
  {
    if Interior(t, p) { InteriorInTree(t, p); }
    InteriorAfterInsert(t, p, p);
    if Above(p, p) { AboveIsShallower(p, p); }
  }

  lemma AroundAndOne(l: Tree, p: Path, c: Cell)
    requires p != Top && p !in l
    ensures Put(l, p, c) == Around(l, p) + map[p := c]
  {
  }

  lemma AroundTwice(l: Tree, p: Path, c: Cell)
    requires p != Top
    ensures Around(Put(l, p, c), p) == Around(l, p)
  {
  }

  /** The loop of read_config_doc over all but the last element of a key. */
  method Walk(node: Node, pel: seq<Name>, ghost root: Node, ghost t: Layout, ghost at: Path)
      returns (n: Node, ghost t': Layout)
    requires Holds(root, t) && at in t.at && t.at[at] == node
    modifies t.repr
    ensures Holds(root, t') && Extends(t, t')
    ensures t.repr <= t'.repr && fresh(t'.repr - t.repr)
    ensures Along(at, pel) in t'.at && n == t'.at[Along(at, pel)]
    ensures Shape(old(View(t))) && View(t') == Insert(old(View(t)), Along(at, pel))
  {
    ghost var before := View(t);
    assert Shape(before) by { Facts(root, t); }
    InsertKeepsCells(before, at, at);
    n, t' := node, t;
    ghost var to := at;
    for i := 0 to |pel|
      invariant Along(to, pel[i..]) == Along(at, pel)
      invariant Holds(root, t') && Extends(t, t')
      invariant t.repr <= t'.repr && fresh(t'.repr - t.repr)
      invariant to in t'.at && n == t'.at[to]
      invariant View(t') == Insert(before, to)
    {
      assert pel[i..][1..] == pel[i + 1..];
      ghost var mid := t';
      n, t' := n.Descend(pel[i], root, t', to);
      GrownTwice(t, mid, t');
      Between(t.repr, mid.repr, t'.repr);
      assert fresh(t'.repr - mid.repr);
      assert Insert(before, Snoc(to, pel[i])) == Grow(Insert(before, to), Snoc(to, pel[i]));
      to := Snoc(to, pel[i]);
    }
  }

  /** The keys of the document are not empty. */
  ghost predicate WellKeyed(d: Doc)
    decreases d
  {
    d.Mapping? ==> forall i | 0 <= i < |d.entries| :: d.entries[i].key != [] && WellKeyed(d.entries[i].value)
  }

  method ReadConfigDoc(conv: Converters, d: Doc, node: Node, ghost root: Node, ghost t: Layout, ghost at: Path)
      returns (r: Outcome, ghost t': Layout)
    requires Holds(root, t) && at in t.at && t.at[at] == node && WellKeyed(d)
    modifies t.repr
    ensures Holds(root, t') && Extends(t, t')
    ensures t.repr <= t'.repr && fresh(t'.repr - t.repr)
    ensures DocAs(conv, old(View(t)), View(t'), at, d, r)
    decreases d, 0
  {
    t', r := t, Done;
    if d.Mapping? {
      ghost var before, es := View(t), d.entries;
      assert es[..0] == [];
      for i := 0 to |d.entries|
        invariant Holds(root, t') && Extends(t, t')
        invariant t.repr <= t'.repr && fresh(t'.repr - t.repr)
        invariant r.Done? && Clear(conv, before, at, es) ==> ReadPart(conv, before, View(t'), at, es[..i])
        invariant r.Done?
      {
        ghost var mid := View(t');
        r, t' := ReadEntry(conv, d.entries[i], node, root, t', at);
        NextOfAll(conv, before, mid, View(t'), at, es, i, r);
        if !r.Done? {
          return;
        }
      }
      assert es[..|es|] == es;
    }
  }

  ghost predicate Clear(conv: Converters, t: Tree, at: Path, es: seq<Entry>) {
    SoundBut(t, conv, at) && !Interior(t, at) && CleanEntries(es)
  }

  lemma NextOfAll(
    conv: Converters, t: Tree, ti: Tree, t': Tree, at: Path, es: seq<Entry>, i: nat, r: Outcome)
    requires i < |es| && EntryAs(conv, ti, t', at, es[i], r)
    requires Clear(conv, t, at, es) ==> ReadPart(conv, t, ti, at, es[..i])
    ensures Clear(conv, t, at, es) ==>
              if r.Done? then ReadPart(conv, t, t', at, es[..i + 1]) else !AllClassified(EntryTexts(es, at), conv)
  {
    assert es[..i + 1] == es[..i] + [es[i]];
    if Clear(conv, t, at, es) {
      NextEntry(conv, t, ti, t', at, es[..i], es[i], r);
      if !r.Done? {
        PrefixTexts(conv, es, i + 1, at);
      }
    }
  }

  /** The branch of read_config_doc for a key that is already there. */
  method Redefine(conv: Converters, d: Doc, tmp: Node, ghost root: Node, ghost t: Layout, ghost at: Path)
      returns (r: Outcome)
    requires Holds(root, t) && at in t.at && t.at[at] == tmp
    modifies tmp
    ensures Holds(root, t)
    ensures r.ScalarOverwrite? <==> old(tmp.kind).IsScalar() && d.Mapping?
    ensures r.ScalarOverwrite? ==> View(t) == old(View(t))
    ensures !r.ScalarOverwrite? ==>
              var s := if d.Text? then d.text else "";
              var k := conv.Classify(s);
              && r == (if k.Some? then Done else BadScalar)
              && View(t) == old(View(t))[at := Cell(if k.Some? then k.value else old(tmp.kind), s)]
  {
    if tmp.kind.IsScalar() && !d.Text? {
      r := ScalarOverwrite;
    } else {
      var ok := tmp.AssignAt(conv, if d.Text? then d.text else "", root, t, at);
      r := if ok then Done else BadScalar;
    }
  }

  /** The body of the loop over the entries. */
  method ReadEntry(conv: Converters, e: Entry, node: Node, ghost root: Node, ghost t: Layout, ghost at: Path)
      returns (r: Outcome, ghost t': Layout)
    requires Holds(root, t) && at in t.at && t.at[at] == node && e.key != [] && WellKeyed(e.value)
    modifies t.repr
    ensures Holds(root, t') && Extends(t, t')
    ensures t.repr <= t'.repr && fresh(t'.repr - t.repr)
    ensures EntryAs(conv, old(View(t)), View(t'), at, e, r)
    decreases e, 0
  {
    var n := |e.key| - 1;
    ghost var before, p := View(t), Along(at, e.key);
    assert Shape(before) by { Facts(root, t); }
    AlongLast(at, e.key);
    var within, t1 := Walk(node, e.key[..n], root, t, at);
    var key := e.key[n];
    ChildFacts(root, t1, p.front, key);
    if key in within.children {
      t' := t1;
      r := Redefine(conv, e.value, within.children[key], root, t1, p);
      NotFree(before, p);
    } else {
      ghost var mid := View(t1);
      r, t' := Create(conv, e.value, within, key, root, t1, p.front);
      NewEntry(conv, before, mid, View(t'), at, e, r);
      Between(t.repr, t1.repr, t'.repr);
      GrownTwice(t, t1, t');
    }
  }

  /** The branch of read_config_doc for a new key: the node is created from the document, which may
      throw, then added, then filled. */
  method Create(conv: Converters, d: Doc, within: Node, key: Name, ghost root: Node, ghost t: Layout, ghost at: Path)
      returns (r: Outcome, ghost t': Layout)
    requires Holds(root, t) && at in t.at && t.at[at] == within && key !in within.children && WellKeyed(d)
    modifies t.repr
    ensures Holds(root, t') && Extends(t, t')
    ensures t.repr <= t'.repr && fresh(t'.repr - t.repr)
    ensures at in old(View(t)) && CreatedAs(conv, old(View(t)), View(t'), Snoc(at, key), d, r)
    decreases d, 1
  {
    var c := NewCell(conv, d);
    if c.None? {
      return BadScalar, t;
    }
    var tmp, t1 := within.Hook(key, c.value.kind, c.value.scalar, root, t, at);
    r, t' := ReadConfigDoc(conv, d, tmp, root, t1, Snoc(at, key));
    Between(t.repr, t1.repr, t'.repr);
    GrownTwice(t, t1, t');
  }

  ghost predicate CreatedAs(conv: Converters, t: Tree, t': Tree, p: Path, d: Doc, r: Outcome)
    requires p.Snoc? && p.front in t
  {
    match NewCell(conv, d)
    case None => r == BadScalar && t' == t
    case Some(c) => Hung(t, p, c).Keys <= t'.Keys && DocAs(conv, Hung(t, p, c), t', p, d, r)
  }

  lemma NewEntry(conv: Converters, t: Tree, ti: Tree, t': Tree, at: Path, e: Entry, r: Outcome)
    requires Shape(t) && e.key != [] && Along(at, e.key).Snoc?
    requires ti == Insert(t, Along(at, e.key).front) && Along(at, e.key) !in ti
    requires CreatedAs(conv, ti, t', Along(at, e.key), e.value, r)
    ensures EntryAs(conv, t, t', at, e, r)
  {
    match NewCell(conv, e.value)
    case None =>
      EntryFailed(conv, t, t', at, e);
    case Some(c) =>
      HungIsAssigned(t, Along(at, e.key), c);
      EntryRead(conv, t, Hung(ti, Along(at, e.key), c), t', at, e, r);
  }

  lemma NotFree(t: Tree, p: Path)
    requires Shape(t) && p.Snoc? && p in Insert(t, p.front)
    ensures p in t
  {
    if AtOrAbove(p, p.front) { AboveTransitive(p, p.front, p); AboveIsShallower(p, p); }
  }

  lemma HungIsAssigned(t: Tree, p: Path, c: Cell)
    requires Shape(t) && p.Snoc? && p !in Insert(t, p.front)
    ensures Hung(Insert(t, p.front), p, c) == Assign(t, p, c)
  {
  }
}
