/** Merging one configuration tree into another: operator+=. */
module ConfigMerge {
  import opened ConfigTree
  import opened ConfigOverlay
  import opened ConfigNode

  lemma PartIsAll(b: Tree, p: Path, ks: set<Name>)
    requires Shape(b) && p in b && forall k :: Snoc(p, k) in b <==> k in ks
    ensures {p} + Part(b.Keys, p, ks) == Below(b.Keys, p)
  {
    forall q | q in Below(b.Keys, p) && q != p ensures q in Part(b.Keys, p, ks) {
      var k := NextBelow(p, q);
      PrefixClosed(b, Snoc(p, k), q);
    }
    forall q | q in Part(b.Keys, p, ks) ensures q in Below(b.Keys, p) {
      var k :| k in ks && AtOrAbove(Snoc(p, k), q);
      AboveTransitive(p, Snoc(p, k), q);
    }
  }

  lemma BelowScalar(b: Tree, conv: Converters, p: Path)
    requires Sound(b, conv) && p in b && p != Top && b[p].kind.IsScalar()
    ensures Below(b.Keys, p) == {p} && forall k :: Snoc(p, k) !in b
  {
    assert SoundAt(b, conv, p);
    forall q | q in Below(b.Keys, p) ensures q == p {
      if q != p {
        var k := NextBelow(p, q);
        PrefixClosed(b, Snoc(p, k), q);
      }
    }
  }

  lemma MergeTwice(a: Tree, b: Tree, s: set<Path>, s': set<Path>)
    requires s <= b.Keys && s' <= b.Keys
    ensures MergePart(MergePart(a, b, s), b, s') == MergePart(a, b, s + s')
  {
  }

  lemma MergeOne(a: Tree, b: Tree, p: Path)
    requires p in b
    ensures MergePart(a, b, {p}) ==
              if p !in a || (a[p].kind.IsScalar() && b[p].kind.IsScalar()) then a[p := b[p]] else a
  {
  }

  ghost predicate ClashIn(a: Tree, b: Tree, s: set<Path>) {
    exists p :: p in s && Clash(a, b, p)
  }

  /** A tree whose nodes are merged under their own paths. */
  ghost predicate Mergeable(conv: Converters, a: Tree, b: Tree) {
    Sound(b, conv) && NoRootName(b) && Top in a && !a[Top].kind.IsScalar()
  }

  /** Where a child of this name goes: a child called "root" goes to the node itself. */
  ghost function ReceivingPath(pa: Path, name: Name): Path {
    if name == "root" then pa else Snoc(pa, name)
  }

  /** Where the node at `q` goes when the node at `pb` above it goes to `pt`. */
  ghost function Landing(q: Path, pt: Path, pb: Path): Path {
    if q == pb || q.Top? then pt else ReceivingPath(Landing(q.front, pt, pb), q.last)
  }

  ghost function Lands(s: set<Path>, pt: Path, pb: Path): set<Path> {
    set q | q in s :: Landing(q, pt, pb)
  }

  lemma {:induction false} LandsWithChild(q: Path, pt: Path, pb: Path, k: Name)
    requires AtOrAbove(Snoc(pb, k), q)
    ensures Landing(q, ReceivingPath(pt, k), Snoc(pb, k)) == Landing(q, pt, pb)
  {
    AboveTransitive(pb, Snoc(pb, k), q);
    AboveIsShallower(pb, q);
    if q == Snoc(pb, k) {
    } else {
      LandsWithChild(q.front, pt, pb, k);
    }
  }

  /** One more child lands with all that is below it. */
  lemma LandsMore(ps: set<Path>, pt: Path, pb: Path, done: set<Name>, k: Name)
    ensures Lands(Part(ps, pb, done + {k}), pt, pb) ==
            Lands(Part(ps, pb, done), pt, pb) + Lands(Below(ps, Snoc(pb, k)), ReceivingPath(pt, k), Snoc(pb, k))
  {
    PartGrows(ps, pb, done, k);
    forall q | q in Below(ps, Snoc(pb, k))
      ensures Landing(q, ReceivingPath(pt, k), Snoc(pb, k)) == Landing(q, pt, pb)
    {
      LandsWithChild(q, pt, pb, k);
    }
    SameLandings(Below(ps, Snoc(pb, k)), pt, pb, ReceivingPath(pt, k), Snoc(pb, k));
    LandsUnion(Part(ps, pb, done), Below(ps, Snoc(pb, k)), pt, pb);
  }

  lemma SameLandings(s: set<Path>, pt: Path, pb: Path, pt': Path, pb': Path)
    requires forall q | q in s :: Landing(q, pt', pb') == Landing(q, pt, pb)
    ensures Lands(s, pt', pb') == Lands(s, pt, pb)
  {
  }

  lemma LandsUnion(s: set<Path>, s': set<Path>, pt: Path, pb: Path)
    ensures Lands(s + s', pt, pb) == Lands(s, pt, pb) + Lands(s', pt, pb)
  {
  }

  lemma LandsOne(pt: Path, pb: Path)
    ensures Lands({pb}, pt, pb) == {pt} && Lands({}, pt, pb) == {}
  {
    assert pb in {pb};
  }

  ghost predicate Landed(a: Tree, a': Tree, s: set<Path>, pt: Path, pb: Path) {
    a'.Keys == a.Keys + Lands(s, pt, pb)
  }

  /** What merging the nodes `s` of `b`, among them perhaps the one at `pb`, makes of the tree `a`, where
      `pb` goes to `pt`: every node lands where it belongs and nothing else is made; and when they are
      merged under their own paths the whole tree is known. */
  ghost predicate MergedAs(
    conv: Converters, a: Tree, a': Tree, b: Tree, s: set<Path>, pt: Path, pb: Path, r: Outcome)
  {
    match r
    case Done =>
      && (NoRootName(a) ==> NoRootName(a'))
      && (Sound(b, conv) ==> Landed(a, a', s, pt, pb))
      && (pt == pb && Mergeable(conv, a, b) ==> !ClashIn(a, b, s) && s <= b.Keys && a' == MergePart(a, b, s))
    case ScalarOverwrite =>
      && (NoRootName(a) ==> NoRootName(a'))
      && (pt == pb && Mergeable(conv, a, b) ==> ClashIn(a, b, s))
    case _ =>
      && (NoRootName(a) ==> NoRootName(a'))
      && !(pt == pb && Mergeable(conv, a, b))
  }

  /** Merging the children `ks` of the node at `pb` into the one at `pt` makes `a'` of the tree `a`. */
  ghost predicate ChildrenMerged(
    conv: Converters, a: Tree, a': Tree, b: Tree, ks: set<Name>, pt: Path, pb: Path, r: Outcome)
  {
    MergedAs(conv, a, a', b, Part(b.Keys, pb, ks), pt, pb, r)
  }

  /** Two trees that share no node; the untouched one on the right shows `b`. */
  ghost predicate Beside(root: Node, t: Layout, other: Node, u: Layout, b: Tree)
    reads t.repr, u.repr
  {
    Holds(root, t) && Holds(other, u) && b == View(u) && t.repr !! u.repr
  }

  /** The node `a` at `pa` of the tree on the left, and the node `n` at `pb` of the one on the right. */
  ghost predicate Ready(
    a: Node, root: Node, t: Layout, pa: Path, n: Node, other: Node, u: Layout, pb: Path, b: Tree)
    reads t.repr, u.repr
  {
    && Beside(root, t, other, u, b)
    && pa in t.at && t.at[pa] == a && pb in u.at && u.at[pb] == n
  }

  /** The node that receives `n`'s value and children: a child of `a` of the same name, copied from
      `n` if it is missing, or `a` itself if `n` is called "root". */
  method Receiver(
      a: Node, n: Node, ghost root: Node, ghost t: Layout, ghost pa: Path,
      ghost other: Node, ghost u: Layout, ghost pb: Path, ghost b: Tree)
      returns (addTo: Node, ghost t': Layout, ghost pt: Path)
    requires Ready(a, root, t, pa, n, other, u, pb, b)
    modifies a
    ensures Ready(addTo, root, t', pt, n, other, u, pb, b)
    ensures Extends(t, t') && t.repr <= t'.repr && fresh(t'.repr - t.repr)
    ensures pt == ReceivingPath(pa, n.name)
    ensures View(t') == Received(old(View(t)), b, pt, pb)
  {
    t', addTo, pt := t, a, pa;
    assert b[pb] == Cell(n.kind, n.scalar);
    if n.name != "root" {
      pt := Snoc(pa, n.name);
      ChildFacts(root, t, pa, n.name);
      if n.name !in a.children {
        addTo, t' := a.HookCopy(n, root, t, pa);
        assert unchanged(u.repr);
      } else {
        addTo := a.children[n.name];
      }
    }
  }

  ghost function Received(a: Tree, b: Tree, pt: Path, pb: Path): Tree
    requires pb in b
  {
    if pt in a then a else a[pt := b[pb]]
  }

  /** The tree `mid` once the node that receives `b`'s node has been found or made. */
  ghost predicate ReceivedAs(a: Tree, b: Tree, pa: Path, pb: Path, name: Name, mid: Tree) {
    pa in a && pb in b && mid == Received(a, b, ReceivingPath(pa, name), pb)
  }

  /** *a += n, where `a` is the node at `pa` of one tree and `n` the node at `pb` of another. */
  method PlusAssign(
      conv: Converters, a: Node, n: Node,
      ghost root: Node, ghost t: Layout, ghost pa: Path,
      ghost other: Node, ghost u: Layout, ghost pb: Path, ghost b: Tree)
      returns (r: Outcome, ghost t': Layout)
    requires Ready(a, root, t, pa, n, other, u, pb, b)
    modifies t.repr
    ensures Beside(root, t', other, u, b)
    ensures Extends(t, t') && t.repr <= t'.repr && fresh(t'.repr - t.repr)
    ensures MergedAs(conv, old(View(t)), View(t'), b, Below(b.Keys, pb), ReceivingPath(pa, n.name), pb, r)
    decreases Below(b.Keys, pb), 5
  {
    ghost var before := View(t);
    ghost var mid: Tree;
    r, t', mid := ReceiveAndAbsorb(conv, a, n, root, t, pa, other, u, pb, b);
    MergedAfterReceiving(conv, before, b, pa, pb, n.name, mid, View(t'), r);
  }

  /** The two halves of operator+=; `mid` is the tree between them. */
  method ReceiveAndAbsorb(
      conv: Converters, a: Node, n: Node,
      ghost root: Node, ghost t: Layout, ghost pa: Path,
      ghost other: Node, ghost u: Layout, ghost pb: Path, ghost b: Tree)
      returns (r: Outcome, ghost t': Layout, ghost mid: Tree)
    requires Ready(a, root, t, pa, n, other, u, pb, b)
    modifies t.repr
    ensures Beside(root, t', other, u, b)
    ensures Extends(t, t') && t.repr <= t'.repr && fresh(t'.repr - t.repr)
    ensures ReceivedAs(old(View(t)), b, pa, pb, n.name, mid)
    ensures MergedAs(conv, mid, View(t'), b, Below(b.Keys, pb), ReceivingPath(pa, n.name), pb, r)
    decreases Below(b.Keys, pb), 4
  {
    var addTo: Node;
    ghost var t1: Layout, pt: Path;
    addTo, t1, pt := Receiver(a, n, root, t, pa, other, u, pb, b);
    mid := View(t1);
    r, t' := Absorb(conv, addTo, n, root, t1, pt, other, u, pb, b);
    GrownTwice(t, t1, t');
    Between(t.repr, t1.repr, t'.repr);
    assert fresh(t'.repr - t1.repr);
  }

  /** Copying the value of `b`'s node to a missing path is part of merging that node. */
  lemma MergedAfterReceiving(
    conv: Converters, a: Tree, b: Tree, pa: Path, pb: Path, name: Name, mid: Tree, a': Tree, r: Outcome)
    requires ReceivedAs(a, b, pa, pb, name, mid)
    requires MergedAs(conv, mid, a', b, Below(b.Keys, pb), ReceivingPath(pa, name), pb, r)
    ensures MergedAs(conv, a, a', b, Below(b.Keys, pb), ReceivingPath(pa, name), pb, r)
  {
    LandsOne(ReceivingPath(pa, name), pb);
    assert pb in Below(b.Keys, pb);
    assert Landing(pb, ReceivingPath(pa, name), pb) in Lands(Below(b.Keys, pb), ReceivingPath(pa, name), pb);
    if Mergeable(conv, a, b) && ReceivingPath(pa, name) == pb {
      SameMerge(a, b, pb, mid, Below(b.Keys, pb));
    }
  }

  lemma SameMerge(a: Tree, b: Tree, p: Path, mid: Tree, s: set<Path>)
    requires p in b && p in s && s <= b.Keys && mid == Received(a, b, p, p)
    ensures MergePart(mid, b, s) == MergePart(a, b, s)
    ensures ClashIn(mid, b, s) <==> ClashIn(a, b, s)
  {
    SameClashes(a, b, mid, s);
  }

  lemma SameClashes(a: Tree, b: Tree, mid: Tree, s: set<Path>)
    requires forall q | q in mid && q !in a :: q in b && mid[q] == b[q]
    requires forall q | q in mid && q in a && q in b ::
               mid[q] == a[q] || (a[q].kind.IsScalar() && mid[q] == b[q] && b[q].kind.IsScalar())
    requires a.Keys <= mid.Keys
    ensures ClashIn(mid, b, s) <==> ClashIn(a, b, s)
  {
    if ClashIn(mid, b, s) {
      var q :| q in s && Clash(mid, b, q);
      assert Clash(a, b, q);
    }
    if ClashIn(a, b, s) {
      var q :| q in s && Clash(a, b, q);
      assert Clash(mid, b, q);
    }
  }

  /** The part of operator+= after the receiving node has been found: overwrite its scalar or merge
      the children. */
  method Absorb(
      conv: Converters, addTo: Node, n: Node,
      ghost root: Node, ghost t: Layout, ghost pt: Path,
      ghost other: Node, ghost u: Layout, ghost pb: Path, ghost b: Tree)
      returns (r: Outcome, ghost t': Layout)
    requires Ready(addTo, root, t, pt, n, other, u, pb, b)
    modifies t.repr
    ensures Beside(root, t', other, u, b)
    ensures Extends(t, t') && t.repr <= t'.repr && fresh(t'.repr - t.repr)
    ensures MergedAs(conv, old(View(t)), View(t'), b, Below(b.Keys, pb), pt, pb, r)
    decreases Below(b.Keys, pb), 3
  {
    ghost var before, kids := View(t), n.children.Keys;
    assert before[pt] == Cell(addTo.kind, addTo.scalar) && b[pb] == Cell(n.kind, n.scalar);
    t' := t;
    if addTo.kind.IsScalar() {
      if n.kind.IsScalar() {
        var ok := addTo.AssignAt(conv, n.scalar, root, t, pt);
        r := if ok then Done else BadScalar;
        assert unchanged(u.repr);
      } else {
        r := ScalarOverwrite;
      }
      ScalarAbsorbed(conv, before, View(t'), b, pt, pb, r);
    } else {
      assert forall k :: Snoc(pb, k) in b <==> k in kids by { Facts(other, u); }
      r, t' := PlusChildren(conv, addTo, n, root, t, pt, other, u, pb, b);
      ChildrenAbsorbed(conv, before, View(t'), b, pt, pb, kids, r);
    }
  }

  lemma ScalarAbsorbed(conv: Converters, a: Tree, a': Tree, b: Tree, pt: Path, pb: Path, r: Outcome)
    requires pt in a && pb in b && a[pt].kind.IsScalar()
    requires if b[pb].kind.IsScalar()
             then a'.Keys == a.Keys
                  && (conv.Classify(b[pb].scalar).Some? ==>
                        r.Done? && a' == a[pt := Cell(conv.Classify(b[pb].scalar).value, b[pb].scalar)])
             else r.ScalarOverwrite? && a' == a
    ensures MergedAs(conv, a, a', b, Below(b.Keys, pb), pt, pb, r)
  {
    LandsOne(pt, pb);
    if Sound(b, conv) && b[pb].kind.IsScalar() {
      BelowScalar(b, conv, pb);
    }
    if pt == pb && Mergeable(conv, a, b) {
      if b[pb].kind.IsScalar() {
        BelowScalar(b, conv, pb);
        MergeOne(a, b, pb);
        assert SoundAt(b, conv, pb);
      } else {
        assert Clash(a, b, pb);
      }
    }
  }

  lemma ChildrenAbsorbed(
    conv: Converters, a: Tree, a': Tree, b: Tree, pt: Path, pb: Path, kids: set<Name>, r: Outcome)
    requires pt in a && pb in b && !a[pt].kind.IsScalar() && forall k :: Snoc(pb, k) in b <==> k in kids
    requires ChildrenMerged(conv, a, a', b, kids, pt, pb, r)
    ensures MergedAs(conv, a, a', b, Below(b.Keys, pb), pt, pb, r)
  {
    if Sound(b, conv) {
      PartIsAll(b, pb, kids);
      if r.Done? {
        LandedWithOwner(a, a', Part(b.Keys, pb, kids), pt, pb);
      }
      if pt == pb && Mergeable(conv, a, b) {
        OwnWithOwner(a, b, pb, Part(b.Keys, pb, kids));
      }
    }
  }

  /** The node that has received the children is there already. */
  lemma LandedWithOwner(a: Tree, a': Tree, s: set<Path>, pt: Path, pb: Path)
    requires pt in a && Landed(a, a', s, pt, pb)
    ensures Landed(a, a', {pb} + s, pt, pb)
  {
    LandsOne(pt, pb);
    LandsUnion({pb}, s, pt, pb);
  }

  lemma OwnWithOwner(a: Tree, b: Tree, p: Path, s: set<Path>)
    requires p in a && p in b && !a[p].kind.IsScalar() && s <= b.Keys
    ensures MergePart(a, b, {p} + s) == MergePart(a, b, s)
    ensures ClashIn(a, b, {p} + s) <==> ClashIn(a, b, s)
  {
    MergeOne(a, b, p);
    MergeTwice(a, b, {p}, s);
    assert !Clash(a, b, p);
    ClashElsewhere(a, b, p, s);
  }

  lemma ClashElsewhere(a: Tree, b: Tree, p: Path, s: set<Path>)
    requires !Clash(a, b, p)
    ensures ClashIn(a, b, {p} + s) <==> ClashIn(a, b, s)
  {
    if ClashIn(a, b, s) {
      var q :| q in s && Clash(a, b, q);
      assert q in {p} + s;
    }
  }

  /** The loop over `n`'s children in operator+=, in any order. */
  method PlusChildren(
      conv: Converters, addTo: Node, n: Node,
      ghost root: Node, ghost t: Layout, ghost pt: Path,
      ghost other: Node, ghost u: Layout, ghost pb: Path, ghost b: Tree)
      returns (r: Outcome, ghost t': Layout)
    requires Ready(addTo, root, t, pt, n, other, u, pb, b)
    modifies t.repr
    ensures Beside(root, t', other, u, b)
    ensures Extends(t, t') && t.repr <= t'.repr && fresh(t'.repr - t.repr)
    ensures MergedAs(conv, old(View(t)), View(t'), b, Part(b.Keys, pb, old(n.children).Keys), pt, pb, r)
    decreases Below(b.Keys, pb), 2
  {
    ghost var before, kids := View(t), n.children.Keys;
    t', r := t, Done;
    var done: set<Name> := {};
    NothingMerged(conv, before, b, pt, pb);
    while done != n.children.Keys && r.Done?
      invariant Ready(addTo, root, t', pt, n, other, u, pb, b)
      invariant done <= n.children.Keys == kids
      invariant Extends(t, t') && t.repr <= t'.repr && fresh(t'.repr - t.repr)
      invariant ChildrenMerged(conv, before, View(t'), b, if r.Done? then done else kids, pt, pb, r)
      decreases kids - done
    {
      ghost var mid := t';
      r, done, t' := PlusNext(conv, addTo, n, done, root, t, t', pt, other, u, pb, b, before);
      Between(t.repr, mid.repr, t'.repr);
    }
  }

  /** One turn of the loop: some child that is not merged yet; the loop started with the tree `t0`. */
  method PlusNext(
      conv: Converters, addTo: Node, n: Node, done: set<Name>,
      ghost root: Node, ghost t0: Layout, ghost t: Layout, ghost pt: Path,
      ghost other: Node, ghost u: Layout, ghost pb: Path, ghost b: Tree, ghost before: Tree)
      returns (r: Outcome, done': set<Name>, ghost t': Layout)
    requires Ready(addTo, root, t, pt, n, other, u, pb, b)
    requires done <= n.children.Keys && done != n.children.Keys
    requires Extends(t0, t) && t0.repr <= t.repr
    requires ChildrenMerged(conv, before, View(t), b, done, pt, pb, Done)
    modifies t.repr
    ensures Ready(addTo, root, t', pt, n, other, u, pb, b)
    ensures Extends(t0, t') && t.repr <= t'.repr && fresh(t'.repr - t.repr)
    ensures done < done' <= n.children.Keys == old(n.children.Keys)
    ensures var merged := if r.Done? then done' else n.children.Keys;
            ChildrenMerged(conv, before, View(t'), b, merged, pt, pb, r)
    decreases Below(b.Keys, pb), 1
  {
    var k :| k in n.children && k !in done;
    r, t' := PlusChild(conv, addTo, n, k, root, t, pt, other, u, pb, b, before, done);
    GrownTwice(t0, t, t');
    done' := done + {k};
  }

  /** The loop body: merge the child `k` of `n`, where `done` were merged into `before` already. */
  method PlusChild(
      conv: Converters, addTo: Node, n: Node, k: Name,
      ghost root: Node, ghost t: Layout, ghost pt: Path,
      ghost other: Node, ghost u: Layout, ghost pb: Path, ghost b: Tree,
      ghost before: Tree, ghost done: set<Name>)
      returns (r: Outcome, ghost t': Layout)
    requires Ready(addTo, root, t, pt, n, other, u, pb, b) && k in n.children && done <= n.children.Keys
    requires ChildrenMerged(conv, before, View(t), b, done, pt, pb, Done)
    modifies t.repr
    ensures Beside(root, t', other, u, b)
    ensures Extends(t, t') && t.repr <= t'.repr && fresh(t'.repr - t.repr)
    ensures var merged := if r.Done? then done + {k} else old(n.children).Keys;
            ChildrenMerged(conv, before, View(t'), b, merged, pt, pb, r)
    decreases Below(b.Keys, pb), 0
  {
    ghost var mid, kids := View(t), n.children;
    ChildFacts(other, u, pb, k);
    BelowShrinks(b.Keys, pb, k);
    r, t' := PlusAssign(conv, addTo, n.children[k], root, t, pt, other, u, Snoc(pb, k), b);
    MergedNext(conv, before, mid, View(t'), b, pt, pb, done, k, kids.Keys, r);
  }

  lemma NothingMerged(conv: Converters, a: Tree, b: Tree, pt: Path, pb: Path)
    ensures ChildrenMerged(conv, a, a, b, {}, pt, pb, Done)
  {
    assert Part(b.Keys, pb, {}) == {};
    assert MergePart(a, b, {}) == a;
    LandsOne(pt, pb);
  }

  /** One more child: the parts merged so far and this one add up; a failure is a failure of the whole. */
  lemma MergedNext(
    conv: Converters, a: Tree, mid: Tree, a': Tree, b: Tree, pt: Path, pb: Path,
    done: set<Name>, k: Name, all: set<Name>, r: Outcome)
    requires ChildrenMerged(conv, a, mid, b, done, pt, pb, Done)
    requires MergedAs(conv, mid, a', b, Below(b.Keys, Snoc(pb, k)), ReceivingPath(pt, k), Snoc(pb, k), r)
    requires done + {k} <= all && Snoc(pb, k) in b
    ensures ChildrenMerged(conv, a, a', b, if r.Done? then done + {k} else all, pt, pb, r)
  {
    if Sound(b, conv) && r.Done? {
      LandedNext(a, mid, a', b.Keys, pt, pb, done, k);
    }
    if pt == pb && Mergeable(conv, a, b) {
      OwnNext(conv, a, mid, a', b, pb, done, k, all, r);
    }
  }

  lemma LandedNext(a: Tree, mid: Tree, a': Tree, ps: set<Path>, pt: Path, pb: Path, done: set<Name>, k: Name)
    requires Landed(a, mid, Part(ps, pb, done), pt, pb)
    requires Landed(mid, a', Below(ps, Snoc(pb, k)), ReceivingPath(pt, k), Snoc(pb, k))
    ensures Landed(a, a', Part(ps, pb, done + {k}), pt, pb)
  {
    LandsMore(ps, pt, pb, done, k);
  }

  lemma OwnNext(
    conv: Converters, a: Tree, mid: Tree, a': Tree, b: Tree, p: Path,
    done: set<Name>, k: Name, all: set<Name>, r: Outcome)
    requires MergedAs(conv, a, mid, b, Part(b.Keys, p, done), p, p, Done) && Mergeable(conv, a, b)
    requires MergedAs(conv, mid, a', b, Below(b.Keys, Snoc(p, k)), Snoc(p, k), Snoc(p, k), r)
    requires done + {k} <= all
    ensures r.Done? || r.ScalarOverwrite?
    ensures var s := Part(b.Keys, p, if r.Done? then done + {k} else all);
            if r.Done? then !ClashIn(a, b, s) && s <= b.Keys && a' == MergePart(a, b, s) else ClashIn(a, b, s)
  {
    PartGrows(b.Keys, p, done, k);
    MergeTwice(a, b, Part(b.Keys, p, done), Below(b.Keys, Snoc(p, k)));
    SameClashes(a, b, mid, Below(b.Keys, Snoc(p, k)));
    ClashUnion(a, b, Part(b.Keys, p, done), Below(b.Keys, Snoc(p, k)));
    ClashGrows(a, b, p, done + {k}, all);
  }

  lemma ClashUnion(a: Tree, b: Tree, s: set<Path>, s': set<Path>)
    requires !ClashIn(a, b, s)
    ensures ClashIn(a, b, s + s') <==> ClashIn(a, b, s')
  {
    if ClashIn(a, b, s') {
      var q :| q in s' && Clash(a, b, q);
      assert q in s + s';
    }
  }

  lemma ClashGrows(a: Tree, b: Tree, p: Path, ks: set<Name>, ks': set<Name>)
    requires ks <= ks'
    ensures ClashIn(a, b, Part(b.Keys, p, ks)) ==> ClashIn(a, b, Part(b.Keys, p, ks'))
  {
    if ClashIn(a, b, Part(b.Keys, p, ks)) {
      var q :| q in Part(b.Keys, p, ks) && Clash(a, b, q);
      assert q in Part(b.Keys, p, ks');
    }
  }
}
