/** The configuration tree as a value: a prefix-closed map from paths to node
    contents, and what inserting, setting and erasing a path do to it.  The
    heap nodes of module ConfigNode are proved against the functions below. */
module ConfigTree {

  /** A path element as the path splitter yields it: non-empty and slash-free. */
  type Name = s: string | s != "" && '/' !in s witness "root"

  datatype Path = Top | Snoc(front: Path, last: Name)

  /** `p` is a strict ancestor of `q`. */
  predicate Above(p: Path, q: Path) {
    q.Snoc? && (p == q.front || Above(p, q.front))
  }

  predicate AtOrAbove(p: Path, q: Path) {
    p == q || Above(p, q)
  }

  predicate Mentions(p: Path, n: Name) {
    p.Snoc? && (p.last == n || Mentions(p.front, n))
  }

  datatype Kind = NoKind | Uint32 | Int32 | Float | Bool | String | Map | Sequence | Unknown {
    predicate IsScalar() {
      Uint32? || Int32? || Float? || Bool? || String?
    }
  }

  datatype Cell = Cell(kind: Kind, scalar: string)

  type Tree = map<Path, Cell>

  /** Every node except the root has its parent in the tree. */
  ghost predicate Shape(t: Tree) {
    Top in t && forall p {:trigger p.front} | p in t && p.Snoc? :: p.front in t
  }

  /** The node at `p` has children. */
  ghost predicate Interior(t: Tree, p: Path) {
    exists k :: Snoc(p, k) in t
  }

  /** What leaf enumeration shows: every childless node except the root. */
  ghost function Leaves(t: Tree): Tree {
    map p | p in t && p != Top && !Interior(t, p) :: t[p]
  }

  /** No node other than the root is called "root". */
  ghost predicate NoRootName(t: Tree) {
    forall p | p in t :: !Mentions(p, "root")
  }

  // --- ancestors ------------------------------------------------------------

  function Depth(p: Path): nat {
    if p.Top? then 0 else 1 + Depth(p.front)
  }

  lemma {:induction false} AboveIsShallower(p: Path, q: Path)
    requires Above(p, q)
    ensures Depth(p) < Depth(q)
  {
    if p != q.front {
      AboveIsShallower(p, q.front);
    }
  }

  lemma {:induction false} AboveTransitive(p: Path, q: Path, r: Path)
    requires AtOrAbove(p, q) && AtOrAbove(q, r)
    ensures AtOrAbove(p, r)
    ensures p != q || q != r ==> Above(p, r)
  {
    if q != r && q != r.front {
      AboveTransitive(p, q, r.front);
    }
  }

  lemma {:induction false} TopIsAbove(q: Path)
    ensures AtOrAbove(Top, q)
  {
    if q.Top? {
    } else {
      TopIsAbove(q.front);
    }
  }

  lemma {:induction false} Comparable(p: Path, q: Path, x: Path)
    requires AtOrAbove(p, x) && AtOrAbove(q, x)
    ensures AtOrAbove(p, q) || AtOrAbove(q, p)
  {
    if p != x && q != x { Comparable(p, q, x.front); }
  }

  lemma {:induction false} MentionsBelow(p: Path, q: Path, n: Name)
    requires AtOrAbove(p, q) && Mentions(p, n)
    ensures Mentions(q, n)
  {
    if p == q {
    } else {
      MentionsBelow(p, q.front, n);
    }
  }

  /** The element with which the way from `p` down to `q` continues. */
  lemma {:induction false} NextBelow(p: Path, q: Path) returns (k: Name)
    requires Above(p, q)
    ensures AtOrAbove(Snoc(p, k), q)
  {
    if p == q.front {
      k := q.last;
    } else {
      k := NextBelow(p, q.front);
    }
  }

  lemma {:induction false} PrefixClosed(t: Tree, p: Path, q: Path)
    requires Shape(t) && q in t && AtOrAbove(p, q)
    ensures p in t
  {
    if p == q {
    } else {
      PrefixClosed(t, p, q.front);
    }
  }

  lemma InteriorInTree(t: Tree, p: Path)
    requires Shape(t) && Interior(t, p)
    ensures p in t
  {
    var k :| Snoc(p, k) in t;
    assert Snoc(p, k).front in t;
  }

  /** A node has children exactly when a leaf lies strictly below it. */
  lemma InteriorIffLeafBelow(t: Tree, p: Path)
    requires Shape(t)
    ensures Interior(t, p) <==> exists q :: q in Leaves(t) && Above(p, q)
  {
    if Interior(t, p) {
      var k :| Snoc(p, k) in t;
      var q := LeafAtOrBelow(t, Snoc(p, k), {});
      AboveTransitive(p, Snoc(p, k), q);
    }
    if exists q :: q in Leaves(t) && Above(p, q) {
      var q :| q in Leaves(t) && Above(p, q);
      var k := NextBelow(p, q);
      PrefixClosed(t, Snoc(p, k), q);
    }
  }

  /** Walking down from a node ends in a leaf; `seen` holds the ancestors walked through. */
  lemma {:induction false} LeafAtOrBelow(t: Tree, p: Path, seen: set<Path>) returns (q: Path)
    requires Shape(t) && p in t && p != Top
    requires seen <= t.Keys && forall s | s in seen :: Above(s, p)
    ensures q in Leaves(t) && AtOrAbove(p, q)
    decreases t.Keys - seen
  {
    q := p;
    if Interior(t, p) {
      var k :| Snoc(p, k) in t;
      assert p !in seen by {
        if p in seen { AboveIsShallower(p, p); }
      }
      q := LeafAtOrBelow(t, Snoc(p, k), seen + {p});
      AboveTransitive(p, Snoc(p, k), q);
    }
  }

  // --- subtrees -------------------------------------------------------------

  /** The paths of `ps` at and below `p`. */
  ghost function Below(ps: set<Path>, p: Path): set<Path> {
    set q | q in ps && AtOrAbove(p, q)
  }

  /** The paths of `ps` at and below the children `ks` of `p`. */
  ghost function Part(ps: set<Path>, p: Path, ks: set<Name>): set<Path> {
    set q | q in ps && exists k :: k in ks && AtOrAbove(Snoc(p, k), q)
  }

  lemma PartGrows(ps: set<Path>, p: Path, ks: set<Name>, k: Name)
    ensures Part(ps, p, {}) == {}
    ensures Part(ps, p, ks + {k}) == Part(ps, p, ks) + Below(ps, Snoc(p, k))
  {
  }

  lemma BelowShrinks(ps: set<Path>, p: Path, k: Name)
    requires p in ps
    ensures Below(ps, Snoc(p, k)) < Below(ps, p)
  {
    forall q | q in Below(ps, Snoc(p, k)) ensures q in Below(ps, p) && q != p {
      AboveTransitive(p, Snoc(p, k), q);
      AboveIsShallower(p, q);
    }
    assert p in Below(ps, p) && p !in Below(ps, Snoc(p, k));
  }

  // --- find_or_insert, set_value, erase ------------------------------------

  /** One step of the insertion walk: `p` is created under its parent unless it is there. */
  ghost function Grow(t: Tree, p: Path): Tree
    requires p.Snoc? && p.front in t
  {
    if p in t then t else Hung(t, p, Cell(NoKind, ""))
  }

  /** The tree with a new node `c` added as a child of its parent. */
  ghost function Hung(t: Tree, p: Path, c: Cell): Tree
    requires p.Snoc? && p.front in t
  {
    t[p.front := Cell(Map, t[p.front].scalar)][p := c]
  }

  /** The tree after walking to `p` and creating the nodes that are missing. */
  ghost function Insert(t: Tree, p: Path): (r: Tree)
    requires Shape(t)
    ensures Shape(r) && p in r
    ensures forall q :: q in r <==> q in t || AtOrAbove(q, p)
  {
    if p.Top? then t else Grow(Insert(t, p.front), p)
  }

  /** The tree after a successful scalar assignment at `p`. */
  ghost function Assign(t: Tree, p: Path, c: Cell): (r: Tree)
    requires Shape(t)
    ensures Shape(r)
  {
    Insert(t, p)[p := c]
  }

  /** The tree after erasing `p` and every ancestor this leaves without children. */
  ghost function Prune(t: Tree, p: Path): (r: Tree)
    requires Shape(t) && p in t && !Interior(t, p)
    ensures Shape(r)
  {
    if p.Top? then t else
    CutShape(t, p);
    var cut := t - {p};
    if Interior(cut, p.front) then cut else Prune(cut, p.front)
  }

  lemma CutShape(t: Tree, p: Path)
    requires Shape(t) && p.Snoc? && p in t && !Interior(t, p)
    ensures Shape(t - {p}) && p.front in t - {p}
  {
    forall q | q in t - {p} && q.Snoc? ensures q.front in t - {p} {
      assert q == Snoc(q.front, q.last);
    }
  }

  /** The leaf map after setting `p`: leaves that were ancestors of `p` turn into inner nodes. */
  ghost function Put(l: Tree, p: Path, c: Cell): Tree {
    if p == Top then l else (map q | q in l && !Above(q, p) :: l[q])[p := c]
  }

  lemma {:induction false} InsertKeepsCells(t: Tree, p: Path, q: Path)
    requires Shape(t) && q in t
    ensures Insert(t, p)[q] == t[q] || (Above(q, p) && Insert(t, p)[q] == Cell(Map, t[q].scalar))
    ensures p in t ==> Insert(t, p) == t
  {
    if p.Top? {
    } else {
      InsertKeepsCells(t, p.front, q);
      if p in t {
        InsertKeepsCells(t, p.front, p.front);
      }
    }
  }

  lemma InteriorAfterInsert(t: Tree, p: Path, q: Path)
    requires Shape(t)
    ensures Interior(Insert(t, p), q) <==> Interior(t, q) || Above(q, p)
    ensures forall c :: Interior(Assign(t, p, c), q) <==> Interior(Insert(t, p), q)
  {
    var r := Insert(t, p);
    if Above(q, p) {
      var k := NextBelow(q, p);
      assert Snoc(q, k) in r;
    }
    if Interior(t, q) {
      var k :| Snoc(q, k) in t;
      assert Snoc(q, k) in r;
    }
    if Interior(r, q) {
      var k :| Snoc(q, k) in r;
      if Snoc(q, k) !in t {
        AboveTransitive(q, Snoc(q, k), p);
      }
    }
    forall c ensures Interior(Assign(t, p, c), q) <==> Interior(r, q) {
      assert Assign(t, p, c).Keys == r.Keys;
    }
  }

  /** set_value refines map update: the ancestors of `p` stop being leaves, `p` maps to the new cell
      and every other leaf is untouched. */
  lemma LeavesOfAssign(t: Tree, p: Path, c: Cell)
    requires Shape(t) && !Interior(t, p)
    ensures Leaves(Assign(t, p, c)) == Put(Leaves(t), p, c)
  {
    var r := Assign(t, p, c);
    forall q ensures q in Leaves(r) <==> q in Put(Leaves(t), p, c) {
      InteriorAfterInsert(t, p, q);
      if Above(p, p) { AboveIsShallower(p, p); }
    }
    forall q | q in Leaves(r) ensures Leaves(r)[q] == Put(Leaves(t), p, c)[q] {
      InteriorAfterInsert(t, p, q);
      if q != p {
        InsertKeepsCells(t, p, q);
      }
    }
  }

  lemma InteriorAfterCut(t: Tree, p: Path, q: Path)
    requires p.Snoc? && p in t
    ensures Interior(t, p.front)
    ensures q != p.front ==> (Interior(t - {p}, q) <==> Interior(t, q))
  {
    assert p == Snoc(p.front, p.last);
    if Interior(t, q) {
      var k :| Snoc(q, k) in t;
      assert q != p.front ==> Snoc(q, k) in t - {p};
    }
  }

  /** erase refines map removal: no emptied ancestor survives as a new leaf. */
  lemma {:induction false} LeavesOfPrune(t: Tree, p: Path)
    requires Shape(t) && p in t && !Interior(t, p)
    ensures Leaves(Prune(t, p)) == Leaves(t) - {p}
  {
    if p.Top? {
    } else {
      var cut := t - {p};
      CutShape(t, p);
      forall q ensures Interior(t, p.front) && (q != p.front ==> (Interior(cut, q) <==> Interior(t, q))) {
        InteriorAfterCut(t, p, q);
      }
      if !Interior(cut, p.front) {
        LeavesOfPrune(cut, p.front);
        assert Leaves(cut) - {p.front} == Leaves(t) - {p};
      }
    }
  }

  /** Erasing never removes the root, nor anything but the leaf and its ancestors. */
  lemma {:induction false} PruneKeeps(t: Tree, p: Path, q: Path)
    requires Shape(t) && p in t && !Interior(t, p)
    ensures Top in Prune(t, p)
    ensures q in t && !AtOrAbove(q, p) ==> q in Prune(t, p) && Prune(t, p)[q] == t[q]
  {
    if p.Top? {
    } else {
      CutShape(t, p);
      if !Interior(t - {p}, p.front) {
        PruneKeeps(t - {p}, p.front, q);
      }
    }
  }
}
