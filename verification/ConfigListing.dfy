/** Path strings, leaf enumeration and the diff of two trees. */
module ConfigListing {
  import opened ConfigTree
  import opened ConfigNode

  // --- path strings ---------------------------------------------------------

  /** The part of a path string that leads from `at` down to `q`. */
  function Rel(at: Path, q: Path): string {
    if q == at || q.Top? then "" else Rel(at, q.front) + "/" + q.last
  }

  /** The elements still to come from `s`, where `item` has been read of the current one. */
  function Elems(s: string, item: string): seq<Name>
    requires '/' !in item
    decreases |s|
  {
    if s == "" then Item(item)
    else if s[0] == '/' then Item(item) + Elems(s[1..], "")
    else Elems(s[1..], item + [s[0]])
  }

  function Item(item: string): seq<Name>
    requires '/' !in item
  {
    if item == "" then [] else [item]
  }

  /** str_split_to_queue: the non-empty stretches between slashes. */
  method StrSplit(s: string) returns (elems: seq<Name>)
    ensures elems == Elems(s, "")
  {
    elems := [];
    var item, i := "", 0;
    while i < |s|
      invariant 0 <= i <= |s| && '/' !in item
      invariant elems + Elems(s[i..], item) == Elems(s, "")
    {
      assert s[i..][0] == s[i] && s[i..][1..] == s[i + 1..];
      if s[i] == '/' {
        assert elems + (Item(item) + Elems(s[i + 1..], "")) == (elems + Item(item)) + Elems(s[i + 1..], "");
        elems := elems + Item(item);
        item := "";
      } else {
        item := item + [s[i]];
      }
      i := i + 1;
    }
    elems := elems + Item(item);
  }

  lemma {:induction false} OneElement(k: string, item: string)
    requires '/' !in item && '/' !in k
    ensures Elems(k, item) == Item(item + k)
    decreases |k|
  {
    if k == "" {
      assert item + k == item;
    } else {
      OneElement(k[1..], item + [k[0]]);
      assert item + [k[0]] + k[1..] == item + k;
    }
  }

  lemma {:induction false} SplitAppended(s: string, k: Name, item: string)
    requires '/' !in item
    ensures Elems(s + "/" + k, item) == Elems(s, item) + [k]
    decreases |s|
  {
    var t := s + "/" + k;
    if s == "" {
      assert t[1..] == k;
      OneElement(k, "");
      assert "" + k == k;
    } else {
      assert t[0] == s[0] && t[1..] == s[1..] + "/" + k;
      if s[0] == '/' {
        SplitAppended(s[1..], k, "");
        assert Item(item) + (Elems(s[1..], "") + [k]) == Item(item) + Elems(s[1..], "") + [k];
      } else {
        SplitAppended(s[1..], k, item + [s[0]]);
      }
    }
  }

  lemma {:induction false} AlongAppended(at: Path, q: seq<Name>, k: Name)
    ensures Along(at, q + [k]) == Snoc(Along(at, q), k)
    decreases |q|
  {
    if q == [] {
    } else {
      assert (q + [k])[1..] == q[1..] + [k];
      AlongAppended(Snoc(at, q[0]), q[1..], k);
    }
  }

  /** A slash separates: the elements of the two sides follow each other. */
  lemma {:induction false} SplitAtSlash(s: string, s': string, item: string)
    requires '/' !in item
    ensures Elems(s + "/" + s', item) == Elems(s, item) + Elems(s', "")
    decreases |s|
  {
    var t := s + "/" + s';
    if s == "" {
      assert t[0] == '/' && t[1..] == s';
    } else {
      assert t[0] == s[0] && t[1..] == s[1..] + "/" + s';
      if s[0] == '/' {
        SplitAtSlash(s[1..], s', "");
        assert Item(item) + (Elems(s[1..], "") + Elems(s', "")) == Item(item) + Elems(s[1..], "") + Elems(s', "");
      } else {
        SplitAtSlash(s[1..], s', item + [s[0]]);
      }
    }
  }

  /** A string without a slash is its own only element, and the empty one has none. */
  lemma SplitPlain(k: string)
    requires '/' !in k
    ensures Elems(k, "") == if k == "" then [] else [k]
  {
    OneElement(k, "");
    assert "" + k == k;
  }

  /** Splitting a string that ends in the way from `at` to `q` yields that way. */
  lemma {:induction false} SplitOfRel(s: string, at: Path, q: Path)
    requires AtOrAbove(at, q)
    ensures PathOf(Elems(s, "")) == at ==> PathOf(Elems(s + Rel(at, q), "")) == q
  {
    if q == at {
      assert s + Rel(at, q) == s;
    } else {
      SplitOfRel(s, at, q.front);
      assert s + Rel(at, q) == s + Rel(at, q.front) + "/" + q.last;
      SplitAppended(s + Rel(at, q.front), q.last, "");
      AlongAppended(Top, Elems(s + Rel(at, q.front), ""), q.last);
    }
  }

  /** Looking a path string up again leads to the path it was made from, so path strings are unique. */
  lemma SplitOfPathString(p: Path)
    ensures PathOf(Elems(Rel(Top, p), "")) == p
  {
    TopIsAbove(p);
    SplitOfRel("", Top, p);
    assert "" + Rel(Top, p) == Rel(Top, p);
  }

  lemma {:induction false} RelConcat(p: Path, q: Path, r: Path)
    requires AtOrAbove(p, q) && AtOrAbove(q, r)
    ensures Rel(p, r) == Rel(p, q) + Rel(q, r)
  {
    AboveTransitive(p, q, r);
    if q == r {
      assert Rel(p, q) + "" == Rel(p, q);
    } else {
      RelConcat(p, q, r.front);
      if p == r { AboveIsShallower(p, p); }
      assert Rel(p, q) + Rel(q, r.front) + "/" + r.last == Rel(p, q) + (Rel(q, r.front) + "/" + r.last);
    }
  }

  /** The key of leaf `q` when the listing of the tree below `origin` starts with the string `base`. */
  function Key(base: string, origin: Path, q: Path): string {
    base + Rel(origin, q)
  }

  lemma {:induction false} KeysDiffer(base: string, at: Path, p: Path, q: Path)
    requires AtOrAbove(at, p) && AtOrAbove(at, q) && Key(base, at, p) == Key(base, at, q)
    ensures p == q
    decreases p
  {
    assert Rel(at, p) == Key(base, at, p)[|base|..] == Key(base, at, q)[|base|..] == Rel(at, q);
    if p != at && q != at {
      LastSlash(Rel(at, p.front), p.last, Rel(at, q.front), q.last);
      KeysDiffer(base, at, p.front, q.front);
    }
  }

  lemma LastSlash(s: string, k: Name, s': string, k': Name)
    requires s + "/" + k == s' + "/" + k'
    ensures s == s' && k == k'
  {
    var t := s + "/" + k;
    if |k| < |k'| { LongerHasSlash(s, k, s', k'); }
    if |k'| < |k| { LongerHasSlash(s', k', s, k); }
    assert k == t[|s| + 1..] && k' == t[|s'| + 1..] && s == t[..|s|] && s' == t[..|s'|];
  }

  lemma LongerHasSlash(s: string, k: string, s': string, k': string)
    requires s + "/" + k == s' + "/" + k' && |k| < |k'|
    ensures '/' in k'
  {
    assert (s + "/" + k)[|s|] == '/';
    assert (s' + "/" + k')[|s|] == k'[|s| - |s'| - 1];
  }

  // --- enum_leafs -----------------------------------------------------------

  /** `nodes` is `acc` with the leaves `ls` of the tree entered under their keys, and nothing else. */
  ghost predicate Lists(
    nodes: map<string, Node>, acc: map<string, Node>, t: Nodes, ls: set<Path>, base: string, origin: Path)
  {
    && (forall q | q in ls :: q in t && Key(base, origin, q) in nodes && nodes[Key(base, origin, q)] == t[q])
    && (forall s | s in nodes ::
          (s in acc && nodes[s] == acc[s]) || exists q :: q in ls && s == Key(base, origin, q))
    && (forall s | s in acc :: s in nodes)
  }

  lemma ListsTwice(
    n2: map<string, Node>, n1: map<string, Node>, n0: map<string, Node>, t: Nodes,
    l1: set<Path>, l2: set<Path>, base: string, origin: Path)
    requires Lists(n1, n0, t, l1, base, origin) && Lists(n2, n1, t, l2, base, origin)
    requires forall q | q in l1 + l2 :: AtOrAbove(origin, q)
    ensures Lists(n2, n0, t, l1 + l2, base, origin)
  {
    forall q | q in l1 ensures Key(base, origin, q) in n2 && n2[Key(base, origin, q)] == t[q] {
      KeyKept(n2, n1, t, l2, base, origin, q);
    }
    forall s | s in n2
      ensures (s in n0 && n2[s] == n0[s]) || exists q :: q in l1 + l2 && s == Key(base, origin, q)
    {
      if q :| q in l2 && s == Key(base, origin, q) {
        assert q in l1 + l2;
      } else if q :| q in l1 && s == Key(base, origin, q) {
        assert q in l1 + l2;
      }
    }
  }

  lemma KeyKept(
    n2: map<string, Node>, n1: map<string, Node>, t: Nodes, l2: set<Path>, base: string, origin: Path, q: Path)
    requires Lists(n2, n1, t, l2, base, origin) && AtOrAbove(origin, q)
    requires forall p | p in l2 :: AtOrAbove(origin, p)
    requires q in t && Key(base, origin, q) in n1 && n1[Key(base, origin, q)] == t[q]
    ensures Key(base, origin, q) in n2 && n2[Key(base, origin, q)] == t[q]
  {
    if p :| p in l2 && Key(base, origin, q) == Key(base, origin, p) {
      KeysDiffer(base, origin, p, q);
    }
  }

  method EnumLeafs(
      n: Node, nodes: map<string, Node>, prefix: string,
      ghost root: Node, ghost t: Layout, ghost at: Path, ghost base: string, ghost origin: Path)
      returns (all: map<string, Node>)
    requires Holds(root, t) && at in t.at && t.at[at] == n
    requires AtOrAbove(origin, at) && prefix == Key(base, origin, at)
    ensures Lists(all, nodes, t.at, Part(Leaves(View(t)).Keys, at, n.children.Keys), base, origin)
    decreases Below(t.at.Keys, at), 1
  {
    all := nodes;
    ghost var done: set<Name> := {};
    var todo := n.children.Keys;
    assert Part(Leaves(View(t)).Keys, at, {}) == {};
    while todo != {}
      invariant todo + done == n.children.Keys
      invariant Lists(all, nodes, t.at, Part(Leaves(View(t)).Keys, at, done), base, origin)
      decreases todo
    {
      var k :| k in todo;
      todo := todo - {k};
      ghost var before := all;
      all := EnumChild(n, k, all, prefix, root, t, at, base, origin);
      ListedMore(all, before, nodes, t.at, View(t), at, done, k, base, origin);
      done := done + {k};
    }
  }

  /** The loop body: the child `k` of `n` and what is below it. */
  method EnumChild(
      n: Node, k: Name, nodes: map<string, Node>, prefix: string,
      ghost root: Node, ghost t: Layout, ghost at: Path, ghost base: string, ghost origin: Path)
      returns (all: map<string, Node>)
    requires Holds(root, t) && at in t.at && t.at[at] == n && k in n.children
    requires AtOrAbove(origin, at) && prefix == Key(base, origin, at)
    ensures Lists(all, nodes, t.at, Below(Leaves(View(t)).Keys, Snoc(at, k)), base, origin)
    decreases Below(t.at.Keys, at), 0
  {
    var path, c := prefix + "/" + k, n.children[k];
    EnterChild(root, t, at, k, base, origin);
    if c.children != map[] {
      all := EnumLeafs(c, nodes, path, root, t, Snoc(at, k), base, origin);
    } else {
      all := nodes[path := c];
    }
    ListedChild(all, nodes, root, t, Snoc(at, k), base, origin);
  }

  lemma EnterChild(root: Node, t: Layout, at: Path, k: Name, base: string, origin: Path)
    requires Holds(root, t) && at in t.at && k in t.at[at].children && AtOrAbove(origin, at)
    ensures Snoc(at, k) in t.at && t.at[Snoc(at, k)] == t.at[at].children[k]
    ensures Below(t.at.Keys, Snoc(at, k)) < Below(t.at.Keys, at)
    ensures Key(base, origin, Snoc(at, k)) == Key(base, origin, at) + "/" + k
    ensures AtOrAbove(origin, Snoc(at, k))
  {
    ChildFacts(root, t, at, k);
    BelowShrinks(t.at.Keys, at, k);
    ChildKey(base, origin, at, k);
  }

  lemma ListedMore(
    n2: map<string, Node>, n1: map<string, Node>, n0: map<string, Node>, t: Nodes, tree: Tree,
    at: Path, done: set<Name>, k: Name, base: string, origin: Path)
    requires AtOrAbove(origin, at)
    requires Lists(n1, n0, t, Part(Leaves(tree).Keys, at, done), base, origin)
    requires Lists(n2, n1, t, Below(Leaves(tree).Keys, Snoc(at, k)), base, origin)
    ensures Lists(n2, n0, t, Part(Leaves(tree).Keys, at, done + {k}), base, origin)
  {
    LeavesGrow(tree, at, done, k, origin);
    ListsTwice(n2, n1, n0, t, Part(Leaves(tree).Keys, at, done), Below(Leaves(tree).Keys, Snoc(at, k)), base, origin);
  }

  lemma ChildKey(base: string, origin: Path, at: Path, k: Name)
    requires AtOrAbove(origin, at)
    ensures Key(base, origin, Snoc(at, k)) == Key(base, origin, at) + "/" + k
    ensures AtOrAbove(origin, Snoc(at, k))
  {
    AboveTransitive(origin, at, Snoc(at, k));
    AboveIsShallower(origin, Snoc(at, k));
    assert base + (Rel(origin, at) + "/" + k) == base + Rel(origin, at) + "/" + k;
  }

  lemma LeavesGrow(t: Tree, at: Path, done: set<Name>, k: Name, origin: Path)
    requires AtOrAbove(origin, at)
    ensures Part(Leaves(t).Keys, at, done + {k}) == Part(Leaves(t).Keys, at, done) + Below(Leaves(t).Keys, Snoc(at, k))
    ensures forall q | q in Part(Leaves(t).Keys, at, done + {k}) :: AtOrAbove(origin, q)
  {
    forall q | q in Part(Leaves(t).Keys, at, done + {k}) ensures AtOrAbove(origin, q) {
      var j :| j in done + {k} && AtOrAbove(Snoc(at, j), q);
      AboveTransitive(origin, at, Snoc(at, j));
      AboveTransitive(origin, Snoc(at, j), q);
    }
  }

  lemma LeavesBelowNode(t: Tree, p: Path, kids: set<Name>)
    requires Shape(t) && p in t && p != Top && forall k :: Snoc(p, k) in t <==> k in kids
    ensures Below(Leaves(t).Keys, p) == if kids == {} then {p} else Part(Leaves(t).Keys, p, kids)
  {
    forall q | q in Below(Leaves(t).Keys, p) && q != p ensures q in Part(Leaves(t).Keys, p, kids) {
      var k := NextBelow(p, q);
      PrefixClosed(t, Snoc(p, k), q);
    }
    forall q | q in Part(Leaves(t).Keys, p, kids) ensures q in Below(Leaves(t).Keys, p) {
      var k :| k in kids && AtOrAbove(Snoc(p, k), q);
      AboveTransitive(p, Snoc(p, k), q);
    }
    assert p in Leaves(t) <==> kids == {} by {
      if kids != {} { var k :| k in kids; assert Snoc(p, k) in t; }
    }
  }

  /** Both branches of the loop enter exactly the leaves at and below the child. */
  lemma ListedChild(
    all: map<string, Node>, before: map<string, Node>, root: Node, t: Layout, p: Path, base: string, origin: Path)
    requires Holds(root, t) && p in t.at && p != Top
    requires if t.at[p].children == map[] then all == before[Key(base, origin, p) := t.at[p]]
             else Lists(all, before, t.at, Part(Leaves(View(t)).Keys, p, t.at[p].children.Keys), base, origin)
    ensures Lists(all, before, t.at, Below(Leaves(View(t)).Keys, p), base, origin)
  {
    var kids := t.at[p].children.Keys;
    KidsAre(root, t, p);
    LeavesBelowNode(View(t), p, kids);
    if t.at[p].children == map[] {
      ListsOne(all, before, t.at, p, base, origin);
    }
  }

  lemma ListsOne(
    all: map<string, Node>, before: map<string, Node>, t: Nodes, p: Path, base: string, origin: Path)
    requires p in t && all == before[Key(base, origin, p) := t[p]]
    ensures Lists(all, before, t, {p}, base, origin)
  {
    assert p in {p};
  }

  /** The listing of a whole tree: one entry per leaf, under its path string. */
  ghost predicate ListsAll(nodes: map<string, Node>, t: Layout, tree: Tree) {
    && (forall q | q in Leaves(tree) :: q in t.at && Rel(Top, q) in nodes && nodes[Rel(Top, q)] == t.at[q])
    && (forall s | s in nodes :: exists q :: q in Leaves(tree) && s == Rel(Top, q))
  }

  method EnumAll(root: Node, ghost t: Layout) returns (nodes: map<string, Node>)
    requires Holds(root, t)
    ensures ListsAll(nodes, t, View(t))
  {
    nodes := EnumLeafs(root, map[], "", root, t, Top, "", Top);
    KidsAre(root, t, Top);
    AllLeavesUnderTop(View(t), root.children.Keys);
    PlainKeys();
  }

  lemma PlainKeys()
    ensures forall q :: Key("", Top, q) == Rel(Top, q)
  {
    forall q ensures Key("", Top, q) == Rel(Top, q) {
      assert "" + Rel(Top, q) == Rel(Top, q);
    }
  }

  lemma AllLeavesUnderTop(t: Tree, kids: set<Name>)
    requires Shape(t) && forall k :: Snoc(Top, k) in t <==> k in kids
    ensures Part(Leaves(t).Keys, Top, kids) == Leaves(t).Keys
  {
    forall q | q in Leaves(t) ensures q in Part(Leaves(t).Keys, Top, kids) {
      TopIsAbove(q);
      var k := NextBelow(Top, q);
      PrefixClosed(t, Snoc(Top, k), q);
    }
  }

  /** Looking a listed path string up finds the very node listed under it. */
  lemma ListedIsFound(nodes: map<string, Node>, t: Layout, tree: Tree, s: string)
    requires ListsAll(nodes, t, tree) && s in nodes
    ensures PathOf(Elems(s, "")) in t.at && nodes[s] == t.at[PathOf(Elems(s, ""))]
    ensures PathOf(Elems(s, "")) in Leaves(tree)
  {
    var q :| q in Leaves(tree) && s == Rel(Top, q);
    SplitOfPathString(q);
  }

  // --- diff -----------------------------------------------------------------

  /** The paths that are a leaf in only one of the two, or carry different values. */
  ghost function DiffPaths(a: Tree, b: Tree): set<Path> {
    set p | p in a.Keys + b.Keys && !(p in a && p in b && a[p] == b[p])
  }

  predicate NoDuplicates(l: seq<string>) {
    forall i, j | 0 <= i < j < |l| :: l[i] != l[j]
  }

  /** operator!= of two nodes. */
  predicate Differ(x: Node, y: Node)
    reads x, y
  {
    x.name != y.name || x.kind != y.kind || x.scalar != y.scalar
  }

  /** `s` is listed in only one of the two, or its nodes differ. */
  predicate DiffersIn(na: map<string, Node>, nb: map<string, Node>, s: string)
    reads na.Values, nb.Values
  {
    (s in na && (s !in nb || Differ(na[s], nb[s]))) || (s in nb && s !in na)
  }

  /** `s` is the path string of a path on which the leaf maps differ. */
  ghost predicate DiffersAt(a: Tree, b: Tree, s: string) {
    exists p :: p in DiffPaths(a, b) && s == Rel(Top, p)
  }

  /** The two loops of diff over the listings. */
  method DiffKeys(na: map<string, Node>, nb: map<string, Node>) returns (rv: seq<string>)
    ensures NoDuplicates(rv)
    ensures forall s :: s in rv <==> DiffersIn(na, nb, s)
  {
    rv := [];
    var todo := na.Keys;
    while todo != {}
      invariant todo <= na.Keys && NoDuplicates(rv)
      invariant forall s :: s in rv <==> s in na && s !in todo && (s !in nb || Differ(na[s], nb[s]))
    {
      var s :| s in todo;
      todo := todo - {s};
      if s !in nb {
        rv := rv + [s];
      } else if Differ(na[s], nb[s]) {
        rv := rv + [s];
      }
    }
    todo := nb.Keys;
    while todo != {}
      invariant todo <= nb.Keys && NoDuplicates(rv)
      invariant forall s :: s in rv <==>
                  (s in na && (s !in nb || Differ(na[s], nb[s]))) || (s in nb && s !in todo && s !in na)
    {
      var s :| s in todo;
      todo := todo - {s};
      if s !in na {
        rv := rv + [s];
      }
    }
  }

  method Diff(a: Node, b: Node, ghost ta: Layout, ghost tb: Layout) returns (rv: seq<string>)
    requires Holds(a, ta) && Holds(b, tb)
    ensures NoDuplicates(rv)
    ensures forall s :: s in rv <==> DiffersAt(Leaves(View(ta)), Leaves(View(tb)), s)
  {
    var na, nb := EnumBoth(a, b, ta, tb);
    rv := DiffKeys(na, nb);
  }

  method EnumBoth(a: Node, b: Node, ghost ta: Layout, ghost tb: Layout)
      returns (na: map<string, Node>, nb: map<string, Node>)
    requires Holds(a, ta) && Holds(b, tb)
    ensures forall s :: DiffersIn(na, nb, s) <==> DiffersAt(Leaves(View(ta)), Leaves(View(tb)), s)
  {
    na := EnumAll(a, ta);
    nb := EnumAll(b, tb);
    AllDiffKeys(a, b, ta, tb, na, nb);
  }

  lemma AllDiffKeys(a: Node, b: Node, ta: Layout, tb: Layout, na: map<string, Node>, nb: map<string, Node>)
    requires Holds(a, ta) && Holds(b, tb) && ListsAll(na, ta, View(ta)) && ListsAll(nb, tb, View(tb))
    ensures forall s :: DiffersIn(na, nb, s) <==> DiffersAt(Leaves(View(ta)), Leaves(View(tb)), s)
  {
    forall s ensures DiffersIn(na, nb, s) <==> DiffersAt(Leaves(View(ta)), Leaves(View(tb)), s) {
      DiffKey(a, b, ta, tb, na, nb, s);
    }
  }

  lemma PathStringsDiffer(p: Path, q: Path)
    requires Rel(Top, p) == Rel(Top, q)
    ensures p == q
  {
    SplitOfPathString(p);
    SplitOfPathString(q);
  }

  lemma DiffKey(
    a: Node, b: Node, ta: Layout, tb: Layout, na: map<string, Node>, nb: map<string, Node>, s: string)
    requires Holds(a, ta) && Holds(b, tb) && ListsAll(na, ta, View(ta)) && ListsAll(nb, tb, View(tb))
    ensures DiffersIn(na, nb, s) <==> DiffersAt(Leaves(View(ta)), Leaves(View(tb)), s)
  {
    var la, lb := Leaves(View(ta)), Leaves(View(tb));
    if s in na {
      var p :| p in la && s == Rel(Top, p);
      KeyedBy(b, tb, nb, p);
      LeafNode(a, ta, p);
      forall q | q in DiffPaths(la, lb) && s == Rel(Top, q) ensures q == p { PathStringsDiffer(p, q); }
      if s in nb { LeafNode(b, tb, p); }
      assert p in DiffPaths(la, lb) <==> s !in nb || Differ(na[s], nb[s]);
    } else if s in nb {
      var p :| p in lb && s == Rel(Top, p);
      assert p in DiffPaths(la, lb);
    } else {
      assert forall p | p in DiffPaths(la, lb) :: p in la || p in lb;
    }
  }

  lemma KeyedBy(root: Node, t: Layout, nodes: map<string, Node>, p: Path)
    requires Holds(root, t) && ListsAll(nodes, t, View(t))
    ensures Rel(Top, p) in nodes <==> p in Leaves(View(t))
  {
    if Rel(Top, p) in nodes {
      var q :| q in Leaves(View(t)) && Rel(Top, p) == Rel(Top, q);
      PathStringsDiffer(p, q);
    }
  }

  lemma LeafNode(root: Node, t: Layout, p: Path)
    requires Holds(root, t) && p in Leaves(View(t))
    ensures p in t.at && p.Snoc? && t.at[p].name == p.last
    ensures Leaves(View(t))[p] == Cell(t.at[p].kind, t.at[p].scalar)
  {
    assert Placed(t.at, Snap(t), p);
  }

  /** The diff does not depend on which tree comes first, and is empty only for equal leaf maps. */
  lemma DiffIsSymmetricAndExact(a: Tree, b: Tree)
    ensures DiffPaths(a, b) == DiffPaths(b, a)
    ensures DiffPaths(a, b) == {} <==> a == b
  {
    if DiffPaths(a, b) == {} {
      forall p ensures p in a <==> p in b {
        assert p !in DiffPaths(a, b);
      }
      forall p | p in a ensures a[p] == b[p] {
        assert p !in DiffPaths(a, b);
      }
    }
  }

  // --- search ---------------------------------------------------------------

  /** What a search that reaches the node at `p` through the string `tmp` lists: the leaves strictly
      below `p`, each under `tmp` extended by the remaining elements. */
  ghost predicate SearchLists(nodes: map<string, Node>, t: Layout, tree: Tree, p: Path, tmp: string) {
    && (forall q | q in Leaves(tree) && Above(p, q) ::
          q in t.at && Key(tmp, p, q) in nodes && nodes[Key(tmp, p, q)] == t.at[q])
    && (forall s | s in nodes :: exists q :: q in Leaves(tree) && Above(p, q) && s == Key(tmp, p, q))
  }

  /** The part of the iteration strictly below `p`: the leaves there, each under its own path string. */
  ghost predicate ListsPart(nodes: map<string, Node>, t: Layout, tree: Tree, p: Path) {
    && (forall s :: s in nodes <==> IsKeyBelow(tree, p, s))
    && (forall q | q in Leaves(tree) && Above(p, q) :: ListsNode(nodes, t, q))
  }

  ghost predicate ListsNode(nodes: map<string, Node>, t: Layout, q: Path) {
    q in t.at && Rel(Top, q) in nodes && nodes[Rel(Top, q)] == t.at[q]
  }

  /** The path string of some leaf strictly below `p`. */
  ghost predicate IsKeyBelow(tree: Tree, p: Path, s: string) {
    exists q :: q in Leaves(tree) && Above(p, q) && s == Rel(Top, q)
  }

  lemma NoSlashAtEnd(p: Path)
    ensures Rel(Top, p) != "" ==> Rel(Top, p)[|Rel(Top, p)| - 1] != '/'
    ensures Rel(Top, p) == "" <==> p == Top
  {
    if p != Top {
      assert Rel(Top, p) == Rel(Top, p.front) + "/" + p.last;
      assert Rel(Top, p)[|Rel(Top, p)| - 1] == p.last[|p.last| - 1];
    }
  }

  /** A search that gets to `p` through its own path string lists that part of the iteration. */
  lemma PathStringsListPart(nodes: map<string, Node>, t: Layout, tree: Tree, p: Path)
    requires SearchLists(nodes, t, tree, p, Rel(Top, p))
    ensures ListsPart(nodes, t, tree, p)
  {
    forall s ensures s in nodes <==> IsKeyBelow(tree, p, s) {
      PartKey(nodes, t, tree, p, s);
    }
    forall q | q in Leaves(tree) && Above(p, q) ensures ListsNode(nodes, t, q) {
      PartNode(nodes, t, tree, p, q);
    }
  }

  lemma PartNode(nodes: map<string, Node>, t: Layout, tree: Tree, p: Path, q: Path)
    requires SearchLists(nodes, t, tree, p, Rel(Top, p)) && q in Leaves(tree) && Above(p, q)
    ensures ListsNode(nodes, t, q)
  {
    KeyIsPathString(Rel(Top, p), p, q);
  }

  lemma PartKey(nodes: map<string, Node>, t: Layout, tree: Tree, p: Path, s: string)
    requires SearchLists(nodes, t, tree, p, Rel(Top, p))
    ensures s in nodes <==> IsKeyBelow(tree, p, s)
  {
    if s in nodes {
      var q :| q in Leaves(tree) && Above(p, q) && s == Key(Rel(Top, p), p, q);
      KeyIsPathString(Rel(Top, p), p, q);
    }
    if q :| q in Leaves(tree) && Above(p, q) && s == Rel(Top, q) {
      KeyIsPathString(Rel(Top, p), p, q);
    }
  }

  lemma PartOfTop(nodes: map<string, Node>, t: Layout, tree: Tree)
    requires Shape(tree) && ListsPart(nodes, t, tree, Top)
    ensures ListsAll(nodes, t, tree)
  {
    forall q | q in Leaves(tree) ensures Above(Top, q) {
      TopIsAbove(q);
    }
  }

  /** The lookup string of a path string, with or without a slash at its end, is the path string. */
  lemma SlashDropped(path: string, p: Path)
    requires path == Rel(Top, p) || path == Rel(Top, p) + "/"
    ensures WithoutSlash(path) == Rel(Top, p) && PathOf(Elems(Rel(Top, p), "")) == p
  {
    NoSlashAtEnd(p);
    SplitOfPathString(p);
    if path == Rel(Top, p) + "/" {
      assert path[..|path| - 1] == Rel(Top, p);
    }
  }

  /** What a search lists, read off its argument. */
  lemma SearchedParts(path: string, root: Node, t: Layout, nodes: map<string, Node>)
    requires Holds(root, t)
    requires var tmp := WithoutSlash(path);
             var p := PathOf(Elems(tmp, ""));
             if p in t.at then SearchLists(nodes, t, View(t), p, tmp) else nodes == map[]
    ensures forall p | p in t.at && (path == Rel(Top, p) || path == Rel(Top, p) + "/") ::
              ListsPart(nodes, t, View(t), p)
    ensures path in {"", "/"} ==> ListsAll(nodes, t, View(t))
  {
    forall p | p in t.at && (path == Rel(Top, p) || path == Rel(Top, p) + "/")
      ensures ListsPart(nodes, t, View(t), p)
    {
      SlashDropped(path, p);
      PathStringsListPart(nodes, t, View(t), p);
    }
    if path in {"", "/"} {
      NoSlashAtEnd(Top);
      assert "" + "/" == "/";
      assert Top in t.at && ListsPart(nodes, t, View(t), Top);
      Facts(root, t);
      PartOfTop(nodes, t, View(t));
    }
  }

  /** search(path): one trailing slash is dropped, the rest is looked up. */
  method Search(path: string, root: Node, ghost t: Layout) returns (nodes: map<string, Node>)
    requires Holds(root, t)
    ensures var tmp := WithoutSlash(path);
            var p := PathOf(Elems(tmp, ""));
            if p in t.at then SearchLists(nodes, t, View(t), p, tmp) else nodes == map[]
    ensures forall p | p in t.at && (path == Rel(Top, p) || path == Rel(Top, p) + "/") ::
              ListsPart(nodes, t, View(t), p)
    ensures path in {"", "/"} ==> ListsAll(nodes, t, View(t))
  {
    nodes := LookUp(path, root, t);
    SearchedParts(path, root, t, nodes);
  }

  method LookUp(path: string, root: Node, ghost t: Layout) returns (nodes: map<string, Node>)
    requires Holds(root, t)
    ensures Holds(root, t)
    ensures var tmp := WithoutSlash(path);
            var p := PathOf(Elems(tmp, ""));
            if p in t.at then SearchLists(nodes, t, View(t), p, tmp) else nodes == map[]
  {
    var tmp := path;
    if |tmp| > 0 && tmp[|tmp| - 1] == '/' {
      tmp := tmp[..|tmp| - 1];
    }
    var q := StrSplit(tmp);
    var r := root.Find(q, t);
    nodes := map[];
    if r.Found? {
      nodes := ListBelow(r.node, root, t, PathOf(q), tmp);
    }
  }

  method ListBelow(n: Node, root: Node, ghost t: Layout, ghost p: Path, tmp: string) returns (nodes: map<string, Node>)
    requires Holds(root, t) && p in t.at && t.at[p] == n
    ensures SearchLists(nodes, t, View(t), p, tmp)
  {
    assert Key(tmp, p, p) == tmp;
    nodes := EnumLeafs(n, map[], tmp, root, t, p, tmp, p);
    KidsAre(root, t, p);
    StrictlyBelow(View(t), p, n.children.Keys);
  }

  function WithoutSlash(path: string): string {
    if |path| > 0 && path[|path| - 1] == '/' then path[..|path| - 1] else path
  }

  lemma StrictlyBelow(t: Tree, p: Path, kids: set<Name>)
    requires Shape(t) && forall k :: Snoc(p, k) in t <==> k in kids
    ensures forall q :: q in Part(Leaves(t).Keys, p, kids) <==> q in Leaves(t) && Above(p, q)
  {
    forall q ensures q in Part(Leaves(t).Keys, p, kids) <==> q in Leaves(t) && Above(p, q) {
      if q in Leaves(t) && Above(p, q) {
        var k := NextBelow(p, q);
        PrefixClosed(t, Snoc(p, k), q);
      }
      if q in Part(Leaves(t).Keys, p, kids) {
        var k :| k in kids && AtOrAbove(Snoc(p, k), q);
        AboveTransitive(p, Snoc(p, k), q);
      }
    }
  }

  /** A search string in canonical form gives exactly the part of the full iteration below it; any
      other string gives only keys the iteration does not have. */
  lemma SearchIsRestriction(
    found: map<string, Node>, all: map<string, Node>, t: Layout, tree: Tree, p: Path, tmp: string)
    requires ListsAll(all, t, tree) && SearchLists(found, t, tree, p, tmp) && p == PathOf(Elems(tmp, ""))
    ensures tmp == Rel(Top, p) ==>
              forall s :: s in found <==> s in all && exists q :: q in Leaves(tree) && Above(p, q) && s == Rel(Top, q)
    ensures tmp == Rel(Top, p) ==> forall s | s in found :: s in all && found[s] == all[s]
    ensures tmp != Rel(Top, p) ==> found.Keys !! all.Keys
  {
    forall q | Above(p, q) ensures Key(tmp, p, q) == Rel(Top, q) <==> tmp == Rel(Top, p) {
      KeyIsPathString(tmp, p, q);
    }
    if tmp == Rel(Top, p) {
      forall s | s in found ensures s in all && found[s] == all[s] {
        var q :| q in Leaves(tree) && Above(p, q) && s == Key(tmp, p, q);
      }
    } else {
      forall s | s in found ensures s !in all {
        var q :| q in Leaves(tree) && Above(p, q) && s == Key(tmp, p, q);
        if s in all {
          var r :| r in Leaves(tree) && s == Rel(Top, r);
          SplitOfPathString(r);
          SplitOfRel(tmp, p, q);
        }
      }
    }
  }

  /** search("") is the full iteration. */
  lemma EmptySearchIsIteration(found: map<string, Node>, all: map<string, Node>, t: Layout, tree: Tree)
    requires ListsAll(all, t, tree) && SearchLists(found, t, tree, Top, "")
    ensures found == all
  {
    forall s ensures Agree(found, all, s) {
      EmptySearchKey(found, all, t, tree, s);
    }
    SameListing(found, all);
  }

  ghost predicate Agree(a: map<string, Node>, b: map<string, Node>, s: string) {
    if s in a then s in b && a[s] == b[s] else s !in b
  }

  lemma SameListing(a: map<string, Node>, b: map<string, Node>)
    requires forall s :: Agree(a, b, s)
    ensures a == b
  {
    forall s ensures s in a <==> s in b {
      assert Agree(a, b, s);
    }
    forall s | s in a ensures a[s] == b[s] {
      assert Agree(a, b, s);
    }
  }

  lemma EmptySearchKey(found: map<string, Node>, all: map<string, Node>, t: Layout, tree: Tree, s: string)
    requires ListsAll(all, t, tree) && SearchLists(found, t, tree, Top, "")
    ensures Agree(found, all, s)
  {
    PlainKeys();
    if s in all {
      var q :| q in Leaves(tree) && s == Rel(Top, q);
      TopIsAbove(q);
      assert Key("", Top, q) == s;
    }
    if s in found {
      var q :| q in Leaves(tree) && Above(Top, q) && s == Key("", Top, q);
      assert s == Rel(Top, q);
    }
  }

  lemma KeyIsPathString(tmp: string, p: Path, q: Path)
    requires AtOrAbove(p, q)
    ensures Key(tmp, p, q) == Rel(Top, q) <==> tmp == Rel(Top, p)
  {
    TopIsAbove(p);
    RelConcat(Top, p, q);
    SameSuffix(tmp, Rel(Top, p), Rel(p, q));
  }

  lemma SameSuffix(s: string, s': string, t: string)
    ensures s + t == s' + t <==> s == s'
  {
    if s + t == s' + t {
      assert s == (s + t)[..|s + t| - |t|] == (s' + t)[..|s' + t| - |t|] == s';
    }
  }
}
