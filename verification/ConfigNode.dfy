/** The heap nodes of the configuration tree.  A `Layout` names the node at every
    path; `Holds` says the child pointers are exactly that layout, and `View` is
    the tree value the nodes stand for. */
module ConfigNode {
  import opened ConfigTree
  import opened ConfigOverlay
  import opened Options

  type Nodes = map<Path, Node>

  /** A tree on the heap: the node at every path, and the set of nodes its operations may touch. */
  datatype Layout = Layout(at: Nodes, repr: set<Node>)

  /** What one node holds. */
  datatype Content = Content(kind: Kind, scalar: string, kids: map<Name, Node>)
  type Snapshot = map<Path, Content>

  datatype FindResult = Found(node: Node) | NotFound(path: Path)
  datatype Outcome = Done | Missing(path: Path) | NonLeaf | BadScalar | ScalarOverwrite | NoHostFile

  /** The path reached from `at` by following the queue `q`. */
  function Along(at: Path, q: seq<Name>): Path
    decreases |q|
  {
    if q == [] then at else Along(Snoc(at, q[0]), q[1..])
  }

  function PathOf(q: seq<Name>): Path {
    Along(Top, q)
  }

  lemma {:induction false} AlongIsBelow(at: Path, q: seq<Name>)
    ensures AtOrAbove(at, Along(at, q))
    decreases |q|
  {
    if q == [] {
    } else {
      AlongIsBelow(Snoc(at, q[0]), q[1..]);
      AboveTransitive(at, Snoc(at, q[0]), Along(at, q));
    }
  }

  lemma MissingBelow(t: Tree, p: Path, q: Path)
    requires Shape(t) && p !in t && AtOrAbove(p, q)
    ensures q !in t
  {
    if q in t { PrefixClosed(t, p, q); }
  }

  /** The node at `p` is stored under its own name in its parent. */
  ghost predicate Placed(t: Nodes, s: Snapshot, p: Path)
    requires p.Snoc? && p in t
  {
    && p.front in t && p.front in s
    && p.last in s[p.front].kids && s[p.front].kids[p.last] == t[p]
    && t[p].name == p.last
  }

  /** The child pointer `k` of the node at `p` belongs to a node of the layout. */
  ghost predicate Leads(t: Nodes, s: Snapshot, p: Path, k: Name) {
    Snoc(p, k) in t
  }

  /** Pointers and layout agree: every node is reached by its path and no other, and is stored under
      its own name. */
  ghost predicate Linked(root: Node, t: Nodes, s: Snapshot) {
    && Top in t && t[Top] == root
    && s.Keys == t.Keys
    && (forall p {:trigger Placed(t, s, p)} | p in t && p.Snoc? :: Placed(t, s, p))
    && (forall p, k {:trigger Leads(t, s, p, k)} | p in t && k in s[p].kids :: Leads(t, s, p, k))
    && (forall p {:trigger t[p].place} | p in t :: t[p].place == p)
  }

  ghost function Snap(t: Layout): Snapshot
    reads t.repr
  {
    map p | p in t.at && t.at[p] in t.repr :: Content(t.at[p].kind, t.at[p].scalar, t.at[p].children)
  }

  ghost function Cells(s: Snapshot): Tree {
    map p | p in s :: Cell(s[p].kind, s[p].scalar)
  }

  ghost predicate Holds(root: Node, t: Layout)
    reads t.repr
  {
    (forall p | p in t.at :: t.at[p] in t.repr) && Linked(root, t.at, Snap(t))
  }

  ghost function View(t: Layout): Tree
    reads t.repr
  {
    Cells(Snap(t))
  }

  /** `t'` keeps every node of `t` in place. */
  ghost predicate Extends(t: Layout, t': Layout) {
    t.at.Keys <= t'.at.Keys && forall p {:trigger t'.at[p]} | p in t.at :: t'.at[p] == t.at[p]
  }

  lemma GrownTwice(t: Layout, t': Layout, t'': Layout)
    requires Extends(t, t') && Extends(t', t'')
    ensures Extends(t, t'')
  {
    forall p | p in t.at ensures t''.at[p] == t.at[p] {
      assert t'.at[p] == t.at[p];
    }
  }

  lemma Between(r: set<Node>, r': set<Node>, r'': set<Node>)
    requires r <= r' <= r''
    ensures r'' - r == (r'' - r') + (r' - r)
  {
  }

  lemma Apart(root: Node, t: Nodes, s: Snapshot, at: Path)
    requires Linked(root, t, s) && at in t
    ensures forall p | p in t && p != at :: t[p] != t[at]
  {
    assert forall p | p in t :: t[p].place == p;
  }

  lemma LinkFacts(root: Node, t: Nodes, s: Snapshot)
    requires Linked(root, t, s)
    ensures Shape(Cells(s))
    ensures forall p, k | p in t :: k in s[p].kids <==> Snoc(p, k) in t
    ensures forall p, k | p in t && k in s[p].kids :: s[p].kids[k] == t[Snoc(p, k)]
    ensures forall p | p in t :: Interior(Cells(s), p) <==> s[p].kids != map[]
  {
    assert forall p | p in t && p.Snoc? :: Placed(t, s, p);
    forall p, k | p in t ensures k in s[p].kids <==> Snoc(p, k) in t {
      assert k in s[p].kids ==> Leads(t, s, p, k);
      assert Snoc(p, k) in t ==> Placed(t, s, Snoc(p, k));
    }
    forall p, k | p in t && k in s[p].kids ensures s[p].kids[k] == t[Snoc(p, k)] {
      assert Leads(t, s, p, k);
      assert Placed(t, s, Snoc(p, k));
    }
    forall p | p in t ensures Interior(Cells(s), p) <==> s[p].kids != map[] {
      if s[p].kids != map[] {
        var k :| k in s[p].kids;
        assert Snoc(p, k) in Cells(s);
      }
      if Interior(Cells(s), p) {
        var k :| Snoc(p, k) in Cells(s);
        assert k in s[p].kids;
      }
    }
  }

  lemma Facts(root: Node, t: Layout)
    requires Holds(root, t)
    ensures Shape(View(t))
    ensures forall p, k | p in t.at :: k in t.at[p].children <==> Snoc(p, k) in t.at
    ensures forall p, k | p in t.at && k in t.at[p].children :: t.at[p].children[k] == t.at[Snoc(p, k)]
    ensures forall p | p in t.at :: Interior(View(t), p) <==> t.at[p].children != map[]
  {
    LinkFacts(root, t.at, Snap(t));
    forall p, k | p in t.at ensures k in t.at[p].children <==> Snoc(p, k) in t.at {
      assert k in Snap(t)[p].kids <==> Snoc(p, k) in t.at;
    }
    forall p, k | p in t.at && k in t.at[p].children ensures t.at[p].children[k] == t.at[Snoc(p, k)] {
      assert k in Snap(t)[p].kids;
    }
    forall p | p in t.at ensures Interior(View(t), p) <==> t.at[p].children != map[] {
      assert Snap(t)[p].kids == t.at[p].children;
    }
  }

  lemma KidsAre(root: Node, t: Layout, p: Path)
    requires Holds(root, t) && p in t.at
    ensures Shape(View(t)) && p in View(t)
    ensures forall k :: Snoc(p, k) in View(t) <==> k in t.at[p].children.Keys
  {
    Facts(root, t);
  }

  /** The facts about one possible child of the node at `p`. */
  lemma ChildFacts(root: Node, t: Layout, p: Path, k: Name)
    requires Holds(root, t) && p in t.at
    ensures k in t.at[p].children <==> Snoc(p, k) in t.at
    ensures k in t.at[p].children ==> t.at[p].children[k] == t.at[Snoc(p, k)] && t.at[Snoc(p, k)].name == k
  {
    var s := Snap(t);
    assert k in s[p].kids ==> Leads(t.at, s, p, k);
    assert Snoc(p, k) in t.at ==> Placed(t.at, s, Snoc(p, k));
  }

  /** The nodes after a fresh, childless node `c` of kind and text `c0` was stored as `k` below `at`. */
  ghost function Hooked(s: Snapshot, at: Path, k: Name, c: Node, parent: Kind, c0: Cell): Snapshot
    requires at in s
  {
    s[at := Content(parent, s[at].scalar, s[at].kids[k := c])][Snoc(at, k) := Content(c0.kind, c0.scalar, map[])]
  }

  /** Adding a fresh, childless node keeps pointers and layout in agreement. */
  lemma Attached(root: Node, t: Nodes, s: Snapshot, at: Path, k: Name, c: Node, parent: Kind, c0: Cell)
    requires Linked(root, t, s) && at in t && Snoc(at, k) !in t
    requires c.place == Snoc(at, k) && c.name == k
    ensures Linked(root, t[Snoc(at, k) := c], Hooked(s, at, k, c, parent, c0))
    ensures Cells(Hooked(s, at, k, c, parent, c0)) == Cells(s)[at := Cell(parent, s[at].scalar)][Snoc(at, k) := c0]
  {
    CellsHooked(s, at, k, c, parent, c0);
    var t', s' := t[Snoc(at, k) := c], Hooked(s, at, k, c, parent, c0);
    forall p | p in t' && p.Snoc? ensures Placed(t', s', p) {
      AttachedAt(root, t, s, at, k, c, parent, c0, p);
    }
    forall p, j | p in t' && j in s'[p].kids ensures Leads(t', s', p, j) {
      AttachedChild(root, t, s, at, k, c, parent, c0, p, j);
    }
  }

  lemma SameCell(t: Tree, p: Path)
    requires p in t
    ensures t[p := t[p]] == t
  {
  }

  lemma CellsHooked(s: Snapshot, at: Path, k: Name, c: Node, parent: Kind, c0: Cell)
    requires at in s
    ensures Cells(Hooked(s, at, k, c, parent, c0)) == Cells(s)[at := Cell(parent, s[at].scalar)][Snoc(at, k) := c0]
  {
  }

  lemma SnapIs(t: Layout, s: Snapshot)
    requires t.at.Keys == s.Keys && forall p | p in t.at :: t.at[p] in t.repr
    requires forall p | p in t.at :: Content(t.at[p].kind, t.at[p].scalar, t.at[p].children) == s[p]
    ensures Snap(t) == s
  {
  }

  lemma AttachedAt(root: Node, t: Nodes, s: Snapshot, at: Path, k: Name, c: Node, parent: Kind, c0: Cell, p: Path)
    requires Linked(root, t, s) && at in t && Snoc(at, k) !in t
    requires c.name == k && p in t[Snoc(at, k) := c] && p.Snoc?
    ensures Placed(t[Snoc(at, k) := c], Hooked(s, at, k, c, parent, c0), p)
  {
    assert p != Snoc(at, k) ==> Placed(t, s, p);
    assert p == Snoc(p.front, p.last);
  }

  lemma AttachedChild(
    root: Node, t: Nodes, s: Snapshot, at: Path, k: Name, c: Node, parent: Kind, c0: Cell, p: Path, j: Name)
    requires Linked(root, t, s) && at in t && Snoc(at, k) !in t
    requires p in Hooked(s, at, k, c, parent, c0) && j in Hooked(s, at, k, c, parent, c0)[p].kids
    ensures Snoc(p, j) in t[Snoc(at, k) := c]
  {
    assert p in t && j in s[p].kids ==> Leads(t, s, p, j);
  }

  /** What set_value makes of the tree: it refuses an inner node without inserting anything; a value
      whose kind cannot be determined is stored all the same, under the old kind. */
  ghost predicate SetOne(conv: Converters, t: Tree, t': Tree, p: Path, s: string, r: Outcome)
    requires Shape(t)
  {
    match r
    case Done => !Interior(t, p) && conv.Classify(s).Some? && t' == Assign(t, p, Cell(conv.Classify(s).value, s))
    case NonLeaf => Interior(t, p) && t' == t
    case BadScalar =>
      !Interior(t, p) && conv.Classify(s).None? && t' == Insert(t, p)[p := Cell(Insert(t, p)[p].kind, s)]
    case _ => false
  }

  /** What erase makes of the tree: a missing path or an inner node is refused without a change. */
  ghost predicate EraseOne(t: Tree, t': Tree, p: Path, r: Outcome)
    requires Shape(t)
  {
    match r
    case Done => p in t && !Interior(t, p) && t' == Prune(t, p)
    case NonLeaf => p in t && Interior(t, p) && t' == t
    case Missing(_) => p !in t && t' == t
    case _ => false
  }

  class Node {
    const name: Name
    ghost const place: Path  // where the node was created; nodes never move
    var kind: Kind
    var scalar: string
    var children: map<Name, Node>

    /** An unread tree: YamlConfigurationNode(). */
    constructor Root()
      ensures place == Top && name == "root" && kind == Unknown && scalar == "" && children == map[]
    {
      name, kind, scalar, children := "root", Unknown, "", map[];
      place := Top;
    }

    constructor Named(n: Name, k: Kind, s: string, ghost at: Path)
      ensures place == at && name == n && kind == k && scalar == s && children == map[]
    {
      name, kind, scalar, children := n, k, s, map[];
      place := at;
    }

    /** Copying a node copies its value, not its children. */
    constructor Copy(n: Node, ghost at: Path)
      ensures place == at && name == n.name && kind == n.kind && scalar == n.scalar && children == map[]
    {
      name, kind, scalar, children := n.name, n.kind, n.scalar, map[];
      place := at;
    }

    method AddChild(p: Name, n: Node)
      modifies this
      ensures kind == Map && children == old(children)[p := n] && scalar == old(scalar)
    {
      kind := Map;
      children := children[p := n];
    }

    /** The scalar is stored before its kind is determined, so a throwing classification leaves the
        new text with the old kind. */
    method SetScalar(conv: Converters, s: string) returns (ok: bool)
      modifies this
      ensures children == old(children) && scalar == s
      ensures ok <==> conv.Classify(s).Some?
      ensures kind == if ok then conv.Classify(s).value else old(kind)
    {
      scalar := s;
      var k := conv.Classify(s);
      ok := k.Some?;
      if ok {
        kind := k.value;
      }
    }

    method Find(path: seq<Name>, ghost t: Layout) returns (r: FindResult)
      requires Holds(this, t)
      ensures r.Found? <==> PathOf(path) in t.at
      ensures r.Found? ==> r.node == t.at[PathOf(path)]
      ensures r.NotFound? ==> r.path !in t.at && AtOrAbove(r.path, PathOf(path)) && r.path.Snoc? && r.path.front in t.at
    {
      assert Shape(View(t)) by { Facts(this, t); }
      var n, q, at := this, path, Top;
      while q != []
        invariant Along(at, q) == PathOf(path)
        invariant at in t.at && n == t.at[at]
      {
        var pel := q[0];
        ChildFacts(this, t, at, pel);
        if pel !in n.children {
          AlongIsBelow(Snoc(at, pel), q[1..]);
          MissingBelow(View(t), Snoc(at, pel), PathOf(path));
          return NotFound(Snoc(at, pel));
        }
        n := n.children[pel];
        q := q[1..];
        at := Snoc(at, pel);
      }
      r := Found(n);
    }

    /** add_child(pel, n) at the node of path `at`, for a new node `n` of kind `k` and text `v`. */
    method Hook(pel: Name, k: Kind, v: string, ghost root: Node, ghost t: Layout, ghost at: Path)
        returns (c: Node, ghost t': Layout)
      requires Holds(root, t) && at in t.at && t.at[at] == this && pel !in children
      modifies this
      ensures Holds(root, t') && Extends(t, t')
      ensures t.repr <= t'.repr && fresh(t'.repr - t.repr)
      ensures Snoc(at, pel) !in t.at && Snoc(at, pel) in t'.at && c == t'.at[Snoc(at, pel)]
      ensures View(t') == Hung(old(View(t)), Snoc(at, pel), Cell(k, v))
    {
      ChildFacts(root, t, at, pel);
      ghost var s := Snap(t);
      Apart(root, t.at, s, at);
      c := new Node.Named(pel, k, v, Snoc(at, pel));
      Attached(root, t.at, s, at, pel, c, Map, Cell(k, v));
      AddChild(pel, c);
      t' := Layout(t.at[Snoc(at, pel) := c], t.repr + {c});
      SnapIs(t', Hooked(s, at, pel, c, Map, Cell(k, v)));
    }

    /** children_[n->name()] = new YamlConfigurationNode(n) at the node of path `at`: unlike add_child
        this leaves the own kind alone. */
    method HookCopy(n: Node, ghost root: Node, ghost t: Layout, ghost at: Path)
        returns (c: Node, ghost t': Layout)
      requires Holds(root, t) && at in t.at && t.at[at] == this && n.name !in children
      modifies this
      ensures Holds(root, t') && Extends(t, t')
      ensures t.repr <= t'.repr && fresh(t'.repr - t.repr)
      ensures Snoc(at, n.name) !in t.at && Snoc(at, n.name) in t'.at && c == t'.at[Snoc(at, n.name)]
      ensures View(t') == old(View(t))[Snoc(at, n.name) := Cell(old(n.kind), old(n.scalar))]
    {
      ChildFacts(root, t, at, n.name);
      ghost var s, c0 := Snap(t), Cell(n.kind, n.scalar);
      Apart(root, t.at, s, at);
      c := new Node.Copy(n, Snoc(at, n.name));
      Attached(root, t.at, s, at, n.name, c, kind, c0);
      SameCell(Cells(s), at);
      children := children[n.name := c];
      t' := Layout(t.at[Snoc(at, n.name) := c], t.repr + {c});
      SnapIs(t', Hooked(s, at, n.name, c, kind, c0));
    }

    /** One step of the insertion walk: the child called `pel`, created if it is missing. */
    method Descend(pel: Name, ghost root: Node, ghost t: Layout, ghost at: Path)
        returns (n: Node, ghost t': Layout)
      requires Holds(root, t) && at in t.at && t.at[at] == this
      modifies this
      ensures Holds(root, t') && Extends(t, t')
      ensures t.repr <= t'.repr && fresh(t'.repr - t.repr)
      ensures Snoc(at, pel) in t'.at && n == t'.at[Snoc(at, pel)]
      ensures View(t') == Grow(old(View(t)), Snoc(at, pel))
    {
      ChildFacts(root, t, at, pel);
      if pel in children {
        t' := t;
        n := children[pel];
      } else {
        n, t' := Hook(pel, NoKind, "", root, t, at);
      }
    }

    method FindOrInsert(path: seq<Name>, ghost t: Layout) returns (n: Node, ghost t': Layout)
      requires Holds(this, t)
      modifies t.repr
      ensures Holds(this, t') && Extends(t, t')
      ensures t.repr <= t'.repr && fresh(t'.repr - t.repr)
      ensures PathOf(path) in t'.at && n == t'.at[PathOf(path)]
      ensures Shape(old(View(t))) && View(t') == Insert(old(View(t)), PathOf(path))
    {
      assert Shape(View(t)) by { Facts(this, t); }
      n, t' := this, t;
      ghost var before, at := View(t), Top;
      var q := path;
      while q != []
        invariant Along(at, q) == PathOf(path)
        invariant Holds(this, t') && Extends(t, t')
        invariant t.repr <= t'.repr && fresh(t'.repr - t.repr)
        invariant at in t'.at && n == t'.at[at]
        invariant View(t') == Insert(before, at)
      {
        ghost var next := Snoc(at, q[0]);
        n, t' := n.Descend(q[0], this, t', at);
        at := next;
        q := q[1..];
      }
    }

    /** set_value(path, t), with the value given as the text to_string makes of it. */
    method SetValue(conv: Converters, path: seq<Name>, s: string, ghost t: Layout)
        returns (r: Outcome, ghost t': Layout)
      requires Holds(this, t)
      modifies t.repr
      ensures Holds(this, t') && Extends(t, t')
      ensures t.repr <= t'.repr && fresh(t'.repr - t.repr)
      ensures Shape(old(View(t))) && SetOne(conv, old(View(t)), View(t'), PathOf(path), s, r)
      ensures r.NonLeaf? ==> t'.at == t.at
    {
      var n: Node;
      ghost var before := View(t);
      assert before.Keys == t.at.Keys;
      n, t' := FindOrInsert(path, t);
      ghost var p, grown := PathOf(path), View(t');
      assert n.children != map[] <==> Interior(before, p) by {
        Facts(this, t');
        InteriorAfterInsert(before, p, p);
        if Above(p, p) { AboveIsShallower(p, p); }
      }
      if n.children != map[] {
        InteriorInTree(before, p);
        InsertKeepsCells(before, p, p);
        assert t'.at.Keys == t.at.Keys by {
          assert before.Keys == View(t').Keys == t'.at.Keys;
        }
        return NonLeaf, t';
      }
      var ok := n.AssignAt(conv, s, this, t', p);
      r := if ok then Done else BadScalar;
    }

    /** set_scalar at the node of path `at`. */
    method AssignAt(conv: Converters, s: string, ghost root: Node, ghost t: Layout, ghost at: Path)
        returns (ok: bool)
      requires Holds(root, t) && at in t.at && t.at[at] == this
      modifies this
      ensures Holds(root, t)
      ensures ok <==> conv.Classify(s).Some?
      ensures View(t) == old(View(t))[at := Cell(if ok then conv.Classify(s).value else old(kind), s)]
    {
      ghost var before := Snap(t);
      Apart(root, t.at, before, at);
      ok := SetScalar(conv, s);
      ghost var c := Content(kind, s, children);
      SnapIs(t, before[at := c]);
      Recelled(root, t.at, before, at, c);
    }

    method Erase(path: seq<Name>, ghost t: Layout) returns (r: Outcome, ghost t': Layout)
      requires Holds(this, t)
      modifies t.repr
      ensures t'.repr == t.repr
      ensures Holds(this, t') && t'.at.Keys <= t.at.Keys && forall p | p in t'.at :: t'.at[p] == t.at[p]
      ensures Shape(old(View(t)))
      ensures EraseOne(old(View(t)), View(t'), PathOf(path), r)
      ensures !r.Done? ==> t' == t
    {
      assert Shape(View(t)) by { Facts(this, t); }
      t' := t;
      var n, q, at, qs: seq<Node> := this, path, Top, [];
      while q != []
        invariant Along(at, q) == PathOf(path)
        invariant at in t.at && n == t.at[at] && Stacked(qs, t.at, at)
        modifies {}
      {
        var pel := q[0];
        ChildFacts(this, t, at, pel);
        if pel !in n.children {
          AlongIsBelow(Snoc(at, pel), q[1..]);
          MissingBelow(View(t), Snoc(at, pel), PathOf(path));
          return Missing(Snoc(at, pel)), t';
        }
        assert (qs + [n])[..|qs|] == qs;
        qs := qs + [n];
        n := n.children[pel];
        q := q[1..];
        at := Snoc(at, pel);
      }
      assert n.children != map[] <==> Interior(View(t), at) by { Facts(this, t); }
      if n.children != map[] {
        return NonLeaf, t';
      }
      t' := PruneUp(n, qs, t, at);
      r := Done;
    }

    /** The upward half of erase: unlink the childless node of path `p`, then every ancestor on the
        stack that this leaves without children. */
    method PruneUp(n: Node, stack: seq<Node>, ghost t: Layout, ghost p: Path) returns (ghost t': Layout)
      requires Holds(this, t) && p in t.at && n == t.at[p] && n.children == map[] && Stacked(stack, t.at, p)
      modifies t.repr
      ensures t'.repr == t.repr
      ensures Holds(this, t') && t'.at.Keys <= t.at.Keys && forall q | q in t'.at :: t'.at[q] == t.at[q]
      ensures Shape(old(View(t))) && !Interior(old(View(t)), p) && View(t') == Prune(old(View(t)), p)
    {
      Facts(this, t);
      ghost var before, at := View(t), p;
      t' := t;
      var child, qs := n, stack;
      while qs != []
        invariant t'.repr == t.repr
        invariant Holds(this, t') && t'.at.Keys <= t.at.Keys && forall q | q in t'.at :: t'.at[q] == t.at[q]
        invariant at in t'.at && child == t'.at[at] && Stacked(qs, t'.at, at)
        invariant Shape(View(t')) && !Interior(View(t'), at)
        invariant Prune(View(t'), at) == Prune(before, p)
        decreases |qs|
      {
        assert child.children == map[] by { Facts(this, t'); }
        ghost var view := View(t');
        var en := qs[|qs| - 1];
        StackedAfterCut(qs[..|qs| - 1], t'.at, at.front, at);
        CutShape(view, at);
        t' := en.Unhook(child, this, t', at);
        assert en.children != map[] <==> Interior(View(t'), at.front) by { Facts(this, t'); }
        if en.children != map[] {
          break;
        }
        child := en;
        qs := qs[..|qs| - 1];
        at := at.front;
      }
    }

    /** children_.erase(child->name()) at the parent of the node of path `p`. */
    method Unhook(child: Node, ghost root: Node, ghost t: Layout, ghost p: Path) returns (ghost t': Layout)
      requires Holds(root, t) && p.Snoc? && p in t.at && t.at[p] == child && child.children == map[]
      requires p.front in t.at && t.at[p.front] == this
      modifies this
      ensures t' == Layout(t.at - {p}, t.repr) && Holds(root, t')
      ensures View(t') == old(View(t)) - {p}
      ensures children == old(children) - {p.last}
    {
      ghost var s := Snap(t);
      Apart(root, t.at, s, p.front);
      assert Placed(t.at, s, p);
      children := children - {child.name};
      t' := Layout(t.at - {p}, t.repr);
      Detached(root, t.at, s, p);
      CellsUnhooked(s, p);
      SnapIs(t', Unhooked(s, p));
    }
  }

  /** Changing a node's own value leaves the pointers alone. */
  lemma Recelled(root: Node, t: Nodes, s: Snapshot, at: Path, c: Content)
    requires Linked(root, t, s) && at in t && c.kids == s[at].kids
    ensures Linked(root, t, s[at := c])
    ensures Cells(s[at := c]) == Cells(s)[at := Cell(c.kind, c.scalar)]
  {
    LinkedAfterUpdate(root, t, s, at, c);
    CellsUpdated(s, at, c);
  }

  lemma LinkedAfterUpdate(root: Node, t: Nodes, s: Snapshot, at: Path, c: Content)
    requires Linked(root, t, s) && at in t && c.kids == s[at].kids
    ensures Linked(root, t, s[at := c])
  {
    var s' := s[at := c];
    assert s'.Keys == s.Keys;
    forall p | p in t && p.Snoc? ensures Placed(t, s', p) {
      PlacedAfterUpdate(root, t, s, at, c, p);
    }
    forall p, k | p in t && k in s'[p].kids ensures Leads(t, s', p, k) {
      assert Leads(t, s, p, k);
    }
  }

  lemma PlacedAfterUpdate(root: Node, t: Nodes, s: Snapshot, at: Path, c: Content, p: Path)
    requires Linked(root, t, s) && at in t && c.kids == s[at].kids && p in t && p.Snoc?
    ensures Placed(t, s[at := c], p)
  {
    assert Placed(t, s, p);
  }

  lemma CellsUpdated(s: Snapshot, at: Path, c: Content)
    requires at in s
    ensures Cells(s[at := c]) == Cells(s)[at := Cell(c.kind, c.scalar)]
  {
  }

  // --- erasing --------------------------------------------------------------

  /** The stack `qs` holds the ancestors of `p`, innermost on top. */
  ghost predicate Stacked(qs: seq<Node>, t: Nodes, p: Path) {
    if p.Top? then qs == []
    else qs != [] && p.front in t && qs[|qs| - 1] == t[p.front] && Stacked(qs[..|qs| - 1], t, p.front)
  }

  lemma {:induction false} StackedAfterCut(qs: seq<Node>, t: Nodes, p: Path, gone: Path)
    requires Stacked(qs, t, p) && AtOrAbove(p, gone)
    ensures Stacked(qs, t - {gone}, p)
    decreases p
  {
    if p.Top? {
    } else {
      AboveTransitive(p.front, p, gone);
      AboveIsShallower(p.front, gone);
      StackedAfterCut(qs[..|qs| - 1], t, p.front, gone);
    }
  }

  ghost function Unhooked(s: Snapshot, p: Path): Snapshot
    requires p.Snoc? && p.front in s
  {
    s[p.front := Content(s[p.front].kind, s[p.front].scalar, s[p.front].kids - {p.last})] - {p}
  }

  lemma CellsUnhooked(s: Snapshot, p: Path)
    requires p.Snoc? && p.front in s
    ensures Cells(Unhooked(s, p)) == Cells(s) - {p}
  {
  }

  /** Unlinking a childless node keeps pointers and layout in agreement. */
  lemma Detached(root: Node, t: Nodes, s: Snapshot, p: Path)
    requires Linked(root, t, s) && p.Snoc? && p in t && s[p].kids == map[] && p.front in t
    ensures Linked(root, t - {p}, Unhooked(s, p))
  {
    forall q | q in t - {p} && q.Snoc? ensures Placed(t - {p}, Unhooked(s, p), q) {
      DetachedAt(root, t, s, p, q);
    }
    forall q, k | q in t - {p} && k in Unhooked(s, p)[q].kids ensures Leads(t - {p}, Unhooked(s, p), q, k) {
      assert Leads(t, s, q, k);
      assert p == Snoc(p.front, p.last);
    }
  }

  lemma DetachedAt(root: Node, t: Nodes, s: Snapshot, p: Path, q: Path)
    requires Linked(root, t, s) && p.Snoc? && p in t && s[p].kids == map[] && p.front in t
    requires q in t && q != p && q.Snoc?
    ensures Placed(t - {p}, Unhooked(s, p), q)
  {
    assert Placed(t, s, q);
    assert q == Snoc(q.front, q.last) && p == Snoc(p.front, p.last);
  }
}
