/** What `build_full_dependency_graph` guarantees about the graph it returns,
    proved about `FullGraph`: how node ids are formed, which entries become
    nodes and with which type, the containment tree, and the import edges
    into shared dependency nodes. */
module GraphProperties {
  import opened Text
  import opened FsTree
  import opened ImportExtraction
  import opened DependencyGraph

  // ---------------------------------------------------------------------------
  // The entries the walk visits, in tree terms.

  /** An entry the walk gives a node: every file, and every directory that is not pruned. */
  predicate Listed(e: Entry) {
    e.File? || !Pruned(e.name)
  }

  /** A directory the walk descends into. */
  predicate Descends(e: Entry) {
    e.Dir? && !Pruned(e.name)
  }

  /** The entries visited by the walk of the directory with id `p` and entries `ch`. */
  function TreeVisits(p: string, ch: seq<Entry>): seq<Visit> {
    Visits(Walk(p, ch))
  }

  /** `v` is visited by the walk of one of the subdirectories of `ch` the walk descends into. */
  ghost predicate Below(p: string, ch: seq<Entry>, v: Visit) {
    exists i :: 0 <= i < |ch| && Descends(ch[i]) && v in TreeVisits(ChildId(p, ch[i].name), ch[i].children)
  }

  lemma {:induction false} VisitsAppend(a: seq<WalkStep>, b: seq<WalkStep>)
    ensures Visits(a + b) == Visits(a) + Visits(b)
    decreases |b|
  {
    if b == [] {
      assert a + b == a;
    } else {
      var n := |b| - 1;
      assert (a + b)[..|a + b| - 1] == a + b[..n];
      assert (a + b)[|a + b| - 1] == b[n];
      VisitsAppend(a, b[..n]);
    }
  }

  lemma InVisitsOf(p: string, es: seq<Entry>, v: Visit)
    ensures v in VisitsOf(p, es) <==> v.parentId == p && v.entry in es
  {
    if v.parentId == p && v.entry in es {
      var k :| 0 <= k < |es| && es[k] == v.entry;
      assert VisitsOf(p, es)[k] == v;
    }
  }

  lemma BelowSnoc(p: string, ch: seq<Entry>, v: Visit)
    requires ch != []
    ensures Below(p, ch, v) <==>
      (Below(p, ch[..|ch| - 1], v) ||
       (Descends(ch[|ch| - 1]) && v in TreeVisits(ChildId(p, ch[|ch| - 1].name), ch[|ch| - 1].children)))
  {
    var n := |ch| - 1;
    if Below(p, ch[..n], v) {
      var i :| 0 <= i < n && Descends(ch[..n][i]) && v in TreeVisits(ChildId(p, ch[..n][i].name), ch[..n][i].children);
      assert ch[..n][i] == ch[i];
    }
    if Below(p, ch, v) {
      var i :| 0 <= i < |ch| && Descends(ch[i]) && v in TreeVisits(ChildId(p, ch[i].name), ch[i].children);
      if i < n {
        assert ch[..n][i] == ch[i];
      }
    }
  }

  lemma {:induction false} SubWalkVisits(p: string, ch: seq<Entry>, v: Visit)
    ensures v in Visits(SubWalks(p, ch)) <==> Below(p, ch, v)
  {
    if ch != [] {
      var n := |ch| - 1;
      var last := ch[n];
      var rest := if Descends(last) then Walk(ChildId(p, last.name), last.children) else [];
      assert SubWalks(p, ch) == SubWalks(p, ch[..n]) + rest;
      VisitsAppend(SubWalks(p, ch[..n]), rest);
      SubWalkVisits(p, ch[..n], v);
      BelowSnoc(p, ch, v);
    }
  }

  /** A visit of the walk is either an entry of the walked directory itself or a visit of a subdirectory's walk. */
  lemma WalkVisits(p: string, ch: seq<Entry>, v: Visit)
    ensures v in TreeVisits(p, ch) <==>
      (v.parentId == p && v.entry in ch && Listed(v.entry)) || Below(p, ch, v)
  {
    var top := WalkStep(p, KeptDirs(ch), FilesOf(ch));
    assert Walk(p, ch) == [top] + SubWalks(p, ch);
    VisitsAppend([top], SubWalks(p, ch));
    assert [top][..0] == [];
    assert Visits([top]) == StepVisits(top);
    InVisitsOf(p, KeptDirs(ch), v);
    InVisitsOf(p, FilesOf(ch), v);
    SubWalkVisits(p, ch, v);
  }

  // ---------------------------------------------------------------------------
  // Ids in a real directory tree.

  /** The walked directory's id has no backslash and its entries form a real directory tree. */
  predicate Sound(p: string, ch: seq<Entry>) {
    '\\' !in p && DistinctNames(ch) && forall i :: 0 <= i < |ch| ==> WellFormed(ch[i])
  }

  /** Joining a real name to a backslash-free id needs no normalisation. */
  lemma ChildIdJoin(p: string, n: string)
    requires '\\' !in p && ValidName(n)
    ensures ChildId(p, n) == p + "/" + n
    ensures '\\' !in ChildId(p, n)
  {
    assert forall k :: 0 <= k < |p + "/" + n| ==> (p + "/" + n)[k] != '\\' by {
      forall k | 0 <= k < |p + "/" + n| ensures (p + "/" + n)[k] != '\\' {
        if k < |p| { assert (p + "/" + n)[k] == p[k]; }
        else if k > |p| { assert (p + "/" + n)[k] == n[k - |p| - 1]; }
      }
    }
    NormalizeIdentity(p + "/" + n);
  }

  lemma SoundChild(p: string, ch: seq<Entry>, i: nat)
    requires Sound(p, ch) && i < |ch| && ch[i].Dir?
    ensures Sound(ChildId(p, ch[i].name), ch[i].children)
  {
    ChildIdJoin(p, ch[i].name);
  }

  lemma SoundRoot(root: Entry)
    requires root.Dir? && WellFormed(root)
    ensures Sound(root.name, root.children)
  {
  }

  lemma PrefixOfPrefix(s: string, a: string, b: string)
    requires StartsWith(s, a + b)
    ensures StartsWith(s, a)
  {
    assert s[..|a|] == (a + b)[..|a|];
  }

  /** What holds of every visit of a real tree: the entry is listed and real, the id is
      the parent's id, a slash and the entry's name, and it lies below the walked directory. */
  lemma VisitFacts(p: string, ch: seq<Entry>)
    requires Sound(p, ch)
    ensures forall v :: v in TreeVisits(p, ch) ==>
      Listed(v.entry) && WellFormed(v.entry) && '\\' !in v.parentId &&
      v.Id() == v.parentId + "/" + v.entry.name && StartsWith(v.Id(), p + "/")
  {
    forall v | v in TreeVisits(p, ch)
      ensures Listed(v.entry) && WellFormed(v.entry) && '\\' !in v.parentId
      ensures v.Id() == v.parentId + "/" + v.entry.name && StartsWith(v.Id(), p + "/")
    {
      VisitFact(p, ch, v);
    }
  }

  lemma {:induction false} VisitFact(p: string, ch: seq<Entry>, v: Visit)
    requires Sound(p, ch) && v in TreeVisits(p, ch)
    ensures Listed(v.entry) && WellFormed(v.entry) && '\\' !in v.parentId
    ensures v.Id() == v.parentId + "/" + v.entry.name && StartsWith(v.Id(), p + "/")
    decreases ch
  {
    WalkVisits(p, ch, v);
    if v.parentId == p && v.entry in ch && Listed(v.entry) {
      ChildIdJoin(p, v.entry.name);
    } else {
      var i :| 0 <= i < |ch| && Descends(ch[i]) && v in TreeVisits(ChildId(p, ch[i].name), ch[i].children);
      SoundChild(p, ch, i);
      VisitFact(ChildId(p, ch[i].name), ch[i].children, v);
      ChildIdJoin(p, ch[i].name);
      SlashRegroup(p, ch[i].name);
      PrefixOfPrefix(v.Id(), p + "/", ch[i].name + "/");
    }
  }

  lemma SlashRegroup(a: string, b: string)
    ensures a + "/" + b + "/" == (a + "/") + (b + "/")
  {
  }

  lemma DropJoin(a: string, b: string)
    ensures (a + "/" + b)[|a| + 1..] == b
  {
  }

  lemma JoinAssoc(a: string, b: string, c: string)
    ensures a + "/" + b + "/" + c == a + "/" + (b + "/" + c)
  {
  }

  /** The name of the entry of the directory `p` that an id below `p` passes through. */
  function Owner(k: string, p: string): string
    requires StartsWith(k, p + "/")
  {
    Head(k[|p| + 1..], '/')
  }

  /** The id of `v` passes through `ch[i]`: it is the id of `ch[i]` itself when no longer
      than that, and otherwise `v` lies in the walk of `ch[i]`. */
  ghost predicate PlacedAt(p: string, ch: seq<Entry>, v: Visit, i: int) {
    0 <= i < |ch| && StartsWith(v.Id(), p + "/") && ch[i].name == Owner(v.Id(), p) &&
    if |v.Id()| == |p| + 1 + |ch[i].name| then v == Visit(p, ch[i])
    else Descends(ch[i]) && v in TreeVisits(ChildId(p, ch[i].name), ch[i].children)
  }

  /** Every visit's id passes through one entry of the walked directory. */
  lemma Placement(p: string, ch: seq<Entry>, v: Visit)
    requires Sound(p, ch) && v in TreeVisits(p, ch)
    ensures exists i :: PlacedAt(p, ch, v, i)
  {
    WalkVisits(p, ch, v);
    if v.parentId == p && v.entry in ch && Listed(v.entry) {
      var i :| 0 <= i < |ch| && ch[i] == v.entry;
      PlacedAtTop(p, ch, v, i);
    } else {
      var i :| 0 <= i < |ch| && Descends(ch[i]) && v in TreeVisits(ChildId(p, ch[i].name), ch[i].children);
      PlacedAtBelow(p, ch, v, i);
    }
  }

  lemma PlacedAtTop(p: string, ch: seq<Entry>, v: Visit, i: nat)
    requires Sound(p, ch) && i < |ch| && v == Visit(p, ch[i])
    ensures PlacedAt(p, ch, v, i)
  {
    var k := v.Id();
    ChildIdJoin(p, ch[i].name);
    assert k == p + "/" + ch[i].name;
    assert k[|p| + 1..] == ch[i].name;
    HeadOf(ch[i].name, '/', "");
  }

  lemma PlacedAtBelow(p: string, ch: seq<Entry>, v: Visit, i: nat)
    requires Sound(p, ch) && i < |ch| && Descends(ch[i])
    requires v in TreeVisits(ChildId(p, ch[i].name), ch[i].children)
    ensures PlacedAt(p, ch, v, i)
  {
    var k := v.Id();
    var q := ChildId(p, ch[i].name);
    SoundChild(p, ch, i);
    VisitFacts(q, ch[i].children);
    ChildIdJoin(p, ch[i].name);
    assert StartsWith(k, q + "/");
    var rest := k[|q| + 1..];
    assert k == q + "/" + rest;
    JoinAssoc(p, ch[i].name, rest);
    DropJoin(p, ch[i].name + "/" + rest);
    HeadOf(ch[i].name, '/', rest);
    assert StartsWith(k, p + "/");
  }

  /** In a real tree, no two visits share an id. */
  lemma {:induction false} VisitsInjective(p: string, ch: seq<Entry>, v1: Visit, v2: Visit)
    requires Sound(p, ch) && v1 in TreeVisits(p, ch) && v2 in TreeVisits(p, ch)
    requires v1.Id() == v2.Id()
    ensures v1 == v2
    decreases ch
  {
    Placement(p, ch, v1);
    Placement(p, ch, v2);
    var i1 :| PlacedAt(p, ch, v1, i1);
    var i2 :| PlacedAt(p, ch, v2, i2);
    var o := ch[i1].name;
    assert i1 == i2;
    if |v1.Id()| != |p| + 1 + |o| {
      SoundChild(p, ch, i1);
      VisitsInjective(ChildId(p, ch[i1].name), ch[i1].children, v1, v2);
    }
  }

  /** The first segment of a path is unchanged by appending further segments. */
  lemma {:induction false} HeadOfJoin(x: string, sep: char, y: string)
    ensures Head(x + [sep] + y, sep) == Head(x, sep)
  {
    if x != [] && x[0] != sep {
      assert (x + [sep] + y)[1..] == x[1..] + [sep] + y;
      HeadOfJoin(x[1..], sep, y);
    }
  }

  /** Within one directory, a name denotes one entry. */
  lemma SameNameSameEntryIf(ch: seq<Entry>, a: Entry, b: Entry)
    requires DistinctNames(ch)
    ensures a in ch && b in ch && a.name == b.name ==> a == b
  {
    if a in ch && b in ch && a.name == b.name {
      var i :| 0 <= i < |ch| && ch[i] == a;
      var j :| 0 <= j < |ch| && ch[j] == b;
      assert i == j;
    }
  }

  /** A visit whose id is the walked directory's id, a slash and a name is an entry of that directory. */
  lemma IdOfTopEntry(p: string, ch: seq<Entry>, v: Visit, n: string)
    requires Sound(p, ch) && v in TreeVisits(p, ch) && '/' !in n
    ensures v.Id() == p + "/" + n ==> v.parentId == p && v.entry in ch
  {
    Placement(p, ch, v);
    var i :| PlacedAt(p, ch, v, i);
    DropJoin(p, n);
    HeadOf(n, '/', "");
  }

  /** A visit whose id is a visited directory's id, a slash and a name is listed by that directory. */
  lemma {:induction false} IdOfChildEntry(p: string, ch: seq<Entry>, v: Visit, w: Visit, n: string)
    requires Sound(p, ch) && v in TreeVisits(p, ch) && w in TreeVisits(p, ch) && Descends(w.entry) && '/' !in n
    ensures v.Id() == w.Id() + "/" + n ==> v.parentId == w.Id() && v.entry in w.entry.children
    decreases ch
  {
    if v.Id() == w.Id() + "/" + n {
      Placement(p, ch, v);
      Placement(p, ch, w);
      var iv :| PlacedAt(p, ch, v, iv);
      var iw :| PlacedAt(p, ch, w, iw);
      OwnerOfChild(p, w.Id(), n);
      assert iv == iw;
      IdOfChildEntryAt(p, ch, v, w, n, iv);
    }
  }

  /** A name appended to an id below `p` does not change the entry of `p` it passes through. */
  lemma OwnerOfChild(p: string, k: string, n: string)
    requires StartsWith(k, p + "/")
    ensures StartsWith(k + "/" + n, p + "/")
    ensures Owner(k + "/" + n, p) == Owner(k, p)
  {
    var x := k[|p| + 1..];
    assert k == p + "/" + x;
    JoinAssoc(p, x, n);
    DropJoin(p, x + "/" + n);
    HeadOfJoin(x, '/', n);
  }

  lemma {:induction false} IdOfChildEntryAt(p: string, ch: seq<Entry>, v: Visit, w: Visit, n: string, i: int)
    requires Sound(p, ch) && Descends(w.entry) && '/' !in n
    requires PlacedAt(p, ch, v, i) && PlacedAt(p, ch, w, i)
    requires v.Id() == w.Id() + "/" + n
    ensures v.parentId == w.Id() && v.entry in w.entry.children
    decreases ch, 0
  {
    var q := ChildId(p, ch[i].name);
    SoundChild(p, ch, i);
    VisitFacts(q, ch[i].children);
    ChildIdJoin(p, ch[i].name);
    if |w.Id()| == |p| + 1 + |ch[i].name| {
      assert w == Visit(p, ch[i]);
      IdOfTopEntry(q, ch[i].children, v, n);
    } else {
      IdOfChildEntry(q, ch[i].children, v, w, n);
    }
  }

  /** Every visit is listed by the walked directory or by a directory the walk itself visited and descended into. */
  lemma {:induction false} ParentVisited(p: string, ch: seq<Entry>, v: Visit)
    requires v in TreeVisits(p, ch)
    ensures v.parentId == p || exists w :: w in TreeVisits(p, ch) && Descends(w.entry) && w.Id() == v.parentId
    decreases ch
  {
    WalkVisits(p, ch, v);
    if !(v.parentId == p && v.entry in ch && Listed(v.entry)) {
      var i :| 0 <= i < |ch| && Descends(ch[i]) && v in TreeVisits(ChildId(p, ch[i].name), ch[i].children);
      var q := ChildId(p, ch[i].name);
      ParentVisited(q, ch[i].children, v);
      if v.parentId == q {
        var w := Visit(p, ch[i]);
        WalkVisits(p, ch, w);
      } else {
        var w :| w in TreeVisits(q, ch[i].children) && Descends(w.entry) && w.Id() == v.parentId;
        WalkVisits(p, ch, w);
      }
    }
  }

  /** The walk of a directory the walk visits is part of the whole walk. */
  lemma {:induction false} SubtreeVisited(p: string, ch: seq<Entry>, w: Visit, x: Visit)
    requires w in TreeVisits(p, ch) && Descends(w.entry)
    requires x in TreeVisits(w.Id(), w.entry.children)
    ensures x in TreeVisits(p, ch)
    decreases ch
  {
    WalkVisits(p, ch, w);
    WalkVisits(p, ch, x);
    if w.parentId == p && w.entry in ch && Listed(w.entry) {
      var i :| 0 <= i < |ch| && ch[i] == w.entry;
      assert Below(p, ch, x);
    } else {
      var i :| 0 <= i < |ch| && Descends(ch[i]) && w in TreeVisits(ChildId(p, ch[i].name), ch[i].children);
      SubtreeVisited(ChildId(p, ch[i].name), ch[i].children, w, x);
    }
  }

  // ---------------------------------------------------------------------------
  // The folds the graph is built from.

  lemma {:induction false} NodesFoldKeys(vs: seq<Visit>, k: string)
    ensures k in NodesFold(vs) <==> exists v :: v in vs && v.Id() == k
  {
    if vs != [] {
      var n := |vs| - 1;
      NodesFoldKeys(vs[..n], k);
      if k in NodesFold(vs[..n]) {
        var v :| v in vs[..n] && v.Id() == k;
        assert v in vs;
      }
      if exists v :: v in vs && v.Id() == k {
        var v :| v in vs && v.Id() == k;
        if v != vs[n] {
          var j :| 0 <= j < |vs| && vs[j] == v;
          assert vs[..n][j] == v;
        }
      }
    }
  }

  /** A visit whose id no other visit shares keeps the type of its own entry. */
  lemma {:induction false} NodesFoldValue(vs: seq<Visit>, v: Visit)
    requires v in vs
    requires forall w :: w in vs && w.Id() == v.Id() ==> w == v
    ensures v.Id() in NodesFold(vs) && NodesFold(vs)[v.Id()] == KindOf(v.entry)
  {
    var n := |vs| - 1;
    if vs[n] != v {
      var j :| 0 <= j < |vs| && vs[j] == v;
      assert vs[..n][j] == v;
      assert forall w :: w in vs[..n] ==> w in vs;
      NodesFoldValue(vs[..n], v);
    }
  }

  /** What the union over the visits holds. */
  lemma {:induction false} InGather<T>(vs: seq<Visit>, f: Visit -> set<T>, x: T)
    ensures x in Gather(vs, f) <==> exists v :: v in vs && x in f(v)
  {
    if vs != [] {
      var n := |vs| - 1;
      InGather(vs[..n], f, x);
      if exists v :: v in vs && x in f(v) {
        var v :| v in vs && x in f(v);
        if v != vs[n] {
          var j :| 0 <= j < |vs| && vs[j] == v;
          assert vs[..n][j] == v;
        }
      }
      assert forall w :: w in vs[..n] ==> w in vs;
    }
  }

  lemma InContainment(vs: seq<Visit>, e: (string, string))
    ensures e in Containment(vs) <==> exists v :: v in vs && e == (v.parentId, v.Id())
  {
    InGather(vs, ContainmentEdge, e);
  }

  lemma InImportEdges(vs: seq<Visit>, e: (string, string))
    ensures e in ImportEdges(vs) <==> exists v :: v in vs && e.0 == v.Id() && e.1 in ImportedNames(v)
  {
    InGather(vs, ImportEdgesOf, e);
  }

  lemma InDepNames(vs: seq<Visit>, d: string)
    ensures d in DepNames(vs) <==> exists v :: v in vs && d in ImportedNames(v)
  {
    InGather(vs, ImportedNames, d);
  }

  // ---------------------------------------------------------------------------
  // The graph built from a project root.

  /** No visit's id is the root's own id. */
  lemma RootIdUnique(root: Entry, v: Visit)
    requires root.Dir? && WellFormed(root) && v in RootVisits(root)
    ensures v.Id() != root.name && '/' in v.Id()
  {
    SoundRoot(root);
    VisitFact(root.name, root.children, v);
    BelowIsLonger(v.Id(), root.name);
  }

  lemma BelowIsLonger(k: string, p: string)
    requires StartsWith(k, p + "/")
    ensures k != p && '/' in k
  {
    assert k[|p|] == (p + "/")[|p|];
  }

  /** A visit's id is its parent's id, a slash and its entry's name. */
  lemma VisitIds(root: Entry)
    requires root.Dir? && WellFormed(root)
    ensures forall v :: v in RootVisits(root) ==>
      '/' in v.Id() && ParentId(v.Id()) == v.parentId && Basename(v.Id()) == v.entry.name
  {
    SoundRoot(root);
    VisitFacts(root.name, root.children);
    forall v | v in RootVisits(root) ensures '/' in v.Id() && ParentId(v.Id()) == v.parentId && Basename(v.Id()) == v.entry.name {
      ChildNames(v.parentId, v.entry.name);
    }
  }

  /** In a real tree, the id of a visit determines it. */
  lemma IdsDetermineVisits(root: Entry)
    requires root.Dir? && WellFormed(root)
    ensures forall v, w :: v in RootVisits(root) && w in RootVisits(root) && v.Id() == w.Id() ==> v == w
  {
    SoundRoot(root);
    forall v, w | v in RootVisits(root) && w in RootVisits(root) && v.Id() == w.Id() ensures v == w {
      VisitsInjective(root.name, root.children, v, w);
    }
  }

  /** The filesystem nodes: the root and one node per visit, each with its entry's type. */
  lemma FsNodeTypes(root: Entry)
    requires root.Dir? && WellFormed(root)
    ensures forall k :: k in FsNodes(root) <==> k == root.name || exists v :: v in RootVisits(root) && v.Id() == k
    ensures FsNodes(root)[root.name] == Folder
    ensures forall v :: v in RootVisits(root) ==> FsNodes(root)[v.Id()] == KindOf(v.entry)
  {
    var vs := RootVisits(root);
    IdsDetermineVisits(root);
    forall k ensures k in NodesFold(vs) <==> exists v :: v in vs && v.Id() == k {
      NodesFoldKeys(vs, k);
    }
    forall v | v in vs ensures v.Id() in NodesFold(vs) && NodesFold(vs)[v.Id()] == KindOf(v.entry) {
      NodesFoldValue(vs, v);
    }
    forall v | v in vs ensures v.Id() != root.name {
      RootIdUnique(root, v);
    }
  }

  /** The node set: the root, every visited entry and every imported name. */
  lemma FullGraphNodeSet(root: Entry)
    requires root.Dir? && WellFormed(root)
    ensures forall k :: k in FullGraph(root).nodes <==>
      k == root.name || k in DepNames(RootVisits(root)) || exists v :: v in RootVisits(root) && v.Id() == k
  {
    FsNodeTypes(root);
  }

  /** The node types: an imported name is a `dependency` node, even when it equals a
      filesystem id (`add_node` overwrites the type); any other node keeps the type of
      its entry, the root being a folder. */
  lemma FullGraphNodeTypes(root: Entry)
    requires root.Dir? && WellFormed(root)
    ensures forall d :: d in DepNames(RootVisits(root)) ==> d in FullGraph(root).nodes && FullGraph(root).nodes[d] == Dependency
    ensures root.name !in DepNames(RootVisits(root)) ==> root.name in FullGraph(root).nodes && FullGraph(root).nodes[root.name] == Folder
    ensures forall v :: v in RootVisits(root) && v.Id() !in DepNames(RootVisits(root)) ==>
      v.Id() in FullGraph(root).nodes && FullGraph(root).nodes[v.Id()] == KindOf(v.entry)
  {
    FsNodeTypes(root);
  }

  /** Every edge joins two nodes of the graph (no tree shape needed). */
  lemma FullGraphClosed(root: Entry)
    requires root.Dir?
    ensures FullGraph(root).Closed()
  {
    var g, vs := FullGraph(root), RootVisits(root);
    forall e | e in g.edges ensures e.0 in g.nodes && e.1 in g.nodes {
      InContainment(vs, e);
      InImportEdges(vs, e);
      if e in Containment(vs) {
        var v :| v in vs && e == (v.parentId, v.Id());
        NodesFoldKeys(vs, v.Id());
        ParentVisited(root.name, root.children, v);
        if v.parentId != root.name {
          var w :| w in vs && Descends(w.entry) && w.Id() == v.parentId;
          NodesFoldKeys(vs, w.Id());
        }
      } else {
        var v :| v in vs && e.0 == v.Id() && e.1 in ImportedNames(v);
        NodesFoldKeys(vs, v.Id());
        InDepNames(vs, e.1);
      }
    }
  }

  /** Every visited entry has a containment edge from the directory that lists it. */
  lemma ContainmentOfEveryVisit(root: Entry)
    requires root.Dir? && WellFormed(root)
    ensures forall v :: v in RootVisits(root) ==> '/' in v.Id() && (ParentId(v.Id()), v.Id()) in FullGraph(root).edges
  {
    VisitIds(root);
    forall v | v in RootVisits(root) ensures (v.parentId, v.Id()) in Containment(RootVisits(root)) {
      InContainment(RootVisits(root), (v.parentId, v.Id()));
    }
  }

  /** Each containment edge runs to a non-root node from the id obtained by dropping the
      target's last path segment, which is the root or a directory the walk descended into. */
  lemma ContainmentShape(root: Entry)
    requires root.Dir? && WellFormed(root)
    ensures forall e :: e in Containment(RootVisits(root)) ==>
      '/' in e.1 && e.0 == ParentId(e.1) && e.1 != root.name &&
      (e.0 == root.name || exists w :: w in RootVisits(root) && Descends(w.entry) && w.Id() == e.0)
  {
    var vs := RootVisits(root);
    VisitIds(root);
    forall e | e in Containment(vs)
      ensures '/' in e.1 && e.0 == ParentId(e.1) && e.1 != root.name
      ensures e.0 == root.name || exists w :: w in vs && Descends(w.entry) && w.Id() == e.0
    {
      InContainment(vs, e);
      var v :| v in vs && e == (v.parentId, v.Id());
      RootIdUnique(root, v);
      ParentVisited(root.name, root.children, v);
    }
  }

  /** Files list nothing: no visit has a file as its parent. */
  lemma FilesHaveNoChildren(root: Entry, v: Visit)
    requires root.Dir? && WellFormed(root) && v in RootVisits(root) && v.entry.File?
    ensures forall w :: w in RootVisits(root) ==> w.parentId != v.Id()
  {
    RootIdUnique(root, v);
    IdsDetermineVisits(root);
    forall w | w in RootVisits(root) ensures w.parentId != v.Id() {
      ParentVisited(root.name, root.children, w);
    }
  }

  /** A Python file's node points exactly at the names it imports. */
  lemma PythonFileSuccessors(root: Entry, v: Visit)
    requires root.Dir? && WellFormed(root) && v in RootVisits(root) && IsPython(v.entry)
    ensures FullGraph(root).Successors(v.Id()) == ImportedNames(v)
  {
    var g, vs := FullGraph(root), RootVisits(root);
    FilesHaveNoChildren(root, v);
    IdsDetermineVisits(root);
    forall x | x in g.Successors(v.Id()) ensures x in ImportedNames(v) {
      var e := (v.Id(), x);
      assert e in g.edges;
      InContainment(vs, e);
      InImportEdges(vs, e);
    }
    forall x | x in ImportedNames(v) ensures x in g.Successors(v.Id()) {
      InImportEdges(vs, (v.Id(), x));
      assert (v.Id(), x) in g.edges;
    }
  }

  /** Each imported name is one `dependency` node, shared by every file that imports it. */
  lemma ImportReachesDependency(root: Entry, v: Visit, imp: string)
    requires root.Dir? && v in RootVisits(root) && imp in ImportedNames(v)
    ensures (v.Id(), imp) in FullGraph(root).edges
    ensures imp in FullGraph(root).nodes && FullGraph(root).nodes[imp] == Dependency
  {
    var vs := RootVisits(root);
    InImportEdges(vs, (v.Id(), imp));
    InDepNames(vs, imp);
  }

  // ---------------------------------------------------------------------------
  // Pruning.

  /** The walk gives nodes only to files and unpruned directories, and only inside the
      root or inside directories it descended into. */
  lemma WalkPrunes(root: Entry)
    requires root.Dir? && WellFormed(root)
    ensures forall v :: v in RootVisits(root) ==> Listed(v.entry)
    ensures forall v :: v in RootVisits(root) ==>
      (v.parentId == root.name || exists w :: w in RootVisits(root) && Descends(w.entry) && w.Id() == v.parentId)
  {
    SoundRoot(root);
    VisitFacts(root.name, root.children);
    forall v | v in RootVisits(root)
      ensures v.parentId == root.name || exists w :: w in RootVisits(root) && Descends(w.entry) && w.Id() == v.parentId
    {
      ParentVisited(root.name, root.children, v);
    }
  }

  /** Every file, hidden ones included, and every unpruned directory of the root or of a
      directory the walk descended into is visited. */
  lemma WalkComplete(root: Entry)
    requires root.Dir?
    ensures forall e :: e in root.children && Listed(e) ==> Visit(root.name, e) in RootVisits(root)
    ensures forall w, e :: w in RootVisits(root) && Descends(w.entry) && e in w.entry.children && Listed(e) ==>
      Visit(w.Id(), e) in RootVisits(root)
  {
    forall e | e in root.children && Listed(e) ensures Visit(root.name, e) in RootVisits(root) {
      WalkVisits(root.name, root.children, Visit(root.name, e));
    }
    forall w, e | w in RootVisits(root) && Descends(w.entry) && e in w.entry.children && Listed(e)
      ensures Visit(w.Id(), e) in RootVisits(root)
    {
      WalkVisits(w.Id(), w.entry.children, Visit(w.Id(), e));
      SubtreeVisited(root.name, root.children, w, Visit(w.Id(), e));
    }
  }

  /** A pruned directory of the root gets no node. */
  lemma PrunedTopDirectoryAbsent(root: Entry, d: Entry)
    requires root.Dir? && WellFormed(root) && d in root.children && d.Dir? && Pruned(d.name)
    ensures forall v :: v in RootVisits(root) ==> v.Id() != ChildId(root.name, d.name)
  {
    SoundRoot(root);
    VisitFacts(root.name, root.children);
    ChildIdJoin(root.name, d.name);
    forall v | v in RootVisits(root) ensures v.Id() != root.name + "/" + d.name {
      IdOfTopEntry(root.name, root.children, v, d.name);
      DropJoin(root.name, d.name);
      DropJoin(root.name, v.entry.name);
      SameNameSameEntryIf(root.children, v.entry, d);
    }
  }

  /** A pruned directory inside a directory the walk descended into gets no node. */
  lemma PrunedDirectoryAbsent(root: Entry, w: Visit, d: Entry)
    requires root.Dir? && WellFormed(root) && w in RootVisits(root) && Descends(w.entry)
    requires d in w.entry.children && d.Dir? && Pruned(d.name)
    ensures forall v :: v in RootVisits(root) ==> v.Id() != ChildId(w.Id(), d.name)
  {
    SoundRoot(root);
    VisitFacts(root.name, root.children);
    assert WellFormed(d);
    ChildIdJoin(w.Id(), d.name);
    forall v | v in RootVisits(root) ensures v.Id() != w.Id() + "/" + d.name {
      IdOfChildEntry(root.name, root.children, v, w, d.name);
      DropJoin(w.Id(), d.name);
      DropJoin(v.parentId, v.entry.name);
      SameNameSameEntryIf(w.entry.children, v.entry, d);
    }
  }

  /** Ids replace backslashes by '/', so an entry whose name holds a backslash
      gets the same id as the path through a directory: `a\b` directly under
      `p` and `b` inside `p/a` collide. */
  lemma BackslashNamesMerge(p: string, a: string, b: string)
    ensures ChildId(p, a + "\\" + b) == ChildId(ChildId(p, a), b)
  {
    var t := Normalize(p + "/" + a);
    var lhs := Normalize(p + "/" + (a + "\\" + b));
    var rhs := Normalize(t + "/" + b);
    assert |lhs| == |rhs|;
    forall i | 0 <= i < |lhs| ensures lhs[i] == rhs[i] {
      if i < |t| {
        assert (p + "/" + (a + "\\" + b))[i] == (p + "/" + a)[i];
      } else if i > |t| {
        assert (p + "/" + (a + "\\" + b))[i] == b[i - |t| - 1];
      }
    }
  }
}
