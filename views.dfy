/** The views the upload and analyse handlers derive from the full graph: the
    filesystem-only subgraph sent to the browser, the search map from names to
    node ids, and the neighbourhood of one node. */
module GraphViews {
  import opened Wrappers
  import opened Text
  import opened FsTree
  import opened DependencyGraph
  import opened GraphProperties

  predicate IsFileType(t: NodeType) {
    t == PythonFile || t == OtherFile
  }

  /** `n` is a node of `g` whose `type` is `dependency`. */
  predicate IsDependency(g: Graph, n: string) {
    n in g.nodes && g.nodes[n] == Dependency
  }

  // ---------------------------------------------------------------------------
  // The filesystem subgraph.

  /** The nodes among `done` that are not `dependency` nodes, with their types. */
  function KeptNodes(g: Graph, done: set<string>): map<string, NodeType> {
    map n | n in done && n in g.nodes && g.nodes[n] != Dependency :: g.nodes[n]
  }

  /** The edges among `done` whose ends are both in `kept`. */
  function KeptEdges(kept: map<string, NodeType>, done: set<(string, string)>): set<(string, string)> {
    set e | e in done && e.0 in kept && e.1 in kept
  }

  lemma KeptNodesStep(g: Graph, done: set<string>, n: string)
    requires n in g.nodes
    ensures KeptNodes(g, done + {n}) ==
      if g.nodes[n] != Dependency then KeptNodes(g, done)[n := g.nodes[n]] else KeptNodes(g, done)
  {
  }

  lemma KeptEdgesStep(kept: map<string, NodeType>, done: set<(string, string)>, e: (string, string))
    ensures KeptEdges(kept, done + {e}) ==
      if e.0 in kept && e.1 in kept then KeptEdges(kept, done) + {e} else KeptEdges(kept, done)
  {
  }

  /** The nodes that are not `dependency` nodes, with their types, and the edges
      between two such nodes. */
  function FsView(g: Graph): (r: Graph)
    ensures forall n :: n in r.nodes <==> n in g.nodes && g.nodes[n] != Dependency
    ensures forall n :: n in r.nodes ==> r.nodes[n] == g.nodes[n]
    ensures forall e :: e in r.edges <==> e in g.edges && e.0 in r.nodes && e.1 in r.nodes
    ensures r.Closed()
  {
    var kept := KeptNodes(g, g.nodes.Keys);
    Graph(kept, KeptEdges(kept, g.edges))
  }

  /** The node loop, then the edge loop, that fill `fs_graph`. */
  method FilesystemSubgraph(g: Graph) returns (fs: Graph)
    ensures fs == FsView(g)
  {
    var nodes: map<string, NodeType> := map[];
    var todo := g.nodes.Keys;
    while todo != {}
      invariant todo <= g.nodes.Keys
      invariant nodes == KeptNodes(g, g.nodes.Keys - todo)
      decreases |todo|
    {
      var n :| n in todo;
      KeptNodesStep(g, g.nodes.Keys - todo, n);
      assert g.nodes.Keys - (todo - {n}) == (g.nodes.Keys - todo) + {n};
      if g.nodes[n] != Dependency {
        nodes := nodes[n := g.nodes[n]];
      }
      todo := todo - {n};
    }
    assert g.nodes.Keys - todo == g.nodes.Keys;
    var edges: set<(string, string)> := {};
    var rest := g.edges;
    while rest != {}
      invariant rest <= g.edges
      invariant edges == KeptEdges(nodes, g.edges - rest)
      decreases |rest|
    {
      var e :| e in rest;
      KeptEdgesStep(nodes, g.edges - rest, e);
      assert g.edges - (rest - {e}) == (g.edges - rest) + {e};
      if e.0 in nodes && e.1 in nodes {
        edges := edges + {e};
      }
      rest := rest - {e};
    }
    assert g.edges - rest == g.edges;
    fs := Graph(nodes, edges);
  }

  // ---------------------------------------------------------------------------
  // The search map.

  /** The `type` tag of a search-map entry. */
  datatype SearchKind = DependencyKey | FileKey

  /** `{'type': ..., 'nodes': [...]}`; the list's order (the graph's iteration order) is not modelled. */
  datatype SearchEntry = SearchEntry(kind: SearchKind, nodes: set<string>)

  /** `search_map[k]`, created with tag `kind` when missing, with `x` appended. */
  function Append(m: map<string, SearchEntry>, k: string, kind: SearchKind, x: string): map<string, SearchEntry> {
    var entry := if k in m then m[k] else SearchEntry(kind, {});
    m[k := entry.(nodes := entry.nodes + {x})]
  }

  /** Creates the key `k` with tag `kind` when it is missing, then appends `x` to its list. */
  method AddToList(m: map<string, SearchEntry>, k: string, kind: SearchKind, x: string) returns (r: map<string, SearchEntry>)
    ensures r == Append(m, k, kind, x)
  {
    r := m;
    if k !in r {
      r := r[k := SearchEntry(kind, {})];
    }
    r := r[k := r[k].(nodes := r[k].nodes + {x})];
  }

  /** The `dependency` targets of the edges among `done`. */
  function DependencyTargets(g: Graph, done: set<(string, string)>): set<string> {
    set e | e in done && IsDependency(g, e.1) :: e.1
  }

  /** The sources of the edges among `done` that end at `k`. */
  function Sources(done: set<(string, string)>, k: string): set<string> {
    set e | e in done && e.1 == k :: e.0
  }

  /** The map after the edge pass has seen the edges `done`. */
  function DependencyPass(g: Graph, done: set<(string, string)>): map<string, SearchEntry> {
    map k | k in DependencyTargets(g, done) :: SearchEntry(DependencyKey, Sources(done, k))
  }

  /** The file nodes among `done`. */
  function FilesAmong(g: Graph, done: set<string>): set<string> {
    set n | n in done && n in g.nodes && IsFileType(g.nodes[n])
  }

  function Basenames(ids: set<string>): set<string> {
    set n | n in ids :: Basename(n)
  }

  function Named(ids: set<string>, k: string): set<string> {
    set n | n in ids && Basename(n) == k
  }

  /** The map `m` after the node pass has seen the nodes `done`: a key `m` already
      holds keeps its tag. */
  function FilePass(g: Graph, m: map<string, SearchEntry>, done: set<string>): map<string, SearchEntry> {
    map k | k in m.Keys + Basenames(FilesAmong(g, done)) :: Indexed(m, FilesAmong(g, done), k)
  }

  /** The entry for `k` once the ids `files` have been added to `m` under their basenames. */
  function Indexed(m: map<string, SearchEntry>, files: set<string>, k: string): SearchEntry {
    SearchEntry(if k in m then m[k].kind else FileKey, (if k in m then m[k].nodes else {}) + Named(files, k))
  }

  lemma DependencyPassStep(g: Graph, done: set<(string, string)>, e: (string, string))
    ensures DependencyPass(g, done + {e}) ==
      if IsDependency(g, e.1) then Append(DependencyPass(g, done), e.1, DependencyKey, e.0) else DependencyPass(g, done)
  {
    var m, m' := DependencyPass(g, done), DependencyPass(g, done + {e});
    if IsDependency(g, e.1) {
      var a := Append(m, e.1, DependencyKey, e.0);
      assert m'.Keys == a.Keys;
      forall k | k in a ensures m'[k] == a[k] {
        if k == e.1 {
          assert Sources(done + {e}, k) == Sources(done, k) + {e.0};
        } else {
          assert Sources(done + {e}, k) == Sources(done, k);
        }
      }
    } else {
      assert m'.Keys == m.Keys;
      forall k | k in m ensures m'[k] == m[k] {
        assert Sources(done + {e}, k) == Sources(done, k);
      }
    }
  }

  lemma NamedStep(ids: set<string>, n: string, k: string)
    ensures Named(ids + {n}, k) == if Basename(n) == k then Named(ids, k) + {n} else Named(ids, k)
  {
  }

  lemma NamedNone(ids: set<string>, k: string)
    requires k !in Basenames(ids)
    ensures Named(ids, k) == {}
  {
    forall n | n in ids ensures Basename(n) != k {
      assert Basename(n) in Basenames(ids);
    }
  }

  lemma IndexedStep(m: map<string, SearchEntry>, files: set<string>, n: string, k: string)
    ensures Indexed(m, files + {n}, k) ==
      if Basename(n) == k then Indexed(m, files, k).(nodes := Indexed(m, files, k).nodes + {n}) else Indexed(m, files, k)
    ensures k !in m && k !in Basenames(files) ==> Indexed(m, files, k) == SearchEntry(FileKey, {})
  {
    NamedStep(files, n, k);
    if k !in Basenames(files) {
      NamedNone(files, k);
    }
  }

  lemma FilePassAdd(g: Graph, m: map<string, SearchEntry>, done: set<string>, n: string)
    requires n in g.nodes && IsFileType(g.nodes[n])
    ensures FilePass(g, m, done + {n}) == Append(FilePass(g, m, done), Basename(n), FileKey, n)
  {
    var f := FilesAmong(g, done);
    var p, p' := FilePass(g, m, done), FilePass(g, m, done + {n});
    var a := Append(p, Basename(n), FileKey, n);
    FilePassAddKeys(g, m, done, n);
    assert p'.Keys == a.Keys;
    forall k | k in p' ensures p'[k] == a[k] {
      FilePassAddValue(g, m, done, n, k);
    }
    MapExt(p', a);
  }

  lemma MapExt(x: map<string, SearchEntry>, y: map<string, SearchEntry>)
    requires x.Keys == y.Keys && forall k :: k in x ==> x[k] == y[k]
    ensures x == y
  {
  }

  lemma FilePassAddKeys(g: Graph, m: map<string, SearchEntry>, done: set<string>, n: string)
    requires n in g.nodes && IsFileType(g.nodes[n])
    ensures FilePass(g, m, done + {n}).Keys == FilePass(g, m, done).Keys + {Basename(n)}
  {
    var f := FilesAmong(g, done);
    assert FilesAmong(g, done + {n}) == f + {n};
    assert Basenames(f + {n}) == Basenames(f) + {Basename(n)};
  }

  lemma FilePassAddValue(g: Graph, m: map<string, SearchEntry>, done: set<string>, n: string, k: string)
    requires n in g.nodes && IsFileType(g.nodes[n])
    requires k in FilePass(g, m, done + {n})
    ensures FilePass(g, m, done + {n})[k] == Append(FilePass(g, m, done), Basename(n), FileKey, n)[k]
  {
    var f := FilesAmong(g, done);
    assert FilesAmong(g, done + {n}) == f + {n};
    FilePassAddKeys(g, m, done, n);
    IndexedStep(m, f, n, k);
  }

  lemma FilePassSkip(g: Graph, m: map<string, SearchEntry>, done: set<string>, n: string)
    requires n in g.nodes && !IsFileType(g.nodes[n])
    ensures FilePass(g, m, done + {n}) == FilePass(g, m, done)
  {
    assert FilesAmong(g, done + {n}) == FilesAmong(g, done);
  }

  lemma FilePassNothing(g: Graph, m: map<string, SearchEntry>)
    ensures FilePass(g, m, {}) == m
  {
    assert FilesAmong(g, {}) == {};
    assert Basenames(FilesAmong(g, {})) == {};
    forall k | k in m ensures FilePass(g, m, {})[k] == m[k] {
      assert Named(FilesAmong(g, {}), k) == {};
    }
  }

  /** The search map (`search_map` after both passes). */
  function SearchView(g: Graph): map<string, SearchEntry> {
    FilePass(g, DependencyPass(g, g.edges), g.nodes.Keys)
  }

  /** The edge loop: each edge into a `dependency` node appends its source under the
      dependency's name, creating the key with the `dependency` tag. */
  method IndexDependencies(g: Graph) returns (sm: map<string, SearchEntry>)
    ensures sm == DependencyPass(g, g.edges)
  {
    sm := map[];
    var rest := g.edges;
    while rest != {}
      invariant rest <= g.edges
      invariant sm == DependencyPass(g, g.edges - rest)
      decreases |rest|
    {
      var e :| e in rest;
      DependencyPassStep(g, g.edges - rest, e);
      assert g.edges - (rest - {e}) == (g.edges - rest) + {e};
      if IsDependency(g, e.1) {
        sm := AddToList(sm, e.1, DependencyKey, e.0);
      }
      rest := rest - {e};
    }
    assert g.edges - rest == g.edges;
  }

  /** The node loop: each file node appends its id under its basename, creating the
      key with the `file` tag only if the edge loop has not created it. */
  method IndexFiles(g: Graph, deps: map<string, SearchEntry>) returns (sm: map<string, SearchEntry>)
    ensures sm == FilePass(g, deps, g.nodes.Keys)
  {
    sm := deps;
    FilePassNothing(g, deps);
    var todo := g.nodes.Keys;
    assert g.nodes.Keys - todo == {};
    while todo != {}
      invariant todo <= g.nodes.Keys
      invariant sm == FilePass(g, deps, g.nodes.Keys - todo)
      decreases |todo|
    {
      var n :| n in todo;
      assert g.nodes.Keys - (todo - {n}) == (g.nodes.Keys - todo) + {n};
      if IsFileType(g.nodes[n]) {
        var b := Basename(n);
        sm := AddToList(sm, b, FileKey, n);
        FilePassAdd(g, deps, g.nodes.Keys - todo, n);
      } else {
        FilePassSkip(g, deps, g.nodes.Keys - todo, n);
      }
      todo := todo - {n};
    }
    assert g.nodes.Keys - todo == g.nodes.Keys;
  }

  /** `search_map`: the edge loop, then the node loop. */
  method BuildSearchMap(g: Graph) returns (sm: map<string, SearchEntry>)
    ensures sm == SearchView(g)
  {
    var deps := IndexDependencies(g);
    sm := IndexFiles(g, deps);
  }

  /** Every edge into a `dependency` node puts its source under the dependency's name,
      with the `dependency` tag; every file node puts its id under its basename. */
  lemma SearchViewIndexes(g: Graph)
    ensures forall e :: e in g.edges && IsDependency(g, e.1) ==>
      e.1 in SearchView(g) && SearchView(g)[e.1].kind == DependencyKey && e.0 in SearchView(g)[e.1].nodes
    ensures forall n :: n in g.nodes && IsFileType(g.nodes[n]) ==>
      Basename(n) in SearchView(g) && n in SearchView(g)[Basename(n)].nodes
  {
    var d := DependencyPass(g, g.edges);
    forall e | e in g.edges && IsDependency(g, e.1)
      ensures e.1 in SearchView(g) && SearchView(g)[e.1].kind == DependencyKey && e.0 in SearchView(g)[e.1].nodes
    {
      assert e.1 in DependencyTargets(g, g.edges);
      assert e.0 in Sources(g.edges, e.1);
    }
    forall n | n in g.nodes && IsFileType(g.nodes[n])
      ensures Basename(n) in SearchView(g) && n in SearchView(g)[Basename(n)].nodes
    {
      assert n in FilesAmong(g, g.nodes.Keys);
      assert Basename(n) in Basenames(FilesAmong(g, g.nodes.Keys));
      assert n in Named(FilesAmong(g, g.nodes.Keys), Basename(n));
    }
  }

  /** Nothing else is indexed: an id is listed under `k` only as the source of an edge
      into the `dependency` node `k`, or as a file node whose basename is `k`; no list
      is empty. */
  lemma SearchViewOnlyIndexes(g: Graph)
    ensures forall k :: k in SearchView(g) ==> SearchView(g)[k].nodes != {}
    ensures forall k, n :: k in SearchView(g) && n in SearchView(g)[k].nodes ==>
      ((n, k) in g.edges && IsDependency(g, k)) || (n in g.nodes && IsFileType(g.nodes[n]) && Basename(n) == k)
  {
    var d := DependencyPass(g, g.edges);
    var files := FilesAmong(g, g.nodes.Keys);
    forall k | k in SearchView(g) ensures SearchView(g)[k].nodes != {} {
      if k in d {
        var e :| e in g.edges && IsDependency(g, e.1) && e.1 == k;
        assert e.0 in Sources(g.edges, k);
      } else {
        var n :| n in files && Basename(n) == k;
        assert n in Named(files, k);
      }
    }
  }

  /** The tag is fixed by the pass that creates the key: `dependency` exactly when an
      edge reaches the `dependency` node `k`, even if a file is also named `k`. */
  lemma SearchViewKinds(g: Graph)
    ensures forall k :: k in SearchView(g) ==>
      (SearchView(g)[k].kind == DependencyKey <==> exists u :: (u, k) in g.edges && IsDependency(g, k))
  {
    var d := DependencyPass(g, g.edges);
    forall k | k in SearchView(g)
      ensures SearchView(g)[k].kind == DependencyKey <==> exists u :: (u, k) in g.edges && IsDependency(g, k)
    {
      if exists u :: (u, k) in g.edges && IsDependency(g, k) {
        var u :| (u, k) in g.edges && IsDependency(g, k);
        assert k in DependencyTargets(g, g.edges);
      }
    }
  }

  // ---------------------------------------------------------------------------
  // The neighbourhood of one node.

  /** Why the analyse handler answers 404. */
  datatype ViewError = NodeNotFound(id: string)

  /** The `dependency` nodes among `done`. */
  function DependenciesAmong(g: Graph, done: set<string>): set<string> {
    set n | n in done && IsDependency(g, n)
  }

  /** `snippet_graph`'s nodes once the successors `done` have been seen. */
  function SnippetNodes(g: Graph, id: string, done: set<string>): map<string, NodeType>
    requires id in g.nodes
  {
    map n | n in {id} + DependenciesAmong(g, done) :: g.nodes[n]
  }

  /** `snippet_graph`'s edges once the successors `done` have been seen. */
  function SnippetEdges(g: Graph, id: string, done: set<string>): set<(string, string)> {
    set n | n in DependenciesAmong(g, done) :: (id, n)
  }

  lemma SnippetStep(g: Graph, id: string, done: set<string>, n: string)
    requires id in g.nodes
    ensures SnippetNodes(g, id, done + {n}) ==
      if IsDependency(g, n) then SnippetNodes(g, id, done)[n := g.nodes[n]] else SnippetNodes(g, id, done)
    ensures SnippetEdges(g, id, done + {n}) ==
      if IsDependency(g, n) then SnippetEdges(g, id, done) + {(id, n)} else SnippetEdges(g, id, done)
  {
    if IsDependency(g, n) {
      assert DependenciesAmong(g, done + {n}) == DependenciesAmong(g, done) + {n};
    } else {
      assert DependenciesAmong(g, done + {n}) == DependenciesAmong(g, done);
    }
  }

  /** A missing node is an error; otherwise the node with its type, and each
      `dependency` node it points at, with one edge to each. */
  function NeighbourhoodView(g: Graph, id: string): (r: Result<Graph, ViewError>)
    ensures r.Failure? <==> id !in g.nodes
    ensures r.Failure? ==> r.error == NodeNotFound(id)
    ensures r.Success? ==> forall n :: n in r.value.nodes <==> n == id || (n in g.Successors(id) && IsDependency(g, n))
    ensures r.Success? ==> forall n :: n in r.value.nodes ==> n in g.nodes && r.value.nodes[n] == g.nodes[n]
    ensures r.Success? ==> forall e :: e in r.value.edges <==> e in g.edges && e.0 == id && IsDependency(g, e.1)
    ensures r.Success? ==> r.value.Closed()
  {
    if id !in g.nodes then Failure(NodeNotFound(id))
    else Success(Graph(SnippetNodes(g, id, g.Successors(id)), SnippetEdges(g, id, g.Successors(id))))
  }

  /** The successor loop that fills `snippet_graph`. */
  method AnalyzeNode(g: Graph, id: string) returns (r: Result<Graph, ViewError>)
    ensures r == NeighbourhoodView(g, id)
  {
    if id !in g.nodes {
      return Failure(NodeNotFound(id));
    }
    var nodes := map[id := g.nodes[id]];
    var edges: set<(string, string)> := {};
    var rest := g.Successors(id);
    assert nodes == SnippetNodes(g, id, {});
    while rest != {}
      invariant rest <= g.Successors(id)
      invariant nodes == SnippetNodes(g, id, g.Successors(id) - rest)
      invariant edges == SnippetEdges(g, id, g.Successors(id) - rest)
      decreases |rest|
    {
      var n :| n in rest;
      SnippetStep(g, id, g.Successors(id) - rest, n);
      assert g.Successors(id) - (rest - {n}) == (g.Successors(id) - rest) + {n};
      if IsDependency(g, n) {
        nodes := nodes[n := g.nodes[n]];
        edges := edges + {(id, n)};
      }
      rest := rest - {n};
    }
    assert g.Successors(id) - rest == g.Successors(id);
    r := Success(Graph(nodes, edges));
  }

  // ---------------------------------------------------------------------------
  // The views of the graph built from a project root.

  /** The `dependency` nodes of the full graph are exactly the imported names. */
  lemma DependencyNodesAreImports(root: Entry)
    requires root.Dir? && WellFormed(root)
    ensures forall n :: IsDependency(FullGraph(root), n) <==> n in DepNames(RootVisits(root))
  {
    FullGraphNodeTypes(root);
    FsNodesNeverDependency(root);
  }

  /** No filesystem node has the `dependency` type. */
  lemma FsNodesNeverDependency(root: Entry)
    requires root.Dir? && WellFormed(root)
    ensures forall k :: k in FsNodes(root) ==> FsNodes(root)[k] != Dependency
  {
    FsNodeTypes(root);
    forall k | k in FsNodes(root) ensures FsNodes(root)[k] != Dependency {
      if k != root.name {
        var v :| v in RootVisits(root) && v.Id() == k;
      }
    }
  }

  /** Only containment edges run between filesystem nodes; import edges always end at
      a `dependency` node. */
  lemma FilesystemEdgesAreContainment(root: Entry)
    requires root.Dir? && WellFormed(root)
    ensures forall e :: e in FsView(FullGraph(root)).edges ==> e in Containment(RootVisits(root))
  {
    var g, vs := FullGraph(root), RootVisits(root);
    DependencyNodesAreImports(root);
    forall e | e in FsView(g).edges ensures e in Containment(vs) {
      InImportEdges(vs, e);
      if e in ImportEdges(vs) {
        var v :| v in vs && e.0 == v.Id() && e.1 in ImportedNames(v);
        InDepNames(vs, e.1);
      }
    }
  }

  /** The filesystem view of the full graph: no imported name survives; every entry whose
      id is not also an imported name keeps its node and type, and its containment edge
      unless its directory's id is an imported name. */
  lemma FsViewOfFullGraph(root: Entry)
    requires root.Dir? && WellFormed(root)
    ensures forall d :: d in DepNames(RootVisits(root)) ==> d !in FsView(FullGraph(root)).nodes
    ensures root.name !in DepNames(RootVisits(root)) ==>
      root.name in FsView(FullGraph(root)).nodes && FsView(FullGraph(root)).nodes[root.name] == Folder
    ensures forall v :: v in RootVisits(root) && v.Id() !in DepNames(RootVisits(root)) ==>
      v.Id() in FsView(FullGraph(root)).nodes && FsView(FullGraph(root)).nodes[v.Id()] == KindOf(v.entry)
    ensures forall v :: v in RootVisits(root) && v.Id() !in DepNames(RootVisits(root)) && v.parentId !in DepNames(RootVisits(root)) ==>
      (v.parentId, v.Id()) in FsView(FullGraph(root)).edges
  {
    var g, vs := FullGraph(root), RootVisits(root);
    FullGraphNodeTypes(root);
    DependencyNodesAreImports(root);
    FullGraphClosed(root);
    forall v | v in vs ensures (v.parentId, v.Id()) in g.edges {
      InContainment(vs, (v.parentId, v.Id()));
    }
  }

  /** An entry that is a directory never points at a `dependency` node, provided no
      imported name contains a slash (Python module names cannot). */
  lemma FolderReachesNoDependency(root: Entry, w: Visit)
    requires root.Dir? && WellFormed(root) && w in RootVisits(root) && w.entry.Dir?
    requires forall d :: d in DepNames(RootVisits(root)) ==> '/' !in d
    ensures forall k :: (w.Id(), k) in FullGraph(root).edges ==> !IsDependency(FullGraph(root), k)
  {
    var g, vs := FullGraph(root), RootVisits(root);
    DependencyNodesAreImports(root);
    IdsDetermineVisits(root);
    forall k | (w.Id(), k) in g.edges ensures !IsDependency(g, k) {
      InContainment(vs, (w.Id(), k));
      InImportEdges(vs, (w.Id(), k));
      if (w.Id(), k) in Containment(vs) {
        var x :| x in vs && (w.Id(), k) == (x.parentId, x.Id());
        RootIdUnique(root, x);
      }
    }
  }

  /** Each file importing a name is listed under that name, with the `dependency` tag. */
  lemma SearchFindsImporters(root: Entry, v: Visit, imp: string)
    requires root.Dir? && v in RootVisits(root) && imp in ImportedNames(v)
    ensures imp in SearchView(FullGraph(root))
    ensures SearchView(FullGraph(root))[imp].kind == DependencyKey && v.Id() in SearchView(FullGraph(root))[imp].nodes
  {
    ImportReachesDependency(root, v, imp);
    SearchViewIndexes(FullGraph(root));
  }

  /** Each file whose id is not also an imported name is listed under its own name. */
  lemma SearchFindsFiles(root: Entry, v: Visit)
    requires root.Dir? && WellFormed(root) && v in RootVisits(root) && v.entry.File?
    requires v.Id() !in DepNames(RootVisits(root))
    ensures v.entry.name in SearchView(FullGraph(root)) && v.Id() in SearchView(FullGraph(root))[v.entry.name].nodes
  {
    FullGraphNodeTypes(root);
    VisitIds(root);
    SearchViewIndexes(FullGraph(root));
  }

  /** A node that is not a file and points at no `dependency` node is listed nowhere. */
  lemma SearchViewSkips(g: Graph, n: string)
    requires n in g.nodes && !IsFileType(g.nodes[n])
    requires forall k :: (n, k) in g.edges ==> !IsDependency(g, k)
    ensures forall k :: k in SearchView(g) ==> n !in SearchView(g)[k].nodes
  {
    SearchViewOnlyIndexes(g);
  }

  /** Folders are never listed, provided no imported name contains a slash. */
  lemma SearchSkipsFolders(root: Entry, w: Visit)
    requires root.Dir? && WellFormed(root) && w in RootVisits(root) && w.entry.Dir?
    requires forall d :: d in DepNames(RootVisits(root)) ==> '/' !in d
    ensures forall k :: k in SearchView(FullGraph(root)) ==> w.Id() !in SearchView(FullGraph(root))[k].nodes
  {
    RootIdUnique(root, w);
    FullGraphNodeTypes(root);
    FolderReachesNoDependency(root, w);
    SearchViewSkips(FullGraph(root), w.Id());
  }

  /** The root never points at a `dependency` node, provided no imported name contains a slash. */
  lemma RootReachesNoDependency(root: Entry)
    requires root.Dir? && WellFormed(root)
    requires forall d :: d in DepNames(RootVisits(root)) ==> '/' !in d
    ensures forall k :: (root.name, k) in FullGraph(root).edges ==> !IsDependency(FullGraph(root), k)
  {
    var g, vs := FullGraph(root), RootVisits(root);
    DependencyNodesAreImports(root);
    forall k | (root.name, k) in g.edges ensures !IsDependency(g, k) {
      InContainment(vs, (root.name, k));
      InImportEdges(vs, (root.name, k));
      if (root.name, k) in Containment(vs) {
        var x :| x in vs && (root.name, k) == (x.parentId, x.Id());
        RootIdUnique(root, x);
      } else {
        var x :| x in vs && root.name == x.Id() && k in ImportedNames(x);
        RootIdUnique(root, x);
      }
    }
  }

  /** The root folder is never listed either. */
  lemma SearchSkipsRoot(root: Entry)
    requires root.Dir? && WellFormed(root)
    requires forall d :: d in DepNames(RootVisits(root)) ==> '/' !in d
    ensures forall k :: k in SearchView(FullGraph(root)) ==> root.name !in SearchView(FullGraph(root))[k].nodes
  {
    FullGraphNodeSet(root);
    FullGraphNodeTypes(root);
    DependencyNodesAreImports(root);
    RootReachesNoDependency(root);
    SearchViewSkips(FullGraph(root), root.name);
  }

  /** Analysing a Python file gives the file and exactly the names it imports, with one
      edge to each. */
  lemma NeighbourhoodOfPythonFile(root: Entry, v: Visit)
    requires root.Dir? && WellFormed(root) && v in RootVisits(root) && IsPython(v.entry)
    requires v.Id() !in DepNames(RootVisits(root))
    ensures NeighbourhoodView(FullGraph(root), v.Id()).Success?
    ensures forall n :: n in NeighbourhoodView(FullGraph(root), v.Id()).value.nodes <==> n == v.Id() || n in ImportedNames(v)
    ensures NeighbourhoodView(FullGraph(root), v.Id()).value.nodes[v.Id()] == PythonFile
    ensures NeighbourhoodView(FullGraph(root), v.Id()).value.edges == ImportEdgesOf(v)
  {
    var g := FullGraph(root);
    FullGraphNodeTypes(root);
    PythonFileSuccessors(root, v);
    ImportsAreDependencies(root, v);
    NeighbourhoodOfImporter(g, v.Id(), ImportedNames(v));
  }

  lemma ImportsAreDependencies(root: Entry, v: Visit)
    requires root.Dir? && v in RootVisits(root)
    ensures forall imp :: imp in ImportedNames(v) ==> IsDependency(FullGraph(root), imp)
  {
    forall imp | imp in ImportedNames(v) ensures IsDependency(FullGraph(root), imp) {
      ImportReachesDependency(root, v, imp);
    }
  }

  /** A node all of whose successors are `dependency` nodes keeps all of them. */
  lemma NeighbourhoodOfImporter(g: Graph, id: string, succ: set<string>)
    requires id in g.nodes && g.Successors(id) == succ
    requires forall x :: x in succ ==> IsDependency(g, x)
    ensures NeighbourhoodView(g, id).Success?
    ensures forall n :: n in NeighbourhoodView(g, id).value.nodes <==> n == id || n in succ
    ensures NeighbourhoodView(g, id).value.nodes[id] == g.nodes[id]
    ensures NeighbourhoodView(g, id).value.edges == set x | x in succ :: (id, x)
  {
    forall e: (string, string) | e.0 == id && e.1 in succ ensures e in g.edges {
      var f :| f in g.edges && f.0 == id && f.1 == e.1;
      assert f == e;
    }
  }

  /** Analysing a folder gives the folder alone, provided no imported name contains a slash. */
  lemma NeighbourhoodOfFolder(root: Entry, w: Visit)
    requires root.Dir? && WellFormed(root) && w in RootVisits(root) && w.entry.Dir?
    requires forall d :: d in DepNames(RootVisits(root)) ==> '/' !in d
    ensures NeighbourhoodView(FullGraph(root), w.Id()).Success?
    ensures NeighbourhoodView(FullGraph(root), w.Id()).value.nodes == map[w.Id() := Folder]
    ensures NeighbourhoodView(FullGraph(root), w.Id()).value.edges == {}
  {
    var g := FullGraph(root);
    RootIdUnique(root, w);
    FullGraphNodeTypes(root);
    FolderReachesNoDependency(root, w);
    NeighbourhoodOfSink(g, w.Id());
  }

  /** A node that points at no `dependency` node is shown alone. */
  lemma NeighbourhoodOfSink(g: Graph, id: string)
    requires id in g.nodes
    requires forall k :: (id, k) in g.edges ==> !IsDependency(g, k)
    ensures NeighbourhoodView(g, id).Success?
    ensures NeighbourhoodView(g, id).value.nodes == map[id := g.nodes[id]]
    ensures NeighbourhoodView(g, id).value.edges == {}
  {
    var r := NeighbourhoodView(g, id).value;
    assert r.nodes.Keys == {id};
    assert r.edges == {};
  }
}
