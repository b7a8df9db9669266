/** The full dependency graph (`build_full_dependency_graph`): one node per
    folder and file of the project, one `dependency` node per imported
    top-level name, containment edges from each folder to its entries, and
    import edges from each Python file to the names it imports. */
module DependencyGraph {
  import opened Wrappers
  import opened Text
  import opened FsTree
  import opened ImportExtraction

  /** The `type` attribute of a node. */
  datatype NodeType = Folder | PythonFile | OtherFile | Dependency

  /** A directed graph: each node's `type`, and the edge set (a repeated edge is stored once). */
  datatype Graph = Graph(nodes: map<string, NodeType>, edges: set<(string, string)>) {
    /** Every edge joins two nodes of the graph. */
    predicate Closed() {
      forall e :: e in edges ==> e.0 in nodes && e.1 in nodes
    }

    /** The targets of the edges leaving `u` (`G.neighbors(u)`). */
    function Successors(u: string): set<string> {
      set e | e in edges && e.0 == u :: e.1
    }
  }

  /** Directories the walk neither adds nor descends into. */
  predicate Pruned(n: string) {
    StartsWith(n, ".") || n == "__pycache__"
  }

  /** `os.path.join(parent_node_id, name).replace('\\', '/')`. */
  function ChildId(parentId: string, name: string): string {
    Normalize(parentId + "/" + name)
  }

  predicate IsPython(e: Entry) {
    e.File? && EndsWith(e.name, ".py")
  }

  /** The type a filesystem entry's node gets. */
  function KindOf(e: Entry): NodeType {
    if e.Dir? then Folder else if EndsWith(e.name, ".py") then PythonFile else OtherFile
  }

  // ---------------------------------------------------------------------------
  // `os.walk` with the caller's pruning of `dirnames`.

  /** One `(dirpath, dirnames, filenames)` of the walk, `dirpath` given by its node id. */
  datatype WalkStep = WalkStep(dirId: string, dirs: seq<Entry>, files: seq<Entry>) {
    /** `dirnames` holds directories and `filenames` files. */
    predicate Listing() {
      (forall d :: d in dirs ==> d.Dir?) && (forall f :: f in files ==> f.File?)
    }
  }

  /** `dirnames` after `dirnames[:] = [d for d in dirnames if ...]`. */
  function KeptDirs(ch: seq<Entry>): (r: seq<Entry>)
    ensures forall e :: e in r <==> e in ch && e.Dir? && !Pruned(e.name)
  {
    if ch == [] then []
    else
      var last := ch[|ch| - 1];
      KeptDirs(ch[..|ch| - 1]) + (if last.Dir? && !Pruned(last.name) then [last] else [])
  }

  /** `filenames`: every non-directory entry, hidden ones included. */
  function FilesOf(ch: seq<Entry>): (r: seq<Entry>)
    ensures forall e :: e in r <==> e in ch && e.File?
  {
    if ch == [] then []
    else
      var last := ch[|ch| - 1];
      FilesOf(ch[..|ch| - 1]) + (if last.File? then [last] else [])
  }

  /** The walk of the directory with id `id`: its own step, then, top-down, the walk of each kept subdirectory. */
  function Walk(id: string, ch: seq<Entry>): seq<WalkStep>
    decreases ch, 1
  {
    [WalkStep(id, KeptDirs(ch), FilesOf(ch))] + SubWalks(id, ch)
  }

  function SubWalks(id: string, ch: seq<Entry>): seq<WalkStep>
    decreases ch, 0
  {
    if ch == [] then []
    else
      var last := ch[|ch| - 1];
      SubWalks(id, ch[..|ch| - 1]) +
      (if last.Dir? && !Pruned(last.name) then Walk(ChildId(id, last.name), last.children) else [])
  }

  /** Every step of the walk lists directories as directories and files as files. */
  lemma {:induction false} WalkListings(id: string, ch: seq<Entry>)
    ensures forall i :: 0 <= i < |Walk(id, ch)| ==> Walk(id, ch)[i].Listing()
    decreases ch, 1
  {
    SubWalkListings(id, ch);
  }

  lemma {:induction false} SubWalkListings(id: string, ch: seq<Entry>)
    ensures forall i :: 0 <= i < |SubWalks(id, ch)| ==> SubWalks(id, ch)[i].Listing()
    decreases ch, 0
  {
    if ch != [] {
      var last := ch[|ch| - 1];
      SubWalkListings(id, ch[..|ch| - 1]);
      if last.Dir? && !Pruned(last.name) {
        WalkListings(ChildId(id, last.name), last.children);
      }
    }
  }

  // ---------------------------------------------------------------------------
  // The graph, as a function of the entries the walk visits.

  /** An entry reached by the walk, with the id of the directory listing it. */
  datatype Visit = Visit(parentId: string, entry: Entry) {
    function Id(): string { ChildId(parentId, entry.name) }
  }

  /** The entries `es`, listed by the directory with id `parentId`. */
  function VisitsOf(parentId: string, es: seq<Entry>): (r: seq<Visit>)
    ensures |r| == |es|
  {
    seq(|es|, k requires 0 <= k < |es| => Visit(parentId, es[k]))
  }

  /** The entries a step lists: its kept directories, then its files. */
  function StepVisits(s: WalkStep): seq<Visit> {
    VisitsOf(s.dirId, s.dirs) + VisitsOf(s.dirId, s.files)
  }

  /** The entries a sequence of steps lists, in walk order. */
  function Visits(steps: seq<WalkStep>): seq<Visit> {
    if steps == [] then [] else Visits(steps[..|steps| - 1]) + StepVisits(steps[|steps| - 1])
  }

  /** The node map after `add_node(id, type=...)` for each visit in order (a later call overwrites the type). */
  function NodesFold(vs: seq<Visit>): map<string, NodeType> {
    if vs == [] then map[] else NodesFold(vs[..|vs| - 1])[vs[|vs| - 1].Id() := KindOf(vs[|vs| - 1].entry)]
  }

  /** The names a visited Python file imports (none for other entries). */
  ghost function ImportedNames(v: Visit): set<string> {
    if IsPython(v.entry) then set imp | imp in Imports(v.entry.source) else {}
  }

  /** The union of `f(v)` over the visits `vs`. */
  ghost function Gather<T>(vs: seq<Visit>, f: Visit -> set<T>): set<T> {
    if vs == [] then {} else Gather(vs[..|vs| - 1], f) + f(vs[|vs| - 1])
  }

  /** The containment edge of a visit, from the listing directory. */
  ghost function ContainmentEdge(v: Visit): set<(string, string)> {
    {(v.parentId, v.Id())}
  }

  /** The import edges of a visit: one per imported name of a Python file. */
  ghost function ImportEdgesOf(v: Visit): set<(string, string)> {
    set imp | imp in ImportedNames(v) :: (v.Id(), imp)
  }

  /** One containment edge per visit. */
  ghost function Containment(vs: seq<Visit>): set<(string, string)> {
    Gather(vs, ContainmentEdge)
  }

  /** One import edge per visited Python file and imported name. */
  ghost function ImportEdges(vs: seq<Visit>): set<(string, string)> {
    Gather(vs, ImportEdgesOf)
  }

  /** Every imported name. */
  ghost function DepNames(vs: seq<Visit>): set<string> {
    Gather(vs, ImportedNames)
  }

  function DepMap(names: set<string>): map<string, NodeType> {
    map d | d in names :: Dependency
  }

  /** The entries the walk from the root visits. */
  function RootVisits(root: Entry): seq<Visit>
    requires root.Dir?
  {
    Visits(Walk(root.name, root.children))
  }

  /** The filesystem nodes: the root folder, then every visited entry. */
  function FsNodes(root: Entry): map<string, NodeType>
    requires root.Dir?
  {
    map[root.name := Folder] + NodesFold(RootVisits(root))
  }

  /** The graph `build_full_dependency_graph` returns for the project rooted at `root`.
      A dependency name equal to a filesystem id takes that node over. */
  ghost function FullGraph(root: Entry): Graph
    requires root.Dir?
  {
    var vs := RootVisits(root);
    Graph(FsNodes(root) + DepMap(DepNames(vs)), Containment(vs) + ImportEdges(vs))
  }

  lemma VisitsSnoc(steps: seq<WalkStep>, i: nat)
    requires i < |steps|
    ensures Visits(steps[..i + 1]) == Visits(steps[..i]) + StepVisits(steps[i])
  {
    assert steps[..i + 1][..i] == steps[..i];
  }

  lemma NodesFoldSnoc(vs: seq<Visit>, v: Visit)
    ensures NodesFold(vs + [v]) == NodesFold(vs)[v.Id() := KindOf(v.entry)]
  {
    assert (vs + [v])[..|vs|] == vs;
  }

  lemma {:induction false} NodesFoldAppend(a: seq<Visit>, b: seq<Visit>)
    ensures NodesFold(a + b) == NodesFold(a) + NodesFold(b)
    decreases |b|
  {
    if b != [] {
      var n := |b| - 1;
      assert (a + b)[..|a + b| - 1] == a + b[..n];
      NodesFoldAppend(a, b[..n]);
    } else {
      assert a + b == a;
    }
  }

  lemma TakeSnoc<T>(s: seq<T>, i: nat)
    requires i < |s|
    ensures s[..i + 1] == s[..i] + [s[i]]
  {
  }

  lemma UpdateUnion(a: map<string, NodeType>, b: map<string, NodeType>, k: string, x: NodeType)
    ensures (a + b)[k := x] == a + b[k := x]
  {
  }

  lemma UnionAssoc(a: map<string, NodeType>, b: map<string, NodeType>, c: map<string, NodeType>)
    ensures a + b + c == a + (b + c)
  {
  }

  lemma Regroup(e: set<(string, string)>, c1: set<(string, string)>, i1: set<(string, string)>, c2: set<(string, string)>, i2: set<(string, string)>)
    ensures e + c1 + i1 + c2 + i2 == e + (c1 + c2) + (i1 + i2)
  {
  }

  lemma RegroupPairs(c1: set<(string, string)>, i1: set<(string, string)>, c2: set<(string, string)>, i2: set<(string, string)>)
    ensures c1 + i1 + c2 + i2 == (c1 + c2) + (i1 + i2)
  {
  }

  lemma DepMapUnion(a: set<string>, b: set<string>)
    ensures DepMap(a) + DepMap(b) == DepMap(a + b)
  {
  }

  lemma OneVisit(v: Visit)
    ensures Containment([v]) == {(v.parentId, v.Id())}
    ensures ImportEdges([v]) == set imp | imp in ImportedNames(v) :: (v.Id(), imp)
    ensures DepNames([v]) == ImportedNames(v)
  {
    GatherOne(v, ContainmentEdge);
    GatherOne(v, ImportEdgesOf);
    GatherOne(v, ImportedNames);
  }

  lemma GatherOne<T>(v: Visit, f: Visit -> set<T>)
    ensures Gather([v], f) == f(v)
  {
    assert [v][..0] == [];
    assert Gather([v], f) == {} + f(v);
  }

  lemma {:induction false} GatherAppend<T>(a: seq<Visit>, b: seq<Visit>, f: Visit -> set<T>)
    ensures Gather(a + b, f) == Gather(a, f) + Gather(b, f)
    decreases |b|
  {
    if b == [] {
      assert a + b == a;
    } else {
      var n := |b| - 1;
      assert (a + b)[..|a + b| - 1] == a + b[..n];
      assert (a + b)[|a + b| - 1] == b[n];
      GatherAppend(a, b[..n], f);
    }
  }

  lemma EdgesAppend(a: seq<Visit>, b: seq<Visit>)
    ensures Containment(a + b) == Containment(a) + Containment(b)
    ensures ImportEdges(a + b) == ImportEdges(a) + ImportEdges(b)
    ensures DepNames(a + b) == DepNames(a) + DepNames(b)
  {
    GatherAppend(a, b, ContainmentEdge);
    GatherAppend(a, b, ImportEdgesOf);
    GatherAppend(a, b, ImportedNames);
  }

  /** `G.add_node(imp, type='dependency')` and `G.add_edge(file_id, imp)` for each imported name. */
  method AddImports(nodes: map<string, NodeType>, edges: set<(string, string)>, fileId: string, imports: seq<string>)
    returns (nodes': map<string, NodeType>, edges': set<(string, string)>)
    ensures nodes' == nodes + DepMap(set imp | imp in imports)
    ensures edges' == edges + set imp | imp in imports :: (fileId, imp)
  {
    nodes', edges' := nodes, edges;
    for k := 0 to |imports|
      invariant nodes' == nodes + DepMap(set imp | imp in imports[..k])
      invariant edges' == edges + set imp | imp in imports[..k] :: (fileId, imp)
    {
      assert imports[..k + 1] == imports[..k] + [imports[k]];
      nodes' := nodes'[imports[k] := Dependency];
      edges' := edges' + {(fileId, imports[k])};
    }
    assert imports[..|imports|] == imports;
  }

  /** The first pass over a step's directories: a `folder` node each. */
  method AddFolderNodes(nodes: map<string, NodeType>, parentId: string, dirs: seq<Entry>) returns (nodes': map<string, NodeType>)
    requires forall d :: d in dirs ==> d.Dir?
    ensures nodes' == nodes + NodesFold(VisitsOf(parentId, dirs))
  {
    ghost var vs := VisitsOf(parentId, dirs);
    nodes' := nodes;
    for j := 0 to |dirs|
      invariant nodes' == nodes + NodesFold(vs[..j])
    {
      var v := Visit(parentId, dirs[j]);
      assert dirs[j] in dirs && vs[j] == v;
      TakeSnoc(vs, j);
      NodesFoldSnoc(vs[..j], v);
      UpdateUnion(nodes, NodesFold(vs[..j]), v.Id(), Folder);
      nodes' := nodes'[ChildId(parentId, dirs[j].name) := Folder];
    }
    assert vs[..|dirs|] == vs;
  }

  /** The first pass over a step's files: a `python_file` or `other_file` node each. */
  method AddFileNodes(nodes: map<string, NodeType>, parentId: string, files: seq<Entry>) returns (nodes': map<string, NodeType>)
    requires forall f :: f in files ==> f.File?
    ensures nodes' == nodes + NodesFold(VisitsOf(parentId, files))
  {
    ghost var vs := VisitsOf(parentId, files);
    nodes' := nodes;
    for j := 0 to |files|
      invariant nodes' == nodes + NodesFold(vs[..j])
    {
      var f := files[j];
      var v := Visit(parentId, f);
      assert f in files && vs[j] == v;
      TakeSnoc(vs, j);
      NodesFoldSnoc(vs[..j], v);
      var nodeType := if EndsWith(f.name, ".py") then PythonFile else OtherFile;
      UpdateUnion(nodes, NodesFold(vs[..j]), v.Id(), nodeType);
      nodes' := nodes'[ChildId(parentId, f.name) := nodeType];
    }
    assert vs[..|files|] == vs;
  }

  /** The first pass over one step: its folder nodes, then its file nodes. */
  method AddStepNodes(nodes: map<string, NodeType>, step: WalkStep) returns (nodes': map<string, NodeType>)
    requires step.Listing()
    ensures nodes' == nodes + NodesFold(StepVisits(step))
  {
    ghost var ds, fs := VisitsOf(step.dirId, step.dirs), VisitsOf(step.dirId, step.files);
    NodesFoldAppend(ds, fs);
    UnionAssoc(nodes, NodesFold(ds), NodesFold(fs));
    nodes' := AddFolderNodes(nodes, step.dirId, step.dirs);
    nodes' := AddFileNodes(nodes', step.dirId, step.files);
  }

  /** The second pass over one file: its containment edge and, for a Python file, its imports. */
  method AddFileEdges(nodes: map<string, NodeType>, edges: set<(string, string)>, v: Visit)
    returns (nodes': map<string, NodeType>, edges': set<(string, string)>)
    requires v.entry.File?
    ensures nodes' == nodes + DepMap(DepNames([v]))
    ensures edges' == edges + Containment([v]) + ImportEdges([v])
  {
    OneVisit(v);
    var fileId := ChildId(v.parentId, v.entry.name);
    nodes', edges' := nodes, edges + {(v.parentId, fileId)};
    if EndsWith(v.entry.name, ".py") {
      var imports := GetImportsForFile(v.entry.source);
      nodes', edges' := AddImports(nodes', edges', fileId, imports);
    } else {
      assert DepMap({}) == map[];
    }
  }

  /** The second pass over a step's directories: a containment edge each. */
  method AddFolderEdges(edges: set<(string, string)>, parentId: string, dirs: seq<Entry>) returns (edges': set<(string, string)>)
    requires forall d :: d in dirs ==> d.Dir?
    ensures edges' == edges + Containment(VisitsOf(parentId, dirs))
    ensures DepNames(VisitsOf(parentId, dirs)) == {} && ImportEdges(VisitsOf(parentId, dirs)) == {}
  {
    ghost var vs := VisitsOf(parentId, dirs);
    edges' := edges;
    for j := 0 to |dirs|
      invariant edges' == edges + Containment(vs[..j])
      invariant DepNames(vs[..j]) == {} && ImportEdges(vs[..j]) == {}
    {
      var v := Visit(parentId, dirs[j]);
      assert dirs[j] in dirs && vs[j] == v;
      TakeSnoc(vs, j);
      EdgesAppend(vs[..j], [v]);
      OneVisit(v);
      edges' := edges' + {(parentId, ChildId(parentId, dirs[j].name))};
    }
    assert vs[..|dirs|] == vs;
  }

  /** The second pass over a step's files. */
  method AddFilesEdges(nodes: map<string, NodeType>, edges: set<(string, string)>, parentId: string, files: seq<Entry>)
    returns (nodes': map<string, NodeType>, edges': set<(string, string)>)
    requires forall f :: f in files ==> f.File?
    ensures nodes' == nodes + DepMap(DepNames(VisitsOf(parentId, files)))
    ensures edges' == edges + Containment(VisitsOf(parentId, files)) + ImportEdges(VisitsOf(parentId, files))
  {
    ghost var vs := VisitsOf(parentId, files);
    nodes', edges' := nodes, edges;
    for j := 0 to |files|
      invariant nodes' == nodes + DepMap(DepNames(vs[..j]))
      invariant edges' == edges + Containment(vs[..j]) + ImportEdges(vs[..j])
    {
      var v := Visit(parentId, files[j]);
      assert files[j] in files && vs[j] == v;
      ghost var done := vs[..j];
      TakeSnoc(vs, j);
      EdgesAppend(done, [v]);
      UnionAssoc(nodes, DepMap(DepNames(done)), DepMap(DepNames([v])));
      DepMapUnion(DepNames(done), DepNames([v]));
      Regroup(edges, Containment(done), ImportEdges(done), Containment([v]), ImportEdges([v]));
      nodes', edges' := AddFileEdges(nodes', edges', v);
    }
    assert vs[..|files|] == vs;
  }

  /** The second pass over one step: containment edges for its directories, then
      for its files together with the dependency nodes and import edges of each Python file. */
  method AddStepEdges(nodes: map<string, NodeType>, edges: set<(string, string)>, step: WalkStep)
    returns (nodes': map<string, NodeType>, edges': set<(string, string)>)
    requires step.Listing()
    ensures nodes' == nodes + DepMap(DepNames(StepVisits(step)))
    ensures edges' == edges + Containment(StepVisits(step)) + ImportEdges(StepVisits(step))
  {
    ghost var ds, fs := VisitsOf(step.dirId, step.dirs), VisitsOf(step.dirId, step.files);
    EdgesAppend(ds, fs);
    edges' := AddFolderEdges(edges, step.dirId, step.dirs);
    ghost var mid := edges';
    nodes', edges' := AddFilesEdges(nodes, edges', step.dirId, step.files);
    assert DepNames(StepVisits(step)) == DepNames(fs);
    assert ImportEdges(StepVisits(step)) == ImportEdges(fs);
    Regroup(edges, Containment(ds), {}, Containment(fs), ImportEdges(fs));
  }

  /** The first pass of the walk: the root folder, then the nodes of every step. */
  method AddFsNodes(rootId: string, steps: seq<WalkStep>) returns (nodes: map<string, NodeType>)
    requires forall i :: 0 <= i < |steps| ==> steps[i].Listing()
    ensures nodes == map[rootId := Folder] + NodesFold(Visits(steps))
  {
    nodes := map[rootId := Folder];
    assert steps[..0] == [];
    for i := 0 to |steps|
      invariant nodes == map[rootId := Folder] + NodesFold(Visits(steps[..i]))
    {
      ghost var done, sv := Visits(steps[..i]), StepVisits(steps[i]);
      VisitsSnoc(steps, i);
      NodesFoldAppend(done, sv);
      UnionAssoc(map[rootId := Folder], NodesFold(done), NodesFold(sv));
      nodes := AddStepNodes(nodes, steps[i]);
    }
    assert steps[..|steps|] == steps;
  }

  /** The second pass of the walk: containment edges, dependency nodes and import edges of every step. */
  method AddEdges(fsNodes: map<string, NodeType>, steps: seq<WalkStep>) returns (nodes: map<string, NodeType>, edges: set<(string, string)>)
    requires forall i :: 0 <= i < |steps| ==> steps[i].Listing()
    ensures nodes == fsNodes + DepMap(DepNames(Visits(steps)))
    ensures edges == Containment(Visits(steps)) + ImportEdges(Visits(steps))
  {
    nodes, edges := fsNodes, {};
    assert steps[..0] == [];
    assert DepMap({}) == map[] && fsNodes + map[] == fsNodes;
    for i := 0 to |steps|
      invariant nodes == fsNodes + DepMap(DepNames(Visits(steps[..i])))
      invariant edges == Containment(Visits(steps[..i])) + ImportEdges(Visits(steps[..i]))
    {
      ghost var done, sv := Visits(steps[..i]), StepVisits(steps[i]);
      VisitsSnoc(steps, i);
      EdgesAppend(done, sv);
      UnionAssoc(fsNodes, DepMap(DepNames(done)), DepMap(DepNames(sv)));
      DepMapUnion(DepNames(done), DepNames(sv));
      RegroupPairs(Containment(done), ImportEdges(done), Containment(sv), ImportEdges(sv));
      nodes, edges := AddStepEdges(nodes, edges, steps[i]);
    }
    assert steps[..|steps|] == steps;
  }

  /** `build_full_dependency_graph`: two passes over the walk; the first adds
      every folder and file node, the second every containment edge and, for
      each Python file, a `dependency` node and an edge per imported name. */
  method BuildFullDependencyGraph(root: Entry) returns (g: Graph)
    requires root.Dir?
    ensures g == FullGraph(root)
  {
    var steps := Walk(root.name, root.children);
    WalkListings(root.name, root.children);
    var fsNodes := AddFsNodes(root.name, steps);
    var nodes, edges := AddEdges(fsNodes, steps);
    g := Graph(nodes, edges);
  }
}
