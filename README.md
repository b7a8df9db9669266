# Dependency analyser core, modelled in Dafny

The analyser accepts an uploaded Python project, as a zip archive or as a folder. When a
folder upload puts every file under one project folder, it unwraps that folder to find the
project root. After a zip upload the saved archive lies beside the extracted entries, so the
upload directory holds a visible file and stays the root. It then builds a directed graph
of the project:

- one node per folder and per file;
- containment edges from each folder to what it holds;
- one shared `dependency` node per top-level module that some `.py` file imports, with an
  edge from each importing file.

From that graph it derives three views:

- the filesystem-only subgraph;
- a search index keyed by dependency name and by file basename;
- the neighbourhood of one node.

It also renders numbered reports of the tree, either as indented text or as a nested
dictionary.

This project models that core on an in-memory directory tree (`FsTree.Entry`). Each file
carries what the Python parser made of its text (`FsTree.Parse`): its import statements, or
a failure. The modules are:

- `Text`: the string operations Python supplies. These are `split`/`rsplit`, `basename`,
  `replace`, `sorted` on strings, decimal rendering of counters, and `lower`.
- `ImportExtraction`: `get_imports_for_file`.
- `EffectiveRoot`: `_get_effective_root`.
- `Validators`: `allowed_file`, and the `..` component check on uploaded relative paths.
- `DependencyGraph`: `build_full_dependency_graph`. It is written as the two `os.walk`
  loops of the source, proved equal to a specification graph `FullGraph`.
- `GraphProperties`: what the built graph guarantees. This covers how ids are formed, which
  entries become nodes and with which type, the containment tree, pruning, and import edges.
- `GraphViews`: the filesystem subgraph, the search map and the analyse handler's
  neighbourhood. Each is a method with its loops, proved equal to a specification function,
  and the lemmas relate these functions to `FullGraph`.
- `Reports`: `generate_numbered_report` and `generate_json_report_recursive`, including a
  proof that the text report is a rendering of the dictionary report.

## Model

| member | source | states |
|---|---|---|
| Text.Head | plastic_app/app.py:41 | `split('.')[0]`: the result holds no separator, is a prefix of the input, and ends where the input ends or at its first separator |
| Text.Tail | plastic_app/app.py:32 | `rsplit('.', 1)[-1]`: the result holds no separator, is a suffix of the input, and starts at its start or right after its last separator |
| Text.HeadOf | plastic_app/app.py:41 | the first segment of `a` or of `a.rest` is `a` when `a` has no separator |
| Text.Basename | plastic_app/app.py:201 | `os.path.basename` of an id is a '/'-free suffix of it |
| Text.ChildNames | plastic_app/app.py:57 | joining an id and a name with '/' gives a path whose basename is the name and whose parent is the id |
| Text.Normalize | plastic_app/app.py:55-60 | `.replace('\\', '/')` keeps the length, turns every backslash into '/' and keeps every other character |
| Text.Sort | plastic_app/app.py:46 | `sorted` gives a strictly increasing sequence with exactly the input's elements |
| Text.SortedUnique | plastic_app/app.py:46 | two strictly sorted sequences with the same elements are equal, so the sorted output depends only on the element set |
| Text.LessTotal | plastic_app/app.py:84 | string order is total on different strings (with LessIrreflexive, LessAsymmetric and LessTransitive: a strict total order) |
| Text.NatToString | plastic_app/app.py:91 | a counter renders as a non-empty digit string without a leading zero |
| Text.NatToStringValue | plastic_app/app.py:91 | reading the rendered digits back gives the counter |
| Text.Lower | plastic_app/app.py:32 | `lower()` keeps the length and lower-cases each ASCII capital |
| FsTree.Find | plastic_app/app.py:88 | the entry `os.path.join(current_path, n)` denotes exists exactly when some entry is named `n`, and is the first such entry |
| ImportExtraction.Imports | plastic_app/app.py:34-46 | the returned list is strictly sorted; a failed read or parse gives `[]`; otherwise it holds exactly the contributed names |
| ImportExtraction.ImportSetOfMembers | plastic_app/app.py:39-43 | a name is collected exactly when some statement contributes it |
| ImportExtraction.GetImportsForFile | plastic_app/app.py:34-46 | the method returns `Imports(p)` |
| ImportExtraction.CollectImports | plastic_app/app.py:39-43 | the `ast.walk` loop collects exactly the set of contributed names |
| ImportExtraction.AddAliases | plastic_app/app.py:40-41 | the alias loop adds the first dotted segment of every alias |
| ImportExtraction.SortedList | plastic_app/app.py:46 | `sorted(list(imports))` is strictly sorted and holds exactly the set's elements |
| ImportExtraction.DottedImport | plastic_app/app.py:41 | `import a` and `import a.b.c` both make `a` an import of the file |
| ImportExtraction.DottedFromImport | plastic_app/app.py:43 | `from a import x` and `from a.b import x` both make `a` an import of the file |
| ImportExtraction.RelativeImportContributesNothing | plastic_app/app.py:43 | a `from . import x` statement (no module) leaves the import list unchanged |
| ImportExtraction.ImportsOrderIndependent | plastic_app/app.py:39 | the order in which the statements are visited does not change the result |
| ImportExtraction.ImportSetOfAppend | plastic_app/app.py:39-43 | the names of two runs of statements are the union of each run's names |
| EffectiveRoot.Visible | plastic_app/app.py:24 | the visible entries are exactly those not starting with '.' and not named `__MACOSX` |
| EffectiveRoot.VisibleAppend | plastic_app/app.py:24 | the filter keeps listing order: filtering a concatenation is the concatenation of the filtered parts |
| EffectiveRoot.VisibleCount | plastic_app/app.py:24-25 | `len(visible_items)` is the number of visible positions in the listing, entries with equal names counted separately |
| EffectiveRoot.VisibleFileStops | plastic_app/app.py:24-28 | a directory holding a visible file is its own effective root, as the upload directory after a zip upload is |
| EffectiveRoot.FindFirstVisible | plastic_app/app.py:25-26 | joining the single visible name reaches that entry |
| EffectiveRoot.GetEffectiveRoot | plastic_app/app.py:20-29 | the loop ends at `EffectiveRootOf(base)`; the returned path of visible names leads from `base` to it |
| EffectiveRoot.EffectiveRootStops | plastic_app/app.py:25-28 | at the effective root, the visible count is not one or the single visible entry is not a directory |
| EffectiveRoot.SingleWrapperUnwrapped | plastic_app/app.py:22-28 | a root whose only visible entry is a directory with several visible entries resolves to that directory |
| EffectiveRoot.SeveralEntriesStay | plastic_app/app.py:25-29 | a root with several visible entries is its own effective root |
| Validators.AllowedFile | plastic_app/app.py:31-32 | accepted exactly when the name has at least four characters, a '.' fourth from the end, and a tail that lower-cases to `zip` |
| Validators.ExtensionIsSuffix | plastic_app/app.py:32 | an extension lower-casing to `zip` is the last three characters, preceded by '.' |
| Validators.SuffixIsExtension | plastic_app/app.py:32 | a name ending in '.' and three characters lower-casing to `zip` has those three characters as its `rsplit` extension |
| Validators.Split | plastic_app/app.py:172 | `split(sep)` gives a non-empty list of separator-free pieces that join back to the input |
| Validators.ParentSegmentAt | plastic_app/app.py:172 | a path is rejected exactly when it has a `..` component: two dots bounded by the ends of the path or by separators |
| Validators.SingleComponent | plastic_app/app.py:172 | a path without separators has a `..` component exactly when it is `..` |
| Validators.FirstComponent | plastic_app/app.py:172 | a `..` component of `h/rest` is `h` itself or a `..` component of `rest` |
| DependencyGraph.KeptDirs | plastic_app/app.py:53 | the pruned `dirnames` are exactly the directories not starting with '.' and not named `__pycache__` |
| DependencyGraph.FilesOf | plastic_app/app.py:59 | `filenames` are exactly the files of the directory, none filtered |
| DependencyGraph.WalkListings | plastic_app/app.py:52-53 | every step of the walk lists only pruned-in directories and files of its directory |
| DependencyGraph.AddImports | plastic_app/app.py:76-78 | each import becomes a `dependency` node (overwriting any type) with an edge from the file |
| DependencyGraph.AddStepNodes | plastic_app/app.py:56-62 | one walk step adds a `folder` node per kept directory and a typed node per file |
| DependencyGraph.AddStepEdges | plastic_app/app.py:67-78 | one walk step adds the containment edges of its entries and the import edges and nodes of its `.py` files |
| DependencyGraph.AddFsNodes | plastic_app/app.py:49-62 | the first walk gives the root `folder` node plus every visited entry's node |
| DependencyGraph.AddEdges | plastic_app/app.py:63-78 | the second walk adds every containment edge, every import edge and a `dependency` node per imported name |
| DependencyGraph.BuildFullDependencyGraph | plastic_app/app.py:48-79 | the returned graph is `FullGraph(root)` |
| GraphProperties.WalkVisits | plastic_app/app.py:52-62 | an entry is visited exactly when it is a listed entry of the root or is visited below a subdirectory the walk descends into |
| GraphProperties.VisitFacts | plastic_app/app.py:55-60 | in a real tree every visit's id is its parent's id, '/', and its name, and lies below the walked directory |
| GraphProperties.VisitsInjective | plastic_app/app.py:55-60 | in a real tree no two visits share an id |
| GraphProperties.BackslashNamesMerge | plastic_app/app.py:57-60 | a name holding a backslash gets the same id as the path through a directory of the part before it |
| GraphProperties.IdOfTopEntry | plastic_app/app.py:57-60 | a visit whose id is the root id, '/' and a name is an entry of the root |
| GraphProperties.IdOfChildEntry | plastic_app/app.py:55-60 | a visit whose id is a visited directory's id, '/' and a name is an entry of that directory |
| GraphProperties.ParentVisited | plastic_app/app.py:52-55 | every visit's parent is the root or a visited directory that the walk descended into |
| GraphProperties.SubtreeVisited | plastic_app/app.py:52-53 | the walk of a visited, descended directory is part of the whole walk |
| GraphProperties.RootIdUnique | plastic_app/app.py:50-60 | no entry's id equals the root id, and every entry's id contains '/' |
| GraphProperties.VisitIds | plastic_app/app.py:55-60 | a visit's id has the parent's id as parent and the entry's name as basename |
| GraphProperties.IdsDetermineVisits | plastic_app/app.py:55-62 | two visits with the same id are the same visit |
| GraphProperties.FsNodeTypes | plastic_app/app.py:50-62 | the filesystem nodes are the root (a `folder`) and one node per visit, typed by its entry |
| GraphProperties.FullGraphNodeSet | plastic_app/app.py:48-79 | the node set is the root, every visited entry and every imported name |
| GraphProperties.FullGraphNodeTypes | plastic_app/app.py:58-77 | imported names are `dependency` nodes even when they equal a filesystem id; other nodes keep their entry's type |
| GraphProperties.FullGraphClosed | plastic_app/app.py:63-78 | every edge joins two nodes of the graph |
| GraphProperties.ContainmentOfEveryVisit | plastic_app/app.py:63-72 | every visited entry has an edge from its parent id |
| GraphProperties.ContainmentShape | plastic_app/app.py:63-72 | every containment edge runs from the parent id of its target, from the root or a descended directory, and never into the root |
| GraphProperties.FilesHaveNoChildren | plastic_app/app.py:70-72 | no visit has a file as its parent |
| GraphProperties.PythonFileSuccessors | plastic_app/app.py:70-78 | a `.py` file's successors are exactly its imports |
| GraphProperties.ImportReachesDependency | plastic_app/app.py:76-78 | each import of a visited `.py` file is a `dependency` node with an edge from the file |
| GraphProperties.WalkPrunes | plastic_app/app.py:52-53 | every visited entry is a file or a non-pruned directory, and its parent is the root or a descended directory |
| GraphProperties.WalkComplete | plastic_app/app.py:52-62 | every file and non-pruned directory of the root or of a descended directory is visited |
| GraphProperties.PrunedTopDirectoryAbsent | plastic_app/app.py:53 | no visit has the id of a pruned directory of the root |
| GraphProperties.PrunedDirectoryAbsent | plastic_app/app.py:64 | no visit has the id of a pruned directory inside a descended directory |
| GraphViews.FsView | plastic_app/app.py:182-188 | the subgraph's nodes are exactly the non-`dependency` nodes, with their types; its edges are exactly the edges between two of them; it is closed |
| GraphViews.FilesystemSubgraph | plastic_app/app.py:182-188 | the two loops build `FsView(g)` |
| GraphViews.AddToList | plastic_app/app.py:194-196 | creating a missing key and appending gives `Append`, which keeps an existing key's tag |
| GraphViews.IndexDependencies | plastic_app/app.py:191-196 | the edge loop builds `DependencyPass` over all edges |
| GraphViews.IndexFiles | plastic_app/app.py:198-204 | the node loop builds `FilePass` over all nodes, starting from the edge loop's map |
| GraphViews.BuildSearchMap | plastic_app/app.py:190-204 | the two loops build `SearchView(g)` |
| GraphViews.SearchViewIndexes | plastic_app/app.py:190-204 | every edge into a `dependency` node lists its source under the dependency tag; every file is listed under its basename |
| GraphViews.SearchViewOnlyIndexes | plastic_app/app.py:190-204 | no list is empty; every listed id comes from an edge into that dependency key or is a file with that basename |
| GraphViews.SearchViewKinds | plastic_app/app.py:190-204 | a key has the dependency tag exactly when some edge enters it and it is a `dependency` node; otherwise the file pass created it |
| GraphViews.SearchViewSkips | plastic_app/app.py:190-204 | a non-file node with no edge into a `dependency` node is listed nowhere |
| GraphViews.NeighbourhoodView | plastic_app/app.py:227-233 | a missing id is a not-found error; otherwise the node and its `dependency` successors with their types, one edge to each, closed |
| GraphViews.AnalyzeNode | plastic_app/app.py:226-233 | the successor loop builds `NeighbourhoodView(g, id)` |
| GraphViews.DependencyNodesAreImports | plastic_app/app.py:58-77 | a node of the full graph is a `dependency` node exactly when some file imports its name |
| GraphViews.FsNodesNeverDependency | plastic_app/app.py:58-62 | no filesystem node has the `dependency` type |
| GraphViews.FilesystemEdgesAreContainment | plastic_app/app.py:182-188 | every edge of the filesystem subgraph of the full graph is a containment edge |
| GraphViews.FsViewOfFullGraph | plastic_app/app.py:182-188 | imported names are dropped; other visits and the root keep their types; containment edges between kept nodes survive |
| GraphViews.FolderReachesNoDependency | plastic_app/app.py:67-78 | a folder has no edge to a `dependency` node when imported names hold no '/' |
| GraphViews.RootReachesNoDependency | plastic_app/app.py:67-78 | the root has no edge to a `dependency` node when imported names hold no '/' |
| GraphViews.SearchFindsImporters | plastic_app/app.py:191-196 | every importing file is listed under its import, which carries the dependency tag |
| GraphViews.SearchFindsFiles | plastic_app/app.py:198-204 | every file whose id is not an imported name is listed under its name |
| GraphViews.SearchSkipsFolders | plastic_app/app.py:190-204 | folders are listed nowhere |
| GraphViews.SearchSkipsRoot | plastic_app/app.py:190-204 | the root is listed nowhere |
| GraphViews.NeighbourhoodOfImporter | plastic_app/app.py:227-233 | a node whose successors are all `dependency` nodes is shown with all of them and an edge to each |
| GraphViews.NeighbourhoodOfSink | plastic_app/app.py:227-233 | a node with no `dependency` successor is shown alone, without edges |
| GraphViews.NeighbourhoodOfPythonFile | plastic_app/app.py:227-233 | analysing a `.py` file shows the file and exactly its imports, with one edge to each |
| GraphViews.NeighbourhoodOfFolder | plastic_app/app.py:227-233 | analysing a folder shows the folder alone, without edges |
| Reports.VisibleNames | plastic_app/app.py:84 | the listed names are exactly the entry names not starting with '.' |
| Reports.PyNames | plastic_app/app.py:87 | `py_files` holds exactly the listed names ending in `.py` |
| Reports.DirNames | plastic_app/app.py:88 | `dirs` holds exactly the listed names that are directories |
| Reports.PyNamesSorted | plastic_app/app.py:87 | filtering a sorted listing keeps `py_files` sorted |
| Reports.DirNamesSorted | plastic_app/app.py:88 | filtering a sorted listing keeps `dirs` sorted |
| Reports.ReadItemImports | plastic_app/app.py:95-96 | a `.py` item's file imports; nothing for a directory or another name |
| Reports.Indent | plastic_app/app.py:93 | the indent is `4 * level` spaces |
| Reports.ImportLines | plastic_app/app.py:98-103 | import `j` is on line `j` with key `item_prefix + j + "."`, one level deeper |
| Reports.NumberImports | plastic_app/app.py:98-103 | the import loop gives `ImportLines` |
| Reports.GenerateNumberedReport | plastic_app/app.py:81-107 | the counter loop gives `ReportLines` |
| Reports.ReportItem | plastic_app/app.py:91-105 | one item gives its line, its imports, and for a directory its own report one level deeper |
| Reports.ImportRecords | plastic_app/app.py:130-135 | import `j` is recorded under key `item_prefix + j + "."` with its name and the type `"import"` |
| Reports.RecordImports | plastic_app/app.py:130-135 | the import loop gives `ImportRecords` |
| Reports.GenerateJsonReport | plastic_app/app.py:109-146 | the counter loop gives `ReportTree` |
| Reports.JsonItem | plastic_app/app.py:122-143 | one item's entry has `imports` only when it has some and `files` only for a directory |
| Reports.ItemsOrder | plastic_app/app.py:84-90 | the items split into a sorted group of every visible `.py` name followed by a sorted group of every visible directory |
| Reports.PyDirectoryListedTwice | plastic_app/app.py:87-90 | a visible directory named `*.py` is listed twice |
| Reports.ItemNodesNumbered | plastic_app/app.py:120-144 | entry `k` is keyed `prefix + k + "."` and named after item `k` |
| Reports.ReportTreeNumbered | plastic_app/app.py:120-144 | a level's dictionary has one entry per item, the `k`-th built from item `k` under key `prefix + k + "."` |
| Reports.KeysDistinct | plastic_app/app.py:122 | different counters give different keys |
| Reports.ReportTreeKeysDistinct | plastic_app/app.py:143 | the keys of one level are pairwise different, so no entry is overwritten |
| Reports.RecordLinesAgree | plastic_app/app.py:98-103 | rendering the import records gives the text report's import lines |
| Reports.ReportsAgree | plastic_app/app.py:81-146 | rendering the dictionary report depth-first gives the text report, line for line |

## Left out

- HTTP, Flask routes, sessions, `jsonify`, file saving, zip extraction, temporary directories, clean-up and logging are not modelled. The model starts from the extracted tree.
- The Python parser is not modelled. A file is given as the import statements its syntax tree contains, or as a parse failure.
- Reading files, `os.listdir`, `os.walk` and `os.path.isdir` are replaced by the in-memory tree `FsTree.Entry`.
- networkx is modelled as a map of node types and a set of edges. Its iteration order and `node_link_data` serialisation are left out.
- `FileNotFoundError` in the two report functions is not modelled. The model lists only directories that exist, so that branch cannot be taken.
- Reports.GenerateJsonReport: the `level` argument is dropped, because it never reaches the dictionary.
- Reports.GenerateJsonReport: the report is an ordered list of entries. The key order `jsonify` chooses when it serialises a dictionary is not modelled.
- GraphViews.BuildSearchMap: each key's node list is a set. The order of the ids and the chance of repeats are not captured; they follow networkx iteration order.
- Text.Lower: only ASCII capitals are folded, not the rest of Unicode.
- Text.Sort: it is meant for lists of distinct strings (directory names, set elements), where it is exact. Repeated elements would be collapsed.
- DependencyGraph.BuildFullDependencyGraph: `os.walk` order within a directory follows the order of its entries. The structural lemmas assume `FsTree.WellFormed`: non-empty names, no '/' in a name, unique names in each directory, and no '\\' in a name.
- GraphProperties.VisitsInjective: a POSIX file name may hold a backslash, but the ids replace it by '/'. A file `a\b` then gets the same id as `b` inside a directory `a`, and the graph merges the two nodes (`GraphProperties.BackslashNamesMerge`). The structural lemmas exclude such names through `FsTree.WellFormed` and say nothing about trees that hold them.
- GraphViews.FolderReachesNoDependency, GraphViews.RootReachesNoDependency, GraphViews.SearchSkipsRoot: these lemmas, and the lemmas that use them, assume no imported name contains '/'. That always holds for Python module names.
- EffectiveRoot.GetEffectiveRoot: the result is a list of names joined onto the base, plus the directory they reach, not an OS path string.
- The `.`-prefix filter of the reports also drops hidden files. The reports keep `__pycache__` and `__MACOSX`; the model follows the code here.
- `setup.py` and the HTML front end are not part of this model.
