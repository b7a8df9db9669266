/** The two outline reports of a project (`generate_numbered_report` and
    `generate_json_report_recursive`): at each level the sorted visible names,
    `.py` names first and then directories, numbered `prefix + k + "."`, each
    Python item followed by its imports numbered under it, each directory by its
    own report numbered under it. */
module Reports {
  import opened Wrappers
  import opened Text
  import opened FsTree
  import opened ImportExtraction

  // ---------------------------------------------------------------------------
  // The items of one level.

  /** The names `os.listdir` gives that do not start with '.', in listing order. */
  function VisibleNames(ch: seq<Entry>): (r: seq<string>)
    ensures forall n :: n in r <==> n in Names(ch) && !StartsWith(n, ".")
  {
    if ch == [] then []
    else
      var last := ch[|ch| - 1];
      assert Names(ch) == Names(ch[..|ch| - 1]) + [last.name];
      VisibleNames(ch[..|ch| - 1]) + (if StartsWith(last.name, ".") then [] else [last.name])
  }

  /** `items`: the visible names, sorted. */
  function ListedNames(ch: seq<Entry>): seq<string> {
    Sort(VisibleNames(ch))
  }

  /** `py_files`: the names ending in ".py", in the order of `names`. */
  function PyNames(names: seq<string>): (r: seq<string>)
    ensures forall n :: n in r <==> n in names && EndsWith(n, ".py")
  {
    if names == [] then []
    else
      var init, last := names[..|names| - 1], names[|names| - 1];
      PyNames(init) + (if EndsWith(last, ".py") then [last] else [])
  }

  /** `os.path.isdir(os.path.join(current_path, n))`. */
  predicate IsDirIn(ch: seq<Entry>, n: string) {
    Find(ch, n).Some? && Find(ch, n).value.Dir?
  }

  /** `dirs`: the names that are directories, in the order of `names`. */
  function DirNames(ch: seq<Entry>, names: seq<string>): (r: seq<string>)
    ensures forall n :: n in r <==> n in names && IsDirIn(ch, n)
  {
    if names == [] then []
    else
      var init, last := names[..|names| - 1], names[|names| - 1];
      DirNames(ch, init) + (if IsDirIn(ch, last) then [last] else [])
  }

  /** Keeping some names of a sorted sequence, in order, keeps it sorted. */
  lemma {:induction false} PyNamesSorted(names: seq<string>)
    requires StrictlySorted(names)
    ensures StrictlySorted(PyNames(names))
  {
    if names != [] {
      var init, last := names[..|names| - 1], names[|names| - 1];
      assert StrictlySorted(init);
      PyNamesSorted(init);
      assert forall n :: n in PyNames(init) ==> Less(n, last);
    }
  }

  lemma {:induction false} DirNamesSorted(ch: seq<Entry>, names: seq<string>)
    requires StrictlySorted(names)
    ensures StrictlySorted(DirNames(ch, names))
  {
    if names != [] {
      var init, last := names[..|names| - 1], names[|names| - 1];
      assert StrictlySorted(init);
      DirNamesSorted(ch, init);
      assert forall n :: n in DirNames(ch, init) ==> Less(n, last);
    }
  }

  /** `py_files + dirs`. */
  function Items(ch: seq<Entry>): seq<string> {
    PyNames(ListedNames(ch)) + DirNames(ch, ListedNames(ch))
  }

  /** What `get_imports_for_file` returns for the item `n`: the file's imports, or
      nothing when `n` is a directory (opening it fails). */
  ghost function ItemImports(ch: seq<Entry>, n: string): seq<string> {
    if Find(ch, n).Some? && Find(ch, n).value.File? then Imports(Find(ch, n).value.source) else []
  }

  /** The imports listed under an item: `get_imports_for_file` is asked only for names
      ending in ".py". */
  ghost function ImportsShown(ch: seq<Entry>, item: string): seq<string> {
    if EndsWith(item, ".py") then ItemImports(ch, item) else []
  }

  /** The `if item.endswith('.py')` branch shared by both reports. */
  method ReadItemImports(ch: seq<Entry>, item: string) returns (imports: seq<string>)
    ensures imports == ImportsShown(ch, item)
  {
    imports := [];
    if EndsWith(item, ".py") {
      var entry := Find(ch, item);
      if entry.Some? && entry.value.File? {
        imports := GetImportsForFile(entry.value.source);
      }
    }
  }

  // ---------------------------------------------------------------------------
  // The text report.

  /** `"    " * level`. */
  function Indent(level: nat): (r: string)
    ensures |r| == 4 * level && forall i :: 0 <= i < |r| ==> r[i] == ' '
  {
    if level == 0 then "" else Indent(level - 1) + "    "
  }

  /** `f"{prefix}{counter}."`. */
  function Key(prefix: string, counter: nat): string {
    prefix + NatToString(counter) + "."
  }

  /** `f"{indent}{key} {name}"`. */
  function Line(level: nat, key: string, name: string): string {
    Indent(level) + key + " " + name
  }

  /** The lines of an item's imports: import `j` numbered `key + j + "."`. */
  function ImportLines(imports: seq<string>, key: string, level: nat): (r: seq<string>)
    ensures |r| == |imports|
    ensures forall j :: 0 <= j < |imports| ==> r[j] == Line(level, Key(key, j + 1), imports[j])
  {
    if imports == [] then []
    else ImportLines(imports[..|imports| - 1], key, level) + [Line(level, Key(key, |imports|), imports[|imports| - 1])]
  }

  /** `generate_numbered_report(_, dir, prefix, level)` for a directory with entries `ch`. */
  ghost function ReportLines(ch: seq<Entry>, prefix: string, level: nat): seq<string>
    decreases ch, 2
  {
    ItemLines(ch, Items(ch), prefix, level)
  }

  /** The lines of the first `|items|` items, item `k` numbered `prefix + k + "."`. */
  ghost function ItemLines(ch: seq<Entry>, items: seq<string>, prefix: string, level: nat): seq<string>
    decreases ch, 1, |items|
  {
    if items == [] then []
    else ItemLines(ch, items[..|items| - 1], prefix, level) + OneItemLines(ch, items[|items| - 1], Key(prefix, |items|), level)
  }

  /** One item's line, its imports one level deeper if its name ends in ".py", and its
      own report one level deeper if it is a directory. */
  ghost function OneItemLines(ch: seq<Entry>, item: string, key: string, level: nat): seq<string>
    decreases ch, 0
  {
    [Line(level, key, item)] + ImportPart(ch, item, key, level)
    + (if IsDirIn(ch, item) then ReportLines(Find(ch, item).value.children, key, level + 1) else [])
  }

  /** The import lines of an item, one level deeper. */
  ghost function ImportPart(ch: seq<Entry>, item: string, key: string, level: nat): seq<string> {
    ImportLines(ImportsShown(ch, item), key, level + 1)
  }

  /** The `import_counter` loop. */
  method NumberImports(imports: seq<string>, key: string, level: nat) returns (lines: seq<string>)
    ensures lines == ImportLines(imports, key, level)
  {
    lines := [];
    var counter := 1;
    while counter <= |imports|
      invariant 1 <= counter <= |imports| + 1
      invariant lines == ImportLines(imports[..counter - 1], key, level)
    {
      lines := lines + [Indent(level) + Key(key, counter) + " " + imports[counter - 1]];
      assert imports[..counter][..counter - 1] == imports[..counter - 1];
      counter := counter + 1;
    }
    assert imports[..counter - 1] == imports;
  }

  /** `generate_numbered_report`: the `counter` loop over `py_files + dirs`. */
  method GenerateNumberedReport(ch: seq<Entry>, prefix: string, level: nat) returns (lines: seq<string>)
    ensures lines == ReportLines(ch, prefix, level)
    decreases ch, 2
  {
    var items := Items(ch);
    lines := [];
    var counter := 1;
    while counter <= |items|
      invariant 1 <= counter <= |items| + 1
      invariant lines == ItemLines(ch, items[..counter - 1], prefix, level)
    {
      var more := ReportItem(ch, items[counter - 1], Key(prefix, counter), level);
      ItemLinesSnoc(ch, items, counter, prefix, level);
      lines := lines + more;
      counter := counter + 1;
    }
    assert items[..counter - 1] == items;
  }

  lemma ItemLinesSnoc(ch: seq<Entry>, items: seq<string>, c: nat, prefix: string, level: nat)
    requires 1 <= c <= |items|
    ensures ItemLines(ch, items[..c], prefix, level)
         == ItemLines(ch, items[..c - 1], prefix, level) + OneItemLines(ch, items[c - 1], Key(prefix, c), level)
  {
    assert items[..c][..c - 1] == items[..c - 1];
  }

  /** The body of the `counter` loop for one item. */
  method ReportItem(ch: seq<Entry>, item: string, key: string, level: nat) returns (lines: seq<string>)
    ensures lines == OneItemLines(ch, item, key, level)
    decreases ch, 1
  {
    lines := [Line(level, key, item)];
    var imports := ReadItemImports(ch, item);
    var importLines := NumberImports(imports, key, level + 1);
    lines := lines + importLines;
    var entry := Find(ch, item);
    var sub := [];
    if entry.Some? && entry.value.Dir? {
      sub := GenerateNumberedReport(entry.value.children, key, level + 1);
      lines := lines + sub;
    }
    OneItemLinesShape(ch, item, key, level, importLines, sub);
  }

  lemma OneItemLinesShape(ch: seq<Entry>, item: string, key: string, level: nat, importLines: seq<string>, sub: seq<string>)
    requires importLines == ImportPart(ch, item, key, level)
    requires sub == if IsDirIn(ch, item) then ReportLines(Find(ch, item).value.children, key, level + 1) else []
    ensures OneItemLines(ch, item, key, level) == [Line(level, key, item)] + importLines + sub
  {
  }

  // ---------------------------------------------------------------------------
  // The JSON report: Python dictionaries as association lists in insertion order.

  /** `import_dict[key] = {"name": name, "type": "import"}`. */
  datatype ImportRecord = ImportRecord(key: string, name: string, kind: string)

  /** `report_dict[key] = {"name": name, "imports"?: ..., "files"?: ...}`; an absent
      `"imports"` key is `None`, an absent `"files"` key `NoFiles`. */
  datatype ReportNode = ReportNode(key: string, name: string, imports: Option<seq<ImportRecord>>, files: Files)

  /** The `"files"` key of an entry: present, holding a directory's own report, or absent. */
  datatype Files = NoFiles | Files(report: seq<ReportNode>)

  /** `import_dict`: import `j` under `key + j + "."`. */
  function ImportRecords(imports: seq<string>, key: string): (r: seq<ImportRecord>)
    ensures |r| == |imports|
    ensures forall j :: 0 <= j < |imports| ==> r[j] == ImportRecord(Key(key, j + 1), imports[j], "import")
  {
    if imports == [] then []
    else ImportRecords(imports[..|imports| - 1], key) + [ImportRecord(Key(key, |imports|), imports[|imports| - 1], "import")]
  }

  /** `generate_json_report_recursive(_, dir, prefix, level)` for a directory with entries
      `ch` (`level` does not affect the dictionary). */
  ghost function ReportTree(ch: seq<Entry>, prefix: string): seq<ReportNode>
    decreases ch, 2
  {
    ItemNodes(ch, Items(ch), prefix)
  }

  ghost function ItemNodes(ch: seq<Entry>, items: seq<string>, prefix: string): seq<ReportNode>
    decreases ch, 1, |items|
  {
    if items == [] then []
    else ItemNodes(ch, items[..|items| - 1], prefix) + [ItemNode(ch, items[|items| - 1], Key(prefix, |items|))]
  }

  /** One item's entry: `"imports"` only when its name ends in ".py" and it has some,
      `"files"` only when it is a directory. */
  ghost function ItemNode(ch: seq<Entry>, item: string, key: string): ReportNode
    decreases ch, 0
  {
    var imports := ImportsShown(ch, item);
    ReportNode(key, item,
      if imports != [] then Some(ImportRecords(imports, key)) else None,
      if IsDirIn(ch, item) then Files(ReportTree(Find(ch, item).value.children, key)) else NoFiles)
  }

  /** The `import_counter` loop filling `import_dict`. */
  method RecordImports(imports: seq<string>, key: string) returns (records: seq<ImportRecord>)
    ensures records == ImportRecords(imports, key)
  {
    records := [];
    var counter := 1;
    while counter <= |imports|
      invariant 1 <= counter <= |imports| + 1
      invariant records == ImportRecords(imports[..counter - 1], key)
    {
      records := records + [ImportRecord(Key(key, counter), imports[counter - 1], "import")];
      assert imports[..counter][..counter - 1] == imports[..counter - 1];
      counter := counter + 1;
    }
    assert imports[..counter - 1] == imports;
  }

  /** `generate_json_report_recursive`: the `counter` loop over `py_files + dirs`. */
  method GenerateJsonReport(ch: seq<Entry>, prefix: string) returns (report: seq<ReportNode>)
    ensures report == ReportTree(ch, prefix)
    decreases ch, 2
  {
    var items := Items(ch);
    report := [];
    var counter := 1;
    while counter <= |items|
      invariant 1 <= counter <= |items| + 1
      invariant report == ItemNodes(ch, items[..counter - 1], prefix)
    {
      var node := JsonItem(ch, items[counter - 1], Key(prefix, counter));
      ItemNodesSnoc(ch, items, counter, prefix);
      report := report + [node];
      counter := counter + 1;
    }
    assert items[..counter - 1] == items;
  }

  lemma ItemNodesSnoc(ch: seq<Entry>, items: seq<string>, c: nat, prefix: string)
    requires 1 <= c <= |items|
    ensures ItemNodes(ch, items[..c], prefix)
         == ItemNodes(ch, items[..c - 1], prefix) + [ItemNode(ch, items[c - 1], Key(prefix, c))]
  {
    assert items[..c][..c - 1] == items[..c - 1];
  }

  /** The body of the `counter` loop for one item. */
  method JsonItem(ch: seq<Entry>, item: string, key: string) returns (node: ReportNode)
    ensures node == ItemNode(ch, item, key)
    decreases ch, 1
  {
    node := ReportNode(key, item, None, NoFiles);
    var imports := ReadItemImports(ch, item);
    if imports != [] {
      var records := RecordImports(imports, key);
      node := node.(imports := Some(records));
    }
    var entry := Find(ch, item);
    if entry.Some? && entry.value.Dir? {
      var sub := GenerateJsonReport(entry.value.children, key);
      node := node.(files := Files(sub));
    }
  }

  // ---------------------------------------------------------------------------
  // Properties.

  /** At each level the `.py` names come first and the directories after them, each
      group sorted; every visible `.py` name and every visible directory is listed. */
  lemma ItemsOrder(ch: seq<Entry>)
    ensures exists k :: (0 <= k <= |Items(ch)| && StrictlySorted(Items(ch)[..k]) && StrictlySorted(Items(ch)[k..]) &&
      (forall n :: n in Items(ch)[..k] <==> n in Names(ch) && !StartsWith(n, ".") && EndsWith(n, ".py")) &&
      (forall n :: n in Items(ch)[k..] <==> n in Names(ch) && !StartsWith(n, ".") && IsDirIn(ch, n)))
  {
    var names := ListedNames(ch);
    var py := PyNames(names);
    PyNamesSorted(names);
    DirNamesSorted(ch, names);
    assert Items(ch)[..|py|] == py;
    assert Items(ch)[|py|..] == DirNames(ch, ListedNames(ch));
  }

  /** A directory whose name ends in ".py" is listed twice: once among the `.py` names
      and once among the directories. */
  lemma PyDirectoryListedTwice(ch: seq<Entry>, n: string)
    requires n in Names(ch) && !StartsWith(n, ".") && EndsWith(n, ".py") && IsDirIn(ch, n)
    ensures exists i, j :: 0 <= i < j < |Items(ch)| && Items(ch)[i] == n && Items(ch)[j] == n
  {
    var names := ListedNames(ch);
    assert n in VisibleNames(ch);
    assert n in names;
    var py, ds := PyNames(names), DirNames(ch, names);
    assert n in py && n in ds;
    var i, j := InBothHalves(py, ds, n);
    var items := Items(ch);
    assert items == py + ds;
    assert items[i] == n && items[j] == n;
  }

  lemma InBothHalves(py: seq<string>, ds: seq<string>, n: string) returns (i: nat, j: nat)
    requires n in py && n in ds
    ensures i < j < |py + ds| && (py + ds)[i] == n && (py + ds)[j] == n
  {
    i :| i < |py| && py[i] == n;
    var k :| 0 <= k < |ds| && ds[k] == n;
    j := |py| + k;
  }

  /** Item `k` of a level is numbered `prefix + k + "."` and carries its name. */
  lemma ItemNodesNumbered(ch: seq<Entry>, items: seq<string>, prefix: string)
    ensures |ItemNodes(ch, items, prefix)| == |items|
    ensures forall i :: 0 <= i < |items| ==>
      ItemNodes(ch, items, prefix)[i].key == Key(prefix, i + 1) && ItemNodes(ch, items, prefix)[i].name == items[i]
  {
    ItemNodesAt(ch, items, prefix);
  }

  /** The entries of one dictionary level: entry `k` is keyed `prefix + k + "."` and
      named after item `k`; its imports `j` are keyed `key + j + "."`; its files are the
      report of its directory under its own key. */
  lemma ReportTreeNumbered(ch: seq<Entry>, prefix: string)
    ensures |ReportTree(ch, prefix)| == |Items(ch)|
    ensures forall i :: 0 <= i < |Items(ch)| ==>
      ReportTree(ch, prefix)[i] == ItemNode(ch, Items(ch)[i], Key(prefix, i + 1))
  {
    ItemNodesAt(ch, Items(ch), prefix);
  }

  lemma {:induction false} ItemNodesLength(ch: seq<Entry>, items: seq<string>, prefix: string)
    ensures |ItemNodes(ch, items, prefix)| == |items|
  {
    if items != [] {
      ItemNodesLength(ch, items[..|items| - 1], prefix);
    }
  }

  lemma {:induction false} ItemNodeAt(ch: seq<Entry>, items: seq<string>, prefix: string, i: nat)
    requires i < |items|
    ensures |ItemNodes(ch, items, prefix)| == |items|
    ensures ItemNodes(ch, items, prefix)[i] == ItemNode(ch, items[i], Key(prefix, i + 1))
  {
    ItemNodesLength(ch, items, prefix);
    var init := items[..|items| - 1];
    if i < |init| {
      ItemNodeAt(ch, init, prefix, i);
      ItemNodesPrefix(ch, items, prefix, i);
    } else {
      ItemNodesSnoc(ch, items, |items|, prefix);
      assert items[..|items|] == items;
    }
  }

  /** The entries of all but the last item are those of the shorter sequence. */
  lemma ItemNodesPrefix(ch: seq<Entry>, items: seq<string>, prefix: string, i: nat)
    requires i < |items| - 1
    requires |ItemNodes(ch, items[..|items| - 1], prefix)| == |items| - 1
    ensures |ItemNodes(ch, items, prefix)| == |items|
    ensures ItemNodes(ch, items, prefix)[i] == ItemNodes(ch, items[..|items| - 1], prefix)[i]
    ensures items[i] == items[..|items| - 1][i]
  {
  }

  lemma ItemNodesAt(ch: seq<Entry>, items: seq<string>, prefix: string)
    ensures |ItemNodes(ch, items, prefix)| == |items|
    ensures forall i :: 0 <= i < |items| ==> ItemNodes(ch, items, prefix)[i] == ItemNode(ch, items[i], Key(prefix, i + 1))
  {
    ItemNodesLength(ch, items, prefix);
    forall i | 0 <= i < |items| ensures ItemNodes(ch, items, prefix)[i] == ItemNode(ch, items[i], Key(prefix, i + 1)) {
      ItemNodeAt(ch, items, prefix, i);
    }
  }

  /** Different counters give different keys, so no dictionary entry is overwritten. */
  lemma KeysDistinct(prefix: string, i: nat, j: nat)
    requires i != j
    ensures Key(prefix, i) != Key(prefix, j)
  {
    if Key(prefix, i) == Key(prefix, j) {
      var a, b := NatToString(i), NatToString(j);
      assert |a| == |b|;
      assert a == Key(prefix, i)[|prefix|..|prefix| + |a|];
      assert b == Key(prefix, j)[|prefix|..|prefix| + |b|];
      NatToStringInjective(i, j);
    }
  }

  /** The keys of one dictionary level are pairwise different. */
  lemma ReportTreeKeysDistinct(ch: seq<Entry>, prefix: string)
    ensures forall i, j :: 0 <= i < j < |ReportTree(ch, prefix)| ==> ReportTree(ch, prefix)[i].key != ReportTree(ch, prefix)[j].key
  {
    ItemNodesKeysDistinct(ch, Items(ch), prefix);
  }

  lemma ItemNodesKeysDistinct(ch: seq<Entry>, items: seq<string>, prefix: string)
    ensures forall i, j :: 0 <= i < j < |ItemNodes(ch, items, prefix)| ==> ItemNodes(ch, items, prefix)[i].key != ItemNodes(ch, items, prefix)[j].key
  {
    var nodes := ItemNodes(ch, items, prefix);
    ItemNodesNumbered(ch, items, prefix);
    forall i, j | 0 <= i < j < |nodes| ensures nodes[i].key != nodes[j].key {
      KeysDistinct(prefix, i + 1, j + 1);
    }
  }

  // ---------------------------------------------------------------------------
  // The two reports agree.

  /** The text lines of import records. */
  function RecordLines(rs: seq<ImportRecord>, level: nat): seq<string> {
    if rs == [] then [] else RecordLines(rs[..|rs| - 1], level) + [Line(level, rs[|rs| - 1].key, rs[|rs| - 1].name)]
  }

  /** The text a JSON report stands for: each entry's line, then its imports and its
      files one level deeper. */
  function Render(nodes: seq<ReportNode>, level: nat): seq<string>
    decreases nodes
  {
    if nodes == [] then []
    else
      var n := nodes[|nodes| - 1];
      Render(nodes[..|nodes| - 1], level) + [Line(level, n.key, n.name)]
      + (if n.imports.Some? then RecordLines(n.imports.value, level + 1) else [])
      + (match n.files case Files(sub) => Render(sub, level + 1) case NoFiles => [])
  }

  /** Rendering one more entry appends its lines. */
  lemma RenderSnoc(nodes: seq<ReportNode>, n: ReportNode, level: nat)
    ensures Render(nodes + [n], level) == Render(nodes, level) + Render([n], level)
  {
    assert (nodes + [n])[..|nodes|] == nodes;
    assert [n][..0] == [];
  }

  lemma {:induction false} RecordLinesAgree(imports: seq<string>, key: string, level: nat)
    ensures RecordLines(ImportRecords(imports, key), level) == ImportLines(imports, key, level)
  {
    if imports != [] {
      var rs := ImportRecords(imports, key);
      assert rs[..|rs| - 1] == ImportRecords(imports[..|imports| - 1], key);
      RecordLinesAgree(imports[..|imports| - 1], key, level);
    }
  }

  /** The flat report is the nested report written out line by line: both number every
      item and import identically. */
  lemma {:induction false} ReportsAgree(ch: seq<Entry>, prefix: string, level: nat)
    ensures Render(ReportTree(ch, prefix), level) == ReportLines(ch, prefix, level)
    decreases ch, 2
  {
    ItemsAgree(ch, Items(ch), prefix, level);
  }

  lemma {:induction false} ItemsAgree(ch: seq<Entry>, items: seq<string>, prefix: string, level: nat)
    ensures Render(ItemNodes(ch, items, prefix), level) == ItemLines(ch, items, prefix, level)
    decreases ch, 1, |items|
  {
    if items != [] {
      var init := items[..|items| - 1];
      var nodes := ItemNodes(ch, items, prefix);
      assert nodes[..|nodes| - 1] == ItemNodes(ch, init, prefix);
      ItemsAgree(ch, init, prefix, level);
      ItemAgrees(ch, items[|items| - 1], Key(prefix, |items|), level);
      RenderSnoc(nodes[..|nodes| - 1], nodes[|nodes| - 1], level);
      assert nodes == nodes[..|nodes| - 1] + [nodes[|nodes| - 1]];
    }
  }

  lemma {:induction false} ItemAgrees(ch: seq<Entry>, item: string, key: string, level: nat)
    ensures Render([ItemNode(ch, item, key)], level) == OneItemLines(ch, item, key, level)
    decreases ch, 0
  {
    var n := ItemNode(ch, item, key);
    var imports := ImportsShown(ch, item);
    RenderOne(n, level);
    RecordLinesAgree(imports, key, level + 1);
    var importPart := if n.imports.Some? then RecordLines(n.imports.value, level + 1) else [];
    assert importPart == ImportLines(imports, key, level + 1);
    assert importPart == ImportPart(ch, item, key, level);
    if IsDirIn(ch, item) {
      ReportsAgree(Find(ch, item).value.children, key, level + 1);
    }
  }

  lemma RenderOne(n: ReportNode, level: nat)
    ensures Render([n], level) ==
      [Line(level, n.key, n.name)]
      + (if n.imports.Some? then RecordLines(n.imports.value, level + 1) else [])
      + (match n.files case Files(sub) => Render(sub, level + 1) case NoFiles => [])
  {
    assert [n][..0] == [];
  }
}
