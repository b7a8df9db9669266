/** Import extraction (`get_imports_for_file`): the sorted, de-duplicated
    top-level module names a Python file imports. */
module ImportExtraction {
  import opened Wrappers
  import opened Text
  import opened FsTree

  /** The top-level names one statement contributes: the first dotted segment
      of every `import` alias, and of a `from` module when there is one
      (a missing or empty module is false in Python and contributes nothing). */
  function Contributions(s: Stmt): set<string> {
    match s
    case Import(names) => set n | n in names :: Head(n, '.')
    case ImportFrom(m) => if m.Some? && m.value != [] then {Head(m.value, '.')} else {}
  }

  /** Every name some statement of `stmts` contributes. */
  function ImportSetOf(stmts: seq<Stmt>): set<string> {
    if stmts == [] then {} else ImportSetOf(stmts[..|stmts| - 1]) + Contributions(stmts[|stmts| - 1])
  }

  /** A name is collected exactly when some statement contributes it. */
  lemma {:induction false} ImportSetOfMembers(stmts: seq<Stmt>, x: string)
    ensures x in ImportSetOf(stmts) <==> exists i :: 0 <= i < |stmts| && x in Contributions(stmts[i])
  {
    if stmts != [] {
      var n := |stmts| - 1;
      ImportSetOfMembers(stmts[..n], x);
      if x in ImportSetOf(stmts) && x !in Contributions(stmts[n]) {
        var i :| 0 <= i < n && x in Contributions(stmts[..n][i]);
        assert stmts[..n][i] == stmts[i];
      }
      if exists i :: 0 <= i < |stmts| && x in Contributions(stmts[i]) {
        var i :| 0 <= i < |stmts| && x in Contributions(stmts[i]);
        if i < n { assert stmts[..n][i] == stmts[i]; }
      }
    }
  }

  /** Every element of `s`, in some order. */
  ghost function ListOf(s: set<string>): (r: seq<string>)
    ensures forall x :: x in r <==> x in s
  {
    if s == {} then []
    else
      var x :| x in s;
      ListOf(s - {x}) + [x]
  }

  /** What `get_imports_for_file` returns for a file: `[]` when reading or
      parsing failed, otherwise the contributed names, each once, in
      increasing order. */
  ghost function Imports(p: Parse): (r: seq<string>)
    ensures StrictlySorted(r)
    ensures p.Unparsable? ==> r == []
    ensures p.Parsed? ==> forall x :: x in r <==> x in ImportSetOf(p.imports)
  {
    if p.Unparsable? then [] else Sort(ListOf(ImportSetOf(p.imports)))
  }

  /** `sorted(list(imports))`: the set's elements in increasing order. */
  method SortedList(s: set<string>) returns (r: seq<string>)
    ensures StrictlySorted(r)
    ensures forall x :: x in r <==> x in s
  {
    r := [];
    var rest := s;
    while rest != {}
      invariant rest <= s
      invariant StrictlySorted(r)
      invariant forall x :: x in r <==> x in s && x !in rest
      decreases rest
    {
      var x :| x in rest;
      r := Insert(x, r);
      rest := rest - {x};
    }
  }

  /** `get_imports_for_file`: collect the names into a set while visiting the
      statements, then sort them; a parse or read failure gives `[]`. */
  method GetImportsForFile(p: Parse) returns (r: seq<string>)
    ensures r == Imports(p)
  {
    var imports: set<string> := {};
    if p.Parsed? {
      imports := CollectImports(p.imports);
    }
    r := SortedList(imports);
    SortedUnique(r, Imports(p));
  }

  /** The `ast.walk` loop: the names every statement contributes. */
  method CollectImports(stmts: seq<Stmt>) returns (imports: set<string>)
    ensures imports == ImportSetOf(stmts)
  {
    imports := {};
    for i := 0 to |stmts|
      invariant imports == ImportSetOf(stmts[..i])
    {
      ImportSetOfSnoc(stmts, i);
      match stmts[i]
      case Import(names) =>
        imports := AddAliases(imports, names);
      case ImportFrom(m) =>
        if m.Some? && m.value != [] {
          imports := imports + {Head(m.value, '.')};
        }
    }
    assert stmts[..|stmts|] == stmts;
  }

  lemma ImportSetOfSnoc(stmts: seq<Stmt>, i: nat)
    requires i < |stmts|
    ensures ImportSetOf(stmts[..i + 1]) == ImportSetOf(stmts[..i]) + Contributions(stmts[i])
  {
    assert stmts[..i + 1][..i] == stmts[..i];
  }

  /** The `for alias in node.names` loop of an `import` statement. */
  method AddAliases(before: set<string>, names: seq<string>) returns (imports: set<string>)
    ensures imports == before + Contributions(Import(names))
  {
    imports := before;
    for j := 0 to |names|
      invariant imports == before + set n | n in names[..j] :: Head(n, '.')
    {
      imports := imports + {Head(names[j], '.')};
      assert names[..j + 1] == names[..j] + [names[j]];
      assert (set n | n in names[..j + 1] :: Head(n, '.')) == (set n | n in names[..j] :: Head(n, '.')) + {Head(names[j], '.')};
    }
    assert names[..|names|] == names;
  }

  // ---------------------------------------------------------------------------
  // What a statement contributes.

  /** `import a.b.c` (or plain `import a`) contributes `a`. */
  lemma DottedImport(stmts: seq<Stmt>, i: nat, k: nat, a: string, rest: string)
    requires i < |stmts| && stmts[i].Import? && k < |stmts[i].names|
    requires '.' !in a
    requires stmts[i].names[k] == a || stmts[i].names[k] == a + "." + rest
    ensures a in Imports(Parsed(stmts))
  {
    HeadOf(a, '.', rest);
    assert Head(stmts[i].names[k], '.') in Contributions(stmts[i]);
    ImportSetOfMembers(stmts, a);
  }

  /** `from a.b import c` (or `from a import c`) contributes `a`. */
  lemma DottedFromImport(stmts: seq<Stmt>, i: nat, a: string, rest: string)
    requires i < |stmts| && stmts[i].ImportFrom? && stmts[i].from.Some?
    requires a != [] && '.' !in a
    requires stmts[i].from.value == a || stmts[i].from.value == a + "." + rest
    ensures a in Imports(Parsed(stmts))
  {
    HeadOf(a, '.', rest);
    assert a in Contributions(stmts[i]);
    ImportSetOfMembers(stmts, a);
  }

  /** A relative `from . import x` (no module) contributes nothing. */
  lemma RelativeImportContributesNothing(stmts: seq<Stmt>)
    ensures Imports(Parsed(stmts + [ImportFrom(None)])) == Imports(Parsed(stmts))
  {
    var s := stmts + [ImportFrom(None)];
    assert s[..|s| - 1] == stmts && s[|s| - 1] == ImportFrom(None);
    assert Contributions(ImportFrom(None)) == {};
    assert ImportSetOf(s) == ImportSetOf(stmts);
  }

  /** The order in which the syntax tree is walked does not matter. */
  lemma ImportsOrderIndependent(s1: seq<Stmt>, s2: seq<Stmt>)
    ensures Imports(Parsed(s1 + s2)) == Imports(Parsed(s2 + s1))
  {
    ImportSetOfAppend(s1, s2);
    ImportSetOfAppend(s2, s1);
    assert ImportSetOf(s1) + ImportSetOf(s2) == ImportSetOf(s2) + ImportSetOf(s1);
    assert ImportSetOf(s1 + s2) == ImportSetOf(s2 + s1);
  }

  /** The names of two runs of statements are those of each run together. */
  lemma {:induction false} ImportSetOfAppend(a: seq<Stmt>, b: seq<Stmt>)
    ensures ImportSetOf(a + b) == ImportSetOf(a) + ImportSetOf(b)
  {
    if b == [] {
      assert a + b == a;
    } else {
      var n := |b| - 1;
      ImportSetOfAppend(a, b[..n]);
      var ab := a + b;
      assert ab[..|ab| - 1] == a + b[..n];
      assert ab[|ab| - 1] == b[n];
      calc {
        ImportSetOf(ab);
        ImportSetOf(a + b[..n]) + Contributions(b[n]);
        ImportSetOf(a) + ImportSetOf(b[..n]) + Contributions(b[n]);
        ImportSetOf(a) + ImportSetOf(b);
      }
    }
  }
}
