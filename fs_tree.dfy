/** Option and Result, for the analyser's absent values and reported errors. */
module Wrappers {
  datatype Option<+T> = None | Some(value: T)

  datatype Result<+T, +E> = Success(value: T) | Failure(error: E)
}

/** The uploaded project as the analyser sees it: an in-memory directory tree
    standing for what `os.listdir`, `os.walk` and `os.path.isdir` report, where
    every file carries what the Python parser made of its text. */
module FsTree {
  import opened Wrappers
  import opened Text

  /** One import statement found by walking a module's syntax tree:
      `import a.b, c` or `from m import x` (`from` is `None` for `from . import x`). */
  datatype Stmt = Import(names: seq<string>) | ImportFrom(from: Option<string>)

  /** The outcome of reading and parsing a file: the import statements that
      `ast.walk` visits (in any order), or a failure (unreadable file, bad
      encoding, syntax error, or a directory opened as a file). */
  datatype Parse = Parsed(imports: seq<Stmt>) | Unparsable

  /** A directory entry; `children` are in the (unspecified) `os.listdir` order. */
  datatype Entry = File(name: string, source: Parse) | Dir(name: string, children: seq<Entry>)

  /** A name the model admits as one path component. A POSIX name may hold a
      backslash, but ids replace it by '/', so `a\b` would get the id of `b`
      inside `a` (`GraphProperties.BackslashNamesMerge`); such names are excluded. */
  predicate ValidName(n: string) {
    n != [] && '/' !in n && '\\' !in n
  }

  predicate DistinctNames(ch: seq<Entry>) {
    forall i, j :: 0 <= i < j < |ch| ==> ch[i].name != ch[j].name
  }

  /** A real directory tree: names are path components and unique within a directory. */
  predicate WellFormed(e: Entry) {
    ValidName(e.name) &&
    (e.Dir? ==> DistinctNames(e.children) && forall i :: 0 <= i < |e.children| ==> WellFormed(e.children[i]))
  }

  /** The first entry called `n`: what `os.path.join(current_path, n)` denotes. */
  function Find(ch: seq<Entry>, n: string): (r: Option<Entry>)
    ensures r.Some? <==> exists i :: 0 <= i < |ch| && ch[i].name == n
    ensures r.Some? ==> r.value in ch && r.value.name == n
    ensures r.Some? ==> exists i :: 0 <= i < |ch| && ch[i] == r.value && forall j :: 0 <= j < i ==> ch[j].name != n
  {
    if ch == [] then None
    else if ch[0].name == n then Some(ch[0])
    else
      var r := Find(ch[1..], n);
      assert r.Some? ==> exists i :: 0 < i < |ch| && ch[i] == r.value && forall j :: 0 <= j < i ==> ch[j].name != n by {
        if r.Some? {
          var i :| 0 <= i < |ch[1..]| && ch[1..][i] == r.value && forall j :: 0 <= j < i ==> ch[1..][j].name != n;
          assert ch[i + 1] == r.value;
          forall j | 0 <= j < i + 1 ensures ch[j].name != n {
            if j > 0 { assert ch[j] == ch[1..][j - 1]; }
          }
        }
      }
      r
  }

  function Names(ch: seq<Entry>): (r: seq<string>)
    ensures |r| == |ch| && forall i :: 0 <= i < |ch| ==> r[i] == ch[i].name
  {
    if ch == [] then [] else Names(ch[..|ch| - 1]) + [ch[|ch| - 1].name]
  }
}
