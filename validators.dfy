/** The two input checks of the upload service: `allowed_file` and the
    rejection of uploaded relative paths that contain a `..` component. */
module Validators {
  import opened Text

  const AllowedExtensions: set<string> := {"zip"}

  /** `allowed_file`: the name has a '.', and what follows its last '.',
      lower-cased, is an allowed extension. */
  function AllowedFile(filename: string): (r: bool)
    ensures r <==> |filename| >= 4 && filename[|filename| - 4] == '.' && Lower(filename[|filename| - 3..]) == "zip"
  {
    ExtensionIsSuffix(filename);
    SuffixIsExtension(filename);
    '.' in filename && Lower(Tail(filename, '.')) in AllowedExtensions
  }

  lemma ExtensionIsSuffix(f: string)
    ensures '.' in f && Lower(Tail(f, '.')) == "zip" ==> |f| >= 4 && f[|f| - 4] == '.' && Lower(f[|f| - 3..]) == "zip"
  {
    var ext := Tail(f, '.');
    if '.' in f && Lower(ext) == "zip" {
      assert |ext| == |f| ==> ext == f;
      assert f[|f| - 3..] == ext;
    }
  }

  lemma SuffixIsExtension(f: string)
    ensures |f| >= 4 && f[|f| - 4] == '.' && Lower(f[|f| - 3..]) == "zip" ==> '.' in f && Tail(f, '.') == f[|f| - 3..]
  {
    var n := |f|;
    if n >= 4 && f[n - 4] == '.' && Lower(f[n - 3..]) == "zip" {
      var last := f[n - 3..];
      ZipHasNoDot(last);
      assert f == f[..n - 4] + ['.'] + last;
      TailOf(f[..n - 4], '.', last);
      assert f[n - 4] in f;
    }
  }

  /** A name that lower-cases to "zip" has no '.'. */
  lemma ZipHasNoDot(x: string)
    requires Lower(x) == "zip"
    ensures '.' !in x
  {
    forall k | 0 <= k < |x| ensures x[k] != '.' {
      assert LowerChar(x[k]) == "zip"[k];
    }
  }

  /** Joins `parts` with `sep` between consecutive parts. */
  function Join(parts: seq<string>, sep: char): string
    requires parts != []
  {
    if |parts| == 1 then parts[0] else parts[0] + [sep] + Join(parts[1..], sep)
  }

  /** `s.split(sep)`: the maximal `sep`-free pieces, in order, including empty ones. */
  function Split(s: string, sep: char): (r: seq<string>)
    ensures r != []
    ensures forall i :: 0 <= i < |r| ==> sep !in r[i]
    ensures Join(r, sep) == s
    decreases |s|
  {
    var h := Head(s, sep);
    if |h| == |s| then
      assert h == s;
      [s]
    else
      var rest := Split(s[|h| + 1..], sep);
      assert s == h + [sep] + s[|h| + 1..];
      [h] + rest
  }

  /** The check of an uploaded relative path: `'..' in relative_path.split(os.path.sep)` (POSIX separator). */
  function HasParentSegment(path: string): bool {
    ".." in Split(path, '/')
  }

  /** A `..` component at position `i`: two dots bounded by the ends of the path or by separators. */
  predicate DotDotAt(p: string, i: int) {
    0 <= i && i + 2 <= |p| && p[i] == '.' && p[i + 1] == '.' &&
    (i == 0 || p[i - 1] == '/') && (i + 2 == |p| || p[i + 2] == '/')
  }

  /** Without separators, the only `..` component is the whole path being `..`. */
  lemma SingleComponent(p: string)
    requires '/' !in p
    ensures (exists i :: DotDotAt(p, i)) <==> p == ".."
  {
    if p == ".." { assert DotDotAt(p, 0); }
    assert forall k :: 0 <= k < |p| ==> p[k] != '/';
    forall i | DotDotAt(p, i) ensures p == ".." {
      assert i == 0 && i + 2 == |p|;
    }
  }

  /** A `..` component of `h/rest` is `h` itself or a `..` component of `rest`. */
  lemma FirstComponent(h: string, rest: string)
    requires '/' !in h
    ensures (exists i :: DotDotAt(h + "/" + rest, i)) <==> h == ".." || exists j :: DotDotAt(rest, j)
  {
    var p := h + "/" + rest;
    var m := |h| + 1;
    assert p[|h|] == '/';
    if h == ".." { assert DotDotAt(p, 0); }
    if exists j :: DotDotAt(rest, j) {
      var j :| DotDotAt(rest, j);
      assert p[m + j] == rest[j] && p[m + j + 1] == rest[j + 1];
      assert DotDotAt(p, j + m);
    }
    assert forall k :: 0 <= k < |h| ==> p[k] == h[k] && h[k] != '/';
    forall i | DotDotAt(p, i) ensures h == ".." || DotDotAt(rest, i - m) {
      if i < m {
        assert i == 0 && i + 2 == |h|;
        assert h == p[i..i + 2];
      } else {
        assert rest[i - m] == p[i] && rest[i - m + 1] == p[i + 1];
      }
    }
  }

  /** A path is rejected exactly when a `..` component appears somewhere in it. */
  lemma {:induction false} ParentSegmentAt(p: string)
    ensures HasParentSegment(p) <==> exists i :: DotDotAt(p, i)
    decreases |p|
  {
    var h := Head(p, '/');
    if |h| == |p| {
      assert h == p;
      SingleComponent(p);
    } else {
      var rest := p[|h| + 1..];
      assert p == h + "/" + rest;
      assert Split(p, '/') == [h] + Split(rest, '/');
      ParentSegmentAt(rest);
      FirstComponent(h, rest);
    }
  }
}
