/** String helpers with the meaning Python gives them in the analyser:
    prefix and suffix tests, `split(sep)[0]`, `rsplit(sep, 1)[1]`, `os.path.basename`,
    the ordering `sorted` uses on `str`, and the decimal rendering of an `int`. */
module Text {

  predicate StartsWith(s: string, p: string) {
    |p| <= |s| && s[..|p|] == p
  }

  predicate EndsWith(s: string, x: string) {
    |x| <= |s| && s[|s| - |x|..] == x
  }

  /** `s.split(sep)[0]`: the longest prefix of `s` free of `sep`. */
  function Head(s: string, sep: char): (r: string)
    ensures sep !in r
    ensures StartsWith(s, r)
    ensures |r| == |s| || s[|r|] == sep
  {
    if s == [] || s[0] == sep then [] else [s[0]] + Head(s[1..], sep)
  }

  /** `s.rsplit(sep, 1)[-1]`: the longest suffix of `s` free of `sep`. */
  function Tail(s: string, sep: char): (r: string)
    ensures sep !in r
    ensures EndsWith(s, r)
    ensures |r| == |s| || s[|s| - |r| - 1] == sep
  {
    if s == [] || s[|s| - 1] == sep then [] else Tail(s[..|s| - 1], sep) + [s[|s| - 1]]
  }

  lemma {:induction false} HeadOf(a: string, sep: char, rest: string)
    requires sep !in a
    ensures Head(a, sep) == a
    ensures Head(a + [sep] + rest, sep) == a
  {
    if a != [] {
      assert (a + [sep] + rest)[1..] == a[1..] + [sep] + rest;
      HeadOf(a[1..], sep, rest);
    }
  }

  lemma {:induction false} TailOf(rest: string, sep: char, a: string)
    requires sep !in a
    ensures Tail(a, sep) == a
    ensures Tail(rest + [sep] + a, sep) == a
  {
    if a != [] {
      var n := |a| - 1;
      assert (rest + [sep] + a)[..|rest + [sep] + a| - 1] == rest + [sep] + a[..n];
      assert a[..n] + [a[n]] == a;
      TailOf(rest, sep, a[..n]);
    }
  }

  /** `os.path.basename` for '/'-separated identifiers. */
  function Basename(s: string): (r: string)
    ensures '/' !in r && EndsWith(s, r)
  {
    Tail(s, '/')
  }

  /** The identifier of the directory that holds `s`: everything before its last '/'. */
  function ParentId(s: string): (r: string)
    requires '/' in s
    ensures s == r + "/" + Basename(s)
  {
    var b := Tail(s, '/');
    s[..|s| - |b| - 1]
  }

  lemma ChildNames(p: string, n: string)
    requires '/' !in n
    ensures '/' in p + "/" + n
    ensures Basename(p + "/" + n) == n
    ensures ParentId(p + "/" + n) == p
  {
    assert (p + "/" + n)[|p|] == '/';
    TailOf(p, '/', n);
  }

  /** Replaces every backslash by a forward slash (`str.replace('\\', '/')`). */
  function Normalize(s: string): (r: string)
    ensures |r| == |s| && '\\' !in r
    ensures forall i :: 0 <= i < |s| ==> r[i] == (if s[i] == '\\' then '/' else s[i])
  {
    if s == [] then [] else [if s[0] == '\\' then '/' else s[0]] + Normalize(s[1..])
  }

  lemma NormalizeIdentity(s: string)
    requires '\\' !in s
    ensures Normalize(s) == s
  {
  }

  // ---------------------------------------------------------------------------
  // The order Python's `sorted` uses on strings: lexicographic by code point,
  // a proper prefix first.

  predicate Less(a: string, b: string) {
    if a == [] then b != []
    else if b == [] then false
    else a[0] < b[0] || (a[0] == b[0] && Less(a[1..], b[1..]))
  }

  lemma {:induction false} LessIrreflexive(a: string)
    ensures !Less(a, a)
  {
    if a != [] { LessIrreflexive(a[1..]); }
  }

  lemma {:induction false} LessAsymmetric(a: string, b: string)
    ensures Less(a, b) ==> !Less(b, a)
  {
    if a != [] && b != [] && a[0] == b[0] { LessAsymmetric(a[1..], b[1..]); }
  }

  lemma {:induction false} LessTransitive(a: string, b: string, c: string)
    requires Less(a, b) && Less(b, c)
    ensures Less(a, c)
  {
    if a != [] && a[0] == b[0] && b[0] == c[0] { LessTransitive(a[1..], b[1..], c[1..]); }
  }

  lemma {:induction false} LessTotal(a: string, b: string)
    requires a != b
    ensures Less(a, b) || Less(b, a)
  {
    if a != [] && b != [] && a[0] == b[0] {
      assert a == [a[0]] + a[1..] && b == [b[0]] + b[1..];
      LessTotal(a[1..], b[1..]);
    }
  }

  predicate StrictlySorted(s: seq<string>) {
    forall i, j :: 0 <= i < j < |s| ==> Less(s[i], s[j])
  }

  /** Inserts `x` into a strictly sorted sequence, keeping it strictly sorted (a present `x` is kept once). */
  function Insert(x: string, s: seq<string>): (r: seq<string>)
    ensures forall y :: y in r <==> y == x || y in s
    ensures StrictlySorted(s) ==> StrictlySorted(r)
  {
    if s == [] then [x]
    else if x == s[0] then s
    else if Less(x, s[0]) then
      InsertFront(x, s);
      [x] + s
    else
      LessTotal(x, s[0]);
      InsertBehind(x, s, Insert(x, s[1..]));
      [s[0]] + Insert(x, s[1..])
  }

  lemma InsertFront(x: string, s: seq<string>)
    requires s != [] && Less(x, s[0])
    ensures StrictlySorted(s) ==> StrictlySorted([x] + s)
  {
    if StrictlySorted(s) {
      forall j | 0 < j < |s| ensures Less(x, s[j]) {
        LessTransitive(x, s[0], s[j]);
      }
    }
  }

  lemma InsertBehind(x: string, s: seq<string>, t: seq<string>)
    requires s != [] && Less(s[0], x)
    requires StrictlySorted(s[1..]) ==> StrictlySorted(t)
    requires forall y :: y in t ==> y == x || y in s[1..]
    ensures StrictlySorted(s) ==> StrictlySorted([s[0]] + t)
  {
    if !StrictlySorted(s) { return; }
    forall j | 0 <= j < |t| ensures Less(s[0], t[j]) {
      if t[j] != x {
        assert t[j] in t;
        var k :| 0 <= k < |s[1..]| && s[1..][k] == t[j];
        assert s[k + 1] == t[j];
      }
    }
  }

  /** `sorted(...)` of a list whose elements are distinct (a directory listing, a set): strictly sorted, same elements. */
  function Sort(s: seq<string>): (r: seq<string>)
    ensures StrictlySorted(r)
    ensures forall y :: y in r <==> y in s
  {
    if s == [] then [] else Insert(s[|s| - 1], Sort(s[..|s| - 1]))
  }

  lemma SortedFirst(s: seq<string>, x: string)
    requires StrictlySorted(s) && x in s
    ensures x == s[0] || Less(s[0], x)
  {
  }

  /** Two strictly sorted sequences with the same elements are equal: `sorted` output is determined by the element set. */
  lemma {:induction false} SortedUnique(a: seq<string>, b: seq<string>)
    requires StrictlySorted(a) && StrictlySorted(b)
    requires forall y :: y in a <==> y in b
    ensures a == b
  {
    if a != [] { assert a[0] in b; }
    if b != [] { assert b[0] in a; }
    if a != [] && b != [] {
      SortedFirst(a, b[0]);
      SortedFirst(b, a[0]);
      LessAsymmetric(a[0], b[0]);
      assert a[0] == b[0];
      LessIrreflexive(a[0]);
      assert a == [a[0]] + a[1..] && b == [b[0]] + b[1..];
      forall y ensures y in a[1..] <==> y in b[1..] {
        if y in a[1..] {
          var k :| 0 <= k < |a| - 1 && a[1..][k] == y;
          assert Less(a[0], a[k + 1]);
          assert y in b && y != b[0];
        }
        if y in b[1..] {
          var k :| 0 <= k < |b| - 1 && b[1..][k] == y;
          assert Less(b[0], b[k + 1]);
          assert y in a && y != a[0];
        }
      }
      SortedUnique(a[1..], b[1..]);
    }
  }

  // ---------------------------------------------------------------------------
  // Decimal rendering of a counter (an f-string `{counter}`).

  function Digit(d: nat): (c: char)
    requires d < 10
    ensures '0' <= c <= '9' && c as int - '0' as int == d
  {
    "0123456789"[d]
  }

  function DecimalValue(s: string): int {
    if s == [] then 0 else DecimalValue(s[..|s| - 1]) * 10 + (s[|s| - 1] as int - '0' as int)
  }

  /** Decimal digits of `n`, most significant first, with no leading zero. */
  function NatToString(n: nat): (r: string)
    ensures r != [] && (forall i :: 0 <= i < |r| ==> '0' <= r[i] <= '9')
    ensures r[0] != '0' || n == 0
  {
    if n < 10 then [Digit(n)] else NatToString(n / 10) + [Digit(n % 10)]
  }

  /** Reading the rendered digits back gives the number. */
  lemma {:induction false} NatToStringValue(n: nat)
    ensures DecimalValue(NatToString(n)) == n
  {
    if n >= 10 {
      NatToStringValue(n / 10);
      var s := NatToString(n);
      assert s[..|s| - 1] == NatToString(n / 10);
    }
  }

  lemma NatToStringInjective(m: nat, n: nat)
    requires NatToString(m) == NatToString(n)
    ensures m == n
  {
    NatToStringValue(m);
    NatToStringValue(n);
  }

  // ---------------------------------------------------------------------------
  // ASCII case folding (`str.lower()` on the characters that matter here).

  function LowerChar(c: char): (r: char)
    ensures 'A' <= c <= 'Z' ==> r as int == c as int + 32
    ensures !('A' <= c <= 'Z') ==> r == c
  {
    if 'A' <= c <= 'Z' then (c as int + 32) as char else c
  }

  function Lower(s: string): (r: string)
    ensures |r| == |s| && forall i :: 0 <= i < |s| ==> r[i] == LowerChar(s[i])
  {
    if s == [] then [] else [LowerChar(s[0])] + Lower(s[1..])
  }
}
