/** Effective-root resolution (`_get_effective_root`): unwrap directories whose
    only visible entry is another directory, as left behind by a folder upload
    whose files all lie under one project folder. After a zip upload the saved
    archive lies beside the extracted entries, so the upload directory holds a
    visible file and is its own effective root (`VisibleFileStops`). */
module EffectiveRoot {
  import opened Wrappers
  import opened Text
  import opened FsTree

  /** Entries that count when deciding whether to unwrap: not hidden, and not the macOS archive residue folder. */
  predicate Shown(n: string) {
    !StartsWith(n, ".") && n != "__MACOSX"
  }

  /** The visible entries, in listing order. */
  function Visible(ch: seq<Entry>): (r: seq<Entry>)
    ensures forall e :: e in r <==> e in ch && Shown(e.name)
    ensures |r| <= |ch|
  {
    if ch == [] then []
    else if Shown(ch[0].name) then [ch[0]] + Visible(ch[1..])
    else Visible(ch[1..])
  }

  /** Positions of the visible entries in the listing. */
  function ShownAt(ch: seq<Entry>): set<nat> {
    set i: nat | i < |ch| && Shown(ch[i].name)
  }

  /** The filter keeps listing order: filtering a concatenation filters each part. */
  lemma {:induction false} VisibleAppend(a: seq<Entry>, b: seq<Entry>)
    ensures Visible(a + b) == Visible(a) + Visible(b)
    decreases |a|
  {
    if a == [] {
      assert a + b == b;
    } else {
      assert (a + b)[0] == a[0] && (a + b)[1..] == a[1..] + b;
      VisibleAppend(a[1..], b);
    }
  }

  /** `len(visible_items)` counts every visible position, entries with equal names included. */
  lemma {:induction false} VisibleCount(ch: seq<Entry>)
    ensures |Visible(ch)| == |ShownAt(ch)|
    decreases |ch|
  {
    if ch != [] {
      var init, last := ch[..|ch| - 1], ch[|ch| - 1];
      assert ch == init + [last];
      VisibleAppend(init, [last]);
      assert [last][1..] == [];
      VisibleCount(init);
      ShownAtSnoc(ch);
    }
  }

  lemma ShownAtSnoc(ch: seq<Entry>)
    requires ch != []
    ensures var n := |ch| - 1;
      |ShownAt(ch)| == |ShownAt(ch[..n])| + (if Shown(ch[n].name) then 1 else 0)
  {
    var n := |ch| - 1;
    var s, t := ShownAt(ch), ShownAt(ch[..n]);
    assert n !in t;
    if Shown(ch[n].name) {
      assert s == t + {n};
    } else {
      assert s == t;
    }
  }

  /** The loop's condition: exactly one visible entry, and it is a directory. */
  predicate Unwraps(d: Entry) {
    d.Dir? && |Visible(d.children)| == 1 && Visible(d.children)[0].Dir?
  }

  /** The directory the unwrapping ends at. */
  ghost function EffectiveRootOf(d: Entry): Entry
    decreases d
  {
    if Unwraps(d) then
      assert Visible(d.children)[0] in d.children;
      EffectiveRootOf(Visible(d.children)[0])
    else d
  }

  /** The entry reached from `d` by following the names in `path` (`os.path.join(d, *path)`). */
  function Descend(d: Entry, path: seq<string>): Option<Entry>
    decreases |path|
  {
    if path == [] then Some(d)
    else if d.File? then None
    else match Find(d.children, path[0])
      case None => None
      case Some(c) => Descend(c, path[1..])
  }

  lemma {:induction false} DescendAppend(d: Entry, path: seq<string>, mid: Entry, n: string, c: Entry)
    requires Descend(d, path) == Some(mid)
    requires mid.Dir? && Find(mid.children, n) == Some(c)
    ensures Descend(d, path + [n]) == Some(c)
    decreases |path|
  {
    if path != [] {
      var next := Find(d.children, path[0]).value;
      assert (path + [n])[1..] == path[1..] + [n];
      DescendAppend(next, path[1..], mid, n, c);
    }
  }

  /** Joining the first visible name denotes the first visible entry. */
  lemma {:induction false} FindFirstVisible(ch: seq<Entry>)
    requires Visible(ch) != []
    ensures Find(ch, Visible(ch)[0].name) == Some(Visible(ch)[0])
  {
    if !Shown(ch[0].name) {
      FindFirstVisible(ch[1..]);
    }
  }

  /** `_get_effective_root`: returns the names appended to `base` and the directory they lead to. */
  method GetEffectiveRoot(base: Entry) returns (path: seq<string>, root: Entry)
    requires base.Dir?
    ensures root == EffectiveRootOf(base)
    ensures Descend(base, path) == Some(root)
    ensures forall i :: 0 <= i < |path| ==> Shown(path[i])
  {
    path, root := [], base;
    while true
      invariant root.Dir?
      invariant EffectiveRootOf(root) == EffectiveRootOf(base)
      invariant Descend(base, path) == Some(root)
      invariant forall i :: 0 <= i < |path| ==> Shown(path[i])
      decreases root
    {
      var visible := Visible(root.children);
      if |visible| == 1 && visible[0].Dir? {
        assert visible[0] in root.children;
        FindFirstVisible(root.children);
        DescendAppend(base, path, root, visible[0].name, visible[0]);
        path, root := path + [visible[0].name], visible[0];
      } else {
        break;
      }
    }
  }

  /** Where the unwrapping stops, the visible count is not one or the single visible entry is not a directory. */
  lemma {:induction false} EffectiveRootStops(d: Entry)
    requires d.Dir?
    ensures EffectiveRootOf(d).Dir?
    ensures |Visible(EffectiveRootOf(d).children)| != 1 || !Visible(EffectiveRootOf(d).children)[0].Dir?
    decreases d
  {
    if Unwraps(d) {
      assert Visible(d.children)[0] in d.children;
      EffectiveRootStops(Visible(d.children)[0]);
    }
  }

  /** A root holding only one visible directory `p`, which itself holds several visible entries, resolves to `p`. */
  lemma SingleWrapperUnwrapped(d: Entry, p: Entry)
    requires d.Dir? && Visible(d.children) == [p]
    requires p.Dir? && |Visible(p.children)| >= 2
    ensures EffectiveRootOf(d) == p
  {
  }

  /** A root already holding several visible entries is its own effective root. */
  lemma SeveralEntriesStay(d: Entry)
    requires d.Dir? && |Visible(d.children)| >= 2
    ensures EffectiveRootOf(d) == d
  {
  }

  /** A directory holding a visible file is never unwrapped. */
  lemma VisibleFileStops(d: Entry, i: nat)
    requires d.Dir? && i < |d.children| && d.children[i].File? && Shown(d.children[i].name)
    ensures EffectiveRootOf(d) == d
  {
    var f := d.children[i];
    assert f in Visible(d.children);
  }
}
