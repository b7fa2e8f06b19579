/**
 * The path handling of code/macroeco/workflow.py: `os.path.split(p)[-1]` and
 * `os.path.splitext(p)` on POSIX paths, `_clean_name`, and the script name the
 * workflow derives from `sys.argv[0]`.
 */
module Paths {

  /** r is the last index of c in s, or -1 when c does not occur. */
  predicate IsLast(s: string, c: char, r: int) {
    -1 <= r < |s| && (r >= 0 ==> s[r] == c) && forall k :: r < k < |s| ==> s[k] != c
  }

  /** `s.rfind(c)`. */
  function RFind(s: string, c: char): (r: int)
    ensures IsLast(s, c, r)
    decreases |s|
  {
    if |s| == 0 then -1
    else if s[|s| - 1] == c then |s| - 1
    else
      var r := RFind(s[..|s| - 1], c);
      assert forall k :: 0 <= k < |s| - 1 ==> s[..|s| - 1][k] == s[k];
      r
  }

  /** Only one index is the last occurrence. */
  lemma RFindUnique(s: string, c: char, r: int)
    requires IsLast(s, c, r)
    ensures RFind(s, c) == r
  {
  }

  /**
   * `os.path.split(p)[-1]`, the base name: it ends the path, holds no `/`, and
   * is preceded by one when it is not the whole path.
   */
  function Tail(p: string): (r: string)
    ensures |r| <= |p| && r == p[|p| - |r|..]
    ensures '/' !in r
    ensures |r| < |p| ==> p[|p| - |r| - 1] == '/'
  {
    var r := p[RFind(p, '/') + 1..];
    assert forall k :: 0 <= k < |r| ==> r[k] == p[RFind(p, '/') + 1 + k];
    r
  }

  /** Some character of p in `[lo, hi)` is not a dot. */
  predicate HasNonDot(p: string, lo: int, hi: int)
    requires 0 <= lo && hi <= |p|
  {
    exists k :: lo <= k < hi && p[k] != '.'
  }

  /**
   * `os.path.splitext(p)`: the extension runs from the last dot to the end,
   * provided that dot comes after the last `/` and the base name has something
   * other than dots before it, so `.bashrc` has no extension.
   */
  function SplitExt(p: string): (r: (string, string))
    ensures r.0 + r.1 == p
  {
    var sepIndex, dotIndex := RFind(p, '/'), RFind(p, '.');
    if dotIndex > sepIndex && HasNonDot(p, sepIndex + 1, dotIndex) then (p[..dotIndex], p[dotIndex..])
    else (p, "")
  }

  /** An extension is a dot and what follows it up to the end, with no other dot and no `/`. */
  lemma SplitExtExtension(p: string)
    ensures var ext := SplitExt(p).1;
      ext != "" ==> ext[0] == '.' && '/' !in ext && '.' !in ext[1..]
  {
    var ext := SplitExt(p).1;
    if ext != "" {
      var dot := RFind(p, '.');
      assert ext == p[dot..];
      assert forall k :: 0 <= k < |ext| ==> ext[k] == p[dot + k];
      assert forall k :: 0 <= k < |ext| - 1 ==> ext[1..][k] == p[dot + 1 + k];
    }
  }

  /** `_clean_name(fp)`: the file name without its directory and its extension, so a start of the base name without `/`. */
  function CleanName(fp: string): (r: string)
    ensures r <= Tail(fp)
    ensures '/' !in r
  {
    RootIsStart(Tail(fp));
    SplitExt(Tail(fp)).0
  }

  /** The root `splitext` returns starts its argument, so it holds no `/` when that does not. */
  lemma RootIsStart(t: string)
    ensures SplitExt(t).0 <= t
    ensures '/' !in t ==> '/' !in SplitExt(t).0
  {
    var r, ext := SplitExt(t).0, SplitExt(t).1;
    assert t == r + ext;
    assert t[..|r|] == r;
    assert forall k :: 0 <= k < |r| ==> r[k] == t[k];
  }

  /** The script name of `Workflow.__init__`: `sys.argv[0]` without its extension, then without its directory. */
  function ScriptName(argv0: string): (r: string)
    ensures '/' !in r
  {
    Tail(SplitExt(argv0).0)
  }

  /** The last occurrence in a suffix is the last occurrence in the whole, shifted. */
  lemma IsLastSuffix(p: string, c: char, k: int, r: int)
    requires 0 <= k <= |p| && IsLast(p, c, r)
    ensures IsLast(p[k..], c, if r >= k then r - k else -1)
  {
    assert forall q :: 0 <= q < |p| - k ==> p[k..][q] == p[k + q];
  }

  lemma IsLastPrefix(p: string, c: char, d: int, r: int)
    requires r < d <= |p| && IsLast(p, c, r)
    ensures IsLast(p[..d], c, r)
  {
    assert forall q :: 0 <= q < d ==> p[..d][q] == p[q];
  }

  lemma HasNonDotSuffix(p: string, k: int, hi: int)
    requires 0 <= k <= hi <= |p|
    ensures HasNonDot(p[k..], 0, hi - k) <==> HasNonDot(p, k, hi)
  {
    if HasNonDot(p, k, hi) {
      var q :| k <= q < hi && p[q] != '.';
      assert p[k..][q - k] != '.';
    }
    if HasNonDot(p[k..], 0, hi - k) {
      var q :| 0 <= q < hi - k && p[k..][q] != '.';
      assert p[k + q] != '.';
    }
  }

  /** Where the last dot of the base name sits inside the base name, and whether it is preceded by a non-dot. */
  lemma TailDots(p: string)
    ensures var sep, dot := RFind(p, '/'), RFind(p, '.');
      RFind(Tail(p), '/') == -1 &&
      RFind(Tail(p), '.') == (if dot > sep then dot - (sep + 1) else -1) &&
      (dot > sep ==> (HasNonDot(Tail(p), 0, dot - (sep + 1)) <==> HasNonDot(p, sep + 1, dot)))
  {
    var sep, dot := RFind(p, '/'), RFind(p, '.');
    var t := Tail(p);
    assert t == p[sep + 1..];
    IsLastSuffix(p, '.', sep + 1, dot);
    IsLastSuffix(p, '/', sep + 1, sep);
    RFindUnique(t, '.', if dot > sep then dot - (sep + 1) else -1);
    RFindUnique(t, '/', -1);
    if dot > sep {
      HasNonDotSuffix(p, sep + 1, dot);
    }
  }

  /** Cutting p before a position past its last `/` cuts its base name at the same place. */
  lemma TailOfPrefix(p: string, d: int)
    requires RFind(p, '/') < d <= |p|
    ensures Tail(p[..d]) == p[RFind(p, '/') + 1..d]
  {
    var r := RFind(p, '/');
    IsLastPrefix(p, '/', d, r);
    RFindUnique(p[..d], '/', r);
    assert p[..d][r + 1..] == p[r + 1..d];
  }

  /** With an extension, `splitext` cuts at the last dot. */
  lemma SplitExtCuts(s: string)
    requires RFind(s, '.') > RFind(s, '/') && HasNonDot(s, RFind(s, '/') + 1, RFind(s, '.'))
    ensures SplitExt(s).0 == s[..RFind(s, '.')]
  {
  }

  lemma SliceOfSlice(p: string, a: nat, b: nat)
    requires a <= b <= |p|
    ensures p[a..][..b - a] == p[a..b]
  {
  }

  /** With an extension, the script name is the base name up to its last dot. */
  lemma ScriptNameCut(p: string)
    requires RFind(p, '.') > RFind(p, '/') && HasNonDot(p, RFind(p, '/') + 1, RFind(p, '.'))
    ensures ScriptName(p) == p[RFind(p, '/') + 1..RFind(p, '.')]
  {
    var dot := RFind(p, '.');
    TailOfPrefix(p, dot);
    SplitExtCuts(p);
    var root := SplitExt(p).0;
    assert root == p[..dot];
    assert ScriptName(p) == Tail(root);
  }

  /** With an extension, the base name's extension starts at the path's last dot. */
  lemma TailCut(p: string)
    requires RFind(p, '.') > RFind(p, '/') && HasNonDot(p, RFind(p, '/') + 1, RFind(p, '.'))
    ensures SplitExt(Tail(p)).0 == Tail(p)[..RFind(p, '.') - (RFind(p, '/') + 1)]
  {
    TailDots(p);
    SplitExtCuts(Tail(p));
  }

  /** With an extension, `_clean_name` is the base name up to its last dot. */
  lemma CleanNameCut(p: string)
    requires RFind(p, '.') > RFind(p, '/') && HasNonDot(p, RFind(p, '/') + 1, RFind(p, '.'))
    ensures CleanName(p) == p[RFind(p, '/') + 1..RFind(p, '.')]
  {
    var sep, dot := RFind(p, '/'), RFind(p, '.');
    TailCut(p);
    SliceOfSlice(p, sep + 1, dot);
    assert Tail(p) == p[sep + 1..];
  }

  /** Removing the extension first and the directory second gives the same as `_clean_name`. */
  lemma ScriptNameIsCleanName(p: string)
    ensures ScriptName(p) == CleanName(p)
  {
    var sep, dot := RFind(p, '/'), RFind(p, '.');
    if dot > sep && HasNonDot(p, sep + 1, dot) {
      ScriptNameCut(p);
      CleanNameCut(p);
    } else {
      TailDots(p);
      assert SplitExt(p).0 == p;
    }
  }

  /** The name of a base name is found again from the full path: directories do not matter. */
  lemma CleanNameOfTail(p: string)
    ensures CleanName(Tail(p)) == CleanName(p)
  {
    RFindUnique(Tail(p), '/', -1);
    assert Tail(p)[0..] == Tail(p);
  }
}
