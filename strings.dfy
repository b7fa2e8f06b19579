/**
 * The pieces of Python's string behaviour the modelled code relies on:
 * `'%d' % n` and `str(n)` on integers, the ordering `<` on `str` that `sorted`
 * uses, and `sep.join(parts)`.
 */
module Strings {

  /** The decimal digit character for d. */
  function Digit(d: nat): (c: char)
    requires d < 10
    ensures '0' <= c <= '9'
  {
    (('0' as int) + d) as char
  }

  predicate IsDigits(s: string) {
    forall k :: 0 <= k < |s| ==> '0' <= s[k] <= '9'
  }

  /** `'%d' % n` for a non-negative n: never empty, digits only. */
  function NatToString(n: nat): (s: string)
    ensures |s| > 0 && IsDigits(s)
    decreases n
  {
    if n < 10 then [Digit(n)] else NatToString(n / 10) + [Digit(n % 10)]
  }

  /** Distinct counters give distinct decimal strings. */
  lemma {:induction false} NatToStringInjective(a: nat, b: nat)
    requires NatToString(a) == NatToString(b)
    ensures a == b
    decreases a
  {
    var sa, sb := NatToString(a), NatToString(b);
    if a >= 10 && b >= 10 {
      assert sa[..|sa| - 1] == NatToString(a / 10);
      assert sb[..|sb| - 1] == NatToString(b / 10);
      NatToStringInjective(a / 10, b / 10);
      assert sa[|sa| - 1] == Digit(a % 10) && sb[|sb| - 1] == Digit(b % 10);
    }
  }

  /** Python's `str(i)` on an int: a minus sign before the digits of a negative number. */
  function IntToString(i: int): string
  {
    if i < 0 then "-" + NatToString(-i) else NatToString(i)
  }

  /** Python's `a < b` on strings: lexicographic by character code, a proper prefix first. */
  predicate Below(a: string, b: string)
    decreases |a|
  {
    if |a| == 0 then |b| > 0
    else if |b| == 0 then false
    else if a[0] != b[0] then a[0] < b[0]
    else Below(a[1..], b[1..])
  }

  lemma {:induction false} BelowIrreflexive(a: string)
    ensures !Below(a, a)
    decreases |a|
  {
    if |a| > 0 { BelowIrreflexive(a[1..]); }
  }

  lemma {:induction false} BelowTransitive(a: string, b: string, c: string)
    requires Below(a, b) && Below(b, c)
    ensures Below(a, c)
    decreases |a|
  {
    if |a| > 0 && a[0] == b[0] && b[0] == c[0] {
      BelowTransitive(a[1..], b[1..], c[1..]);
    }
  }

  lemma {:induction false} BelowTotal(a: string, b: string)
    requires a != b
    ensures Below(a, b) || Below(b, a)
    decreases |a|
  {
    if |a| > 0 && |b| > 0 && a[0] == b[0] {
      assert a == [a[0]] + a[1..] && b == [b[0]] + b[1..];
      BelowTotal(a[1..], b[1..]);
    }
  }

  lemma BelowAsymmetric(a: string, b: string)
    requires Below(a, b)
    ensures !Below(b, a)
  {
    if Below(b, a) {
      BelowTransitive(a, b, a);
      BelowIrreflexive(a);
    }
  }

  /** Strictly increasing under `<`: sorted and free of duplicates. */
  predicate Increasing(s: seq<string>) {
    forall i, j :: 0 <= i < j < |s| ==> Below(s[i], s[j])
  }

  predicate Distinct<T(==)>(s: seq<T>) {
    forall i, j :: 0 <= i < j < |s| ==> s[i] != s[j]
  }

  lemma PrefixSnoc<T>(s: seq<T>, j: nat)
    requires j < |s|
    ensures s[..j + 1] == s[..j] + [s[j]]
  {
  }

  lemma PrefixAppend<T>(x: seq<T>, y: seq<T>, z: seq<T>)
    requires x <= y
    ensures x <= y + z
  {
    assert (y + z)[..|x|] == y[..|x|];
  }

  lemma PrefixAt<T>(x: seq<T>, y: seq<T>, i: nat)
    requires x <= y && i < |x|
    ensures y[i] == x[i]
  {
    assert y[..|x|][i] == y[i];
  }

  lemma AppendAt<T>(x: seq<T>, y: seq<T>, i: nat)
    requires i < |y|
    ensures (x + y)[|x| + i] == y[i]
  {
  }

  /** A block that, with what precedes it, starts a sequence sits right after what precedes it. */
  lemma BlockAt<T>(x: seq<T>, y: seq<T>, z: seq<T>, i: nat)
    requires x + y <= z && i < |y|
    ensures |x| + i < |z| && z[|x| + i] == y[i]
  {
    PrefixAt(x + y, z, |x| + i);
  }

  /** In a list without duplicates, an element does not occur before its position. */
  lemma DistinctNotBefore<T>(s: seq<T>, j: nat)
    requires Distinct(s) && j < |s|
    ensures s[j] !in s[..j]
  {
    forall p | 0 <= p < j ensures s[..j][p] != s[j] {
      assert s[..j][p] == s[p];
    }
  }

  /** Insertion of one string into a sorted list, as one step of `sorted`. */
  function Insert(x: string, s: seq<string>): seq<string>
  {
    if |s| == 0 then [x]
    else if Below(s[0], x) then [s[0]] + Insert(x, s[1..])
    else [x] + s
  }

  /** `sorted(xs)` on strings. */
  function Sort(xs: seq<string>): seq<string>
  {
    if |xs| == 0 then [] else Insert(xs[0], Sort(xs[1..]))
  }

  lemma {:induction false} InsertIncreasing(x: string, s: seq<string>)
    requires Increasing(s) && x !in s
    ensures Increasing(Insert(x, s))
    ensures multiset(Insert(x, s)) == multiset(s) + multiset{x}
    decreases |s|
  {
    if |s| > 0 {
      assert s == [s[0]] + s[1..];
      if Below(s[0], x) {
        InsertIncreasing(x, s[1..]);
        var t := Insert(x, s[1..]);
        HeadBelowInserted(x, s, t);
        ConsIncreasing(s[0], t);
        assert Insert(x, s) == [s[0]] + t;
      } else {
        BelowTotal(x, s[0]);
        forall k | 0 <= k < |s| ensures Below(x, s[k]) {
          if k > 0 { BelowTransitive(x, s[0], s[k]); }
        }
        ConsIncreasing(x, s);
        assert Insert(x, s) == [x] + s;
      }
    }
  }

  /** The head of an increasing list is below every element of its tail with x added, when it is below x. */
  lemma HeadBelowInserted(x: string, s: seq<string>, t: seq<string>)
    requires Increasing(s) && |s| > 0 && Below(s[0], x)
    requires multiset(t) == multiset(s[1..]) + multiset{x}
    ensures forall k :: 0 <= k < |t| ==> Below(s[0], t[k])
  {
    forall k | 0 <= k < |t| ensures Below(s[0], t[k]) {
      assert t[k] in multiset(t);
      if t[k] != x {
        assert t[k] in s[1..];
        var m :| 0 <= m < |s[1..]| && s[1..][m] == t[k];
        assert s[1 + m] == t[k];
      }
    }
  }

  /** An element below every element of an increasing list can head it. */
  lemma ConsIncreasing(h: string, t: seq<string>)
    requires Increasing(t) && forall k :: 0 <= k < |t| ==> Below(h, t[k])
    ensures Increasing([h] + t)
  {
    var u := [h] + t;
    forall i, j | 0 <= i < j < |u| ensures Below(u[i], u[j]) {
      assert u[j] == t[j - 1];
      if i > 0 {
        assert u[i] == t[i - 1];
      }
    }
  }

  /** `sorted` of a list without duplicates is strictly increasing and has the same elements. */
  lemma {:induction false} SortIncreasing(xs: seq<string>)
    requires Distinct(xs)
    ensures Increasing(Sort(xs))
    ensures multiset(Sort(xs)) == multiset(xs)
    decreases |xs|
  {
    if |xs| > 0 {
      assert Distinct(xs[1..]);
      SortIncreasing(xs[1..]);
      assert xs == [xs[0]] + xs[1..];
      forall m | 0 <= m < |xs[1..]| ensures xs[1..][m] != xs[0] {
        assert xs[1..][m] == xs[1 + m];
      }
      assert xs[0] !in multiset(Sort(xs[1..]));
      InsertIncreasing(xs[0], Sort(xs[1..]));
    }
  }

  lemma HeadIsMember(b: seq<string>)
    requires |b| > 0
    ensures b[0] in b
  {
  }

  /** Two strictly increasing lists with the same elements are equal: the sorted order is unique. */
  lemma {:induction false} IncreasingUnique(a: seq<string>, b: seq<string>)
    requires Increasing(a) && Increasing(b)
    requires forall x :: x in a <==> x in b
    ensures a == b
    decreases |a|
  {
    if |a| == 0 {
      if |b| > 0 { HeadIsMember(b); }
    } else {
      assert a[0] in b;
      assert |b| > 0;
      if a[0] != b[0] {
        assert b[0] in a;
        var i :| 0 <= i < |a| && a[i] == b[0];
        var j :| 0 <= j < |b| && b[j] == a[0];
        assert Below(a[0], b[0]);
        assert Below(b[0], a[0]);
        BelowAsymmetric(a[0], b[0]);
      }
      forall x ensures x in a[1..] <==> x in b[1..] {
        if x in a[1..] {
          var i :| 0 <= i < |a[1..]| && a[1..][i] == x;
          assert Below(a[0], a[1 + i]);
          BelowIrreflexive(x);
          assert x in b;
          var j :| 0 <= j < |b| && b[j] == x;
          assert j != 0;
          assert b[1..][j - 1] == x;
        }
        if x in b[1..] {
          var j :| 0 <= j < |b[1..]| && b[1..][j] == x;
          assert Below(b[0], b[1 + j]);
          BelowIrreflexive(x);
          assert x in a;
          var i :| 0 <= i < |a| && a[i] == x;
          assert i != 0;
          assert a[1..][i - 1] == x;
        }
      }
      IncreasingUnique(a[1..], b[1..]);
      assert a == [a[0]] + a[1..] && b == [b[0]] + b[1..];
    }
  }

  /** Some listing, without duplicates, of a finite set of strings. */
  ghost function Enumerate(k: set<string>): (s: seq<string>)
    ensures Distinct(s) && forall x :: x in s <==> x in k
    decreases |k|
  {
    if k == {} then []
    else
      var x :| x in k;
      [x] + Enumerate(k - {x})
  }

  /** `sorted(d)` for a dictionary d whose key set is k. */
  ghost function SortedKeys(k: set<string>): (s: seq<string>)
    ensures Increasing(s) && forall x :: x in s <==> x in k
  {
    var e := Enumerate(k);
    SortIncreasing(e);
    assert forall x :: x in Sort(e) <==> x in multiset(e);
    Sort(e)
  }

  /** `sep.join(parts)`. */
  function Join(sep: string, parts: seq<string>): string
  {
    if |parts| == 0 then ""
    else if |parts| == 1 then parts[0]
    else parts[0] + sep + Join(sep, parts[1..])
  }

  /** Joining one more part puts one more separator at the end. */
  lemma {:induction false} JoinSnoc(sep: string, parts: seq<string>, x: string)
    requires |parts| > 0
    ensures Join(sep, parts + [x]) == Join(sep, parts) + sep + x
    decreases |parts|
  {
    if |parts| > 1 {
      assert (parts + [x])[1..] == parts[1..] + [x];
      JoinSnoc(sep, parts[1..], x);
    }
  }

  /** Two parts are joined by one separator. */
  lemma JoinTwo(sep: string, a: string, b: string)
    ensures Join(sep, [a, b]) == a + sep + b
  {
    JoinSnoc(sep, [a], b);
    assert [a] + [b] == [a, b];
  }

  /** Three parts are joined by two separators. */
  lemma JoinThree(sep: string, a: string, b: string, c: string)
    ensures Join(sep, [a, b, c]) == a + sep + b + sep + c
  {
    JoinTwo(sep, a, b);
    JoinSnoc(sep, [a, b], c);
    assert [a, b] + [c] == [a, b, c];
  }
}
