/**
 * Column-name normalisation of `utils/form_func.py`: `format_headers`, which
 * cleans header strings the way matplotlib's csv2rec does, and
 * `format_dict_names`, which re-keys a dictionary with it.
 */
module Headers {
  import opened Strings

  /** A header value before `str()` is applied to it. Floats are left out. */
  datatype Scalar = Text(s: string) | Integer(n: int)

  /** The argument of `format_headers`: a bare str/int, or a list of them. */
  datatype HeaderInput = Bare(x: Scalar) | Listed(xs: seq<Scalar>)

  function Str(x: Scalar): string {
    match x
    case Text(s) => s
    case Integer(n) => IntToString(n)
  }

  /** The list of strings `format_headers` works on: a bare value becomes a one-element list. */
  function AsStrings(h: HeaderInput): (r: seq<string>)
    ensures h.Bare? ==> |r| == 1
    ensures h.Listed? ==> |r| == |h.xs|
  {
    match h
    case Bare(x) => [Str(x)]
    case Listed(xs) => seq(|xs|, i requires 0 <= i < |xs| => Str(xs[i]))
  }

  /** The characters `format_headers` deletes (its `delete` set plus the double quote). */
  const DeleteSet: set<char> :=
    {'~', '!', '@', '#', '$', '%', '^', '&', '*', '(', ')', '-', '=', '+', '\\', '|',
     ']', '}', '[', '{', '\'', ';', ':', ' ', '/', '?', '.', '>', ',', '<', '"'}

  /** The Python reserved words `format_headers` renames (the keys of its `itemd`). */
  predicate IsReserved(s: string) {
    s == "return" || s == "file" || s == "print"
  }

  /** `itemd.get(s, s)`: a reserved word gets a trailing underscore, anything else is kept. */
  function Renamed(s: string): string {
    if IsReserved(s) then s + "_" else s
  }

  /** Whitespace as `str.strip()` sees it. */
  predicate IsSpace(c: char) {
    c == ' ' || c == '\t' || c == '\n' || c == '\r' || c == 11 as char || c == 12 as char
  }

  function TrimLeft(s: string): string {
    if |s| > 0 && IsSpace(s[0]) then TrimLeft(s[1..]) else s
  }

  function TrimRight(s: string): string {
    if |s| > 0 && IsSpace(s[|s| - 1]) then TrimRight(s[..|s| - 1]) else s
  }

  /** `s.strip()`. */
  function Strip(s: string): string {
    TrimRight(TrimLeft(s))
  }

  function LowerChar(c: char): char {
    if 'A' <= c <= 'Z' then (c as int + 32) as char else c
  }

  /** `s.lower()` on ASCII letters. */
  function Lower(s: string): string {
    seq(|s|, i requires 0 <= i < |s| => LowerChar(s[i]))
  }

  /** `s.replace(' ', '_')`. */
  function Underscore(s: string): string {
    seq(|s|, i requires 0 <= i < |s| => if s[i] == ' ' then '_' else s[i])
  }

  /** No character of s is in the delete set. */
  predicate NoDeleted(s: string) {
    forall k :: 0 <= k < |s| ==> s[k] !in DeleteSet
  }

  lemma ConcatNoDeleted(a: string, b: string)
    requires NoDeleted(a) && NoDeleted(b)
    ensures NoDeleted(a + b)
  {
    assert forall k :: 0 <= k < |a + b| ==> (a + b)[k] == if k < |a| then a[k] else b[k - |a|];
  }

  lemma DigitsNoDeleted(s: string)
    requires IsDigits(s)
    ensures NoDeleted(s)
  {
  }

  /** `''.join([c for c in s if c not in delete])`: exactly the characters outside the delete set. */
  function Purge(s: string): (r: string)
    ensures NoDeleted(r)
    ensures forall c :: c in r ==> c in s
    ensures forall c :: c in s && c !in DeleteSet ==> c in r
  {
    if |s| == 0 then ""
    else if s[0] in DeleteSet then Purge(s[1..])
    else [s[0]] + Purge(s[1..])
  }

  /** The cleaned form of a header at position i, before de-duplication: never empty and never a reserved word. */
  function Base(h: string, i: nat): (r: string)
    ensures |r| > 0 && !IsReserved(r)
  {
    var c := Purge(Underscore(Lower(Strip(h))));
    var named := if |c| == 0 then "column" + NatToString(i) else c;
    RenamedNotReserved(named);
    Renamed(named)
  }

  function Bases(hs: seq<string>): (bs: seq<string>)
    ensures |bs| == |hs|
  {
    seq(|hs|, i requires 0 <= i < |hs| => Base(hs[i], i))
  }

  /** How many times x occurs in s. */
  function Occurrences(s: seq<string>, x: string): nat {
    if |s| == 0 then 0
    else Occurrences(s[..|s| - 1], x) + (if s[|s| - 1] == x then 1 else 0)
  }

  /** The name for a base that has already been seen k times. */
  function Suffixed(b: string, k: nat): string {
    if k > 0 then b + "_" + NatToString(k) else b
  }

  /**
   * What `format_headers` returns for the header strings hs: one name per
   * header, the first occurrence of a base kept, its k-th repeat suffixed `_k`.
   */
  function HeaderNames(hs: seq<string>): (names: seq<string>)
    ensures |names| == |hs|
  {
    var bs := Bases(hs);
    seq(|hs|, i requires 0 <= i < |hs| => NameAt(bs, i))
  }

  /** The name of the header at position i, given the bases bs of all headers. */
  function NameAt(bs: seq<string>, i: nat): string
    requires i < |bs|
  {
    Suffixed(bs[i], Occurrences(bs[..i], bs[i]))
  }

  /** The `seen` dictionary after the bases s have been processed. */
  function Tally(s: seq<string>): map<string, nat> {
    if |s| == 0 then map[]
    else
      var t := Tally(s[..|s| - 1]);
      var x := s[|s| - 1];
      t[x := (if x in t then t[x] else 0) + 1]
  }

  lemma TallyStep(s: seq<string>, i: nat)
    requires i < |s|
    ensures Tally(s[..i + 1]) == Tally(s[..i])[s[i] := (if s[i] in Tally(s[..i]) then Tally(s[..i])[s[i]] else 0) + 1]
  {
    assert s[..i + 1][..i] == s[..i];
  }

  lemma {:induction false} TallyCounts(s: seq<string>, x: string)
    ensures (if x in Tally(s) then Tally(s)[x] else 0) == Occurrences(s, x)
    decreases |s|
  {
    if |s| > 0 { TallyCounts(s[..|s| - 1], x); }
  }

  /** The names of the first i headers, given the bases bs of all of them. */
  ghost function Names(bs: seq<string>, i: nat): seq<string>
    requires i <= |bs|
  {
    if i == 0 then [] else Names(bs, i - 1) + [NameAt(bs, i - 1)]
  }

  lemma {:induction false} NamesAt(bs: seq<string>, i: nat)
    requires i <= |bs|
    ensures |Names(bs, i)| == i && forall k :: 0 <= k < i ==> Names(bs, i)[k] == NameAt(bs, k)
  {
    if i > 0 {
      NamesAt(bs, i - 1);
    }
  }

  lemma NamesAreHeaderNames(hs: seq<string>)
    ensures Names(Bases(hs), |hs|) == HeaderNames(hs)
  {
    NamesAt(Bases(hs), |hs|);
  }

  /** `format_headers(headers)`: the loop over the headers with its `seen` dictionary. */
  method FormatHeaders(headers: HeaderInput) returns (names: seq<string>)
    ensures names == HeaderNames(AsStrings(headers))
    ensures |names| == |AsStrings(headers)|
    ensures headers.Bare? ==> |names| == 1
  {
    var hs := AsStrings(headers);
    ghost var bs := Bases(hs);
    names := [];
    var seen: map<string, nat> := map[];
    for i := 0 to |hs|
      invariant names == Names(bs, i)
      invariant seen == Tally(bs[..i])
    {
      var item := Base(hs[i], i);
      assert item == bs[i];
      var cnt := if item in seen then seen[item] else 0;
      TallyCounts(bs[..i], item);
      var name;
      if cnt > 0 {
        name := item + "_" + NatToString(cnt);
      } else {
        name := item;
      }
      names := names + [name];
      TallyStep(bs, i);
      seen := seen[item := cnt + 1];
    }
    NamesAreHeaderNames(hs);
  }

  /** The cleaned base of a header is non-empty and free of deleted characters. */
  lemma BaseIsClean(h: string, i: nat)
    ensures |Base(h, i)| > 0 && NoDeleted(Base(h, i))
  {
    var c := Purge(Underscore(Lower(Strip(h))));
    var named := if |c| == 0 then "column" + NatToString(i) else c;
    if |c| == 0 {
      assert NoDeleted("column");
      DigitsNoDeleted(NatToString(i));
      ConcatNoDeleted("column", NatToString(i));
    }
    assert NoDeleted(named);
    if IsReserved(named) {
      assert NoDeleted("_");
      ConcatNoDeleted(named, "_");
    }
  }

  /** Every emitted name is non-empty and free of the deleted characters. */
  lemma NameIsClean(hs: seq<string>, i: nat)
    requires i < |hs|
    ensures |HeaderNames(hs)[i]| > 0 && NoDeleted(HeaderNames(hs)[i])
  {
    var bs := Bases(hs);
    var k := Occurrences(bs[..i], bs[i]);
    assert HeaderNames(hs)[i] == Suffixed(bs[i], k);
    assert |bs[i]| > 0 && NoDeleted(bs[i]) by {
      BaseIsClean(hs[i], i);
    }
    SuffixedIsClean(bs[i], k);
  }

  /** A repeat suffix keeps a clean base clean. */
  lemma SuffixedIsClean(b: string, k: nat)
    requires |b| > 0 && NoDeleted(b)
    ensures |Suffixed(b, k)| > 0 && NoDeleted(Suffixed(b, k))
  {
    if k > 0 {
      assert NoDeleted("_");
      DigitsNoDeleted(NatToString(k));
      ConcatNoDeleted(b, "_");
      ConcatNoDeleted(b + "_", NatToString(k));
    }
  }

  /** A header that cleans to the empty string is named `column<i>` after its position i. */
  lemma EmptyBecomesColumn(hs: seq<string>, i: nat)
    requires i < |hs| && Purge(Underscore(Lower(Strip(hs[i])))) == ""
    ensures Bases(hs)[i] == "column" + NatToString(i)
  {
    var col := "column" + NatToString(i);
    assert col[..6] == "column";
    assert !IsReserved(col);
  }

  /** The reserved words never appear among the emitted names: each one is renamed with a trailing `_`. */
  lemma ReservedRenamed(hs: seq<string>, i: nat)
    requires i < |hs|
    ensures !IsReserved(HeaderNames(hs)[i])
    ensures IsReserved(Purge(Underscore(Lower(Strip(hs[i]))))) ==>
              Bases(hs)[i] == Purge(Underscore(Lower(Strip(hs[i])))) + "_"
  {
    var bs := Bases(hs);
    var b := bs[i];
    var k := Occurrences(bs[..i], b);
    assert HeaderNames(hs)[i] == Suffixed(b, k);
    var c := Purge(Underscore(Lower(Strip(hs[i]))));
    RenamedNotReserved(if |c| == 0 then "column" + NatToString(i) else c);
    if k > 0 {
      var n := b + "_" + NatToString(k);
      assert n[|b|] == '_';
      ReservedWithoutUnderscore(n);
    }
  }

  lemma RenamedNotReserved(x: string)
    ensures !IsReserved(Renamed(x))
  {
    if x == "return" {
      assert Renamed(x) == "return_";
    } else if x == "file" {
      assert Renamed(x) == "file_";
    } else if x == "print" {
      assert Renamed(x) == "print_";
    }
  }

  lemma ReservedWithoutUnderscore(w: string)
    ensures '_' in w ==> !IsReserved(w)
  {
  }

  lemma {:induction false} OccurrencesOfAbsent(s: seq<string>, x: string)
    requires x !in s
    ensures Occurrences(s, x) == 0
    decreases |s|
  {
    if |s| > 0 {
      assert x !in s[..|s| - 1];
      OccurrencesOfAbsent(s[..|s| - 1], x);
    }
  }

  /** The first occurrence of a cleaned name is emitted unchanged. */
  lemma FirstOccurrenceUnchanged(hs: seq<string>, i: nat)
    requires i < |hs|
    requires forall j :: 0 <= j < i ==> Bases(hs)[j] != Bases(hs)[i]
    ensures HeaderNames(hs)[i] == Bases(hs)[i]
  {
    OccurrencesOfAbsent(Bases(hs)[..i], Bases(hs)[i]);
  }

  /** A later repeat is the base name with `_k`, k > 0 the number of earlier headers with that base. */
  lemma RepeatSuffixed(hs: seq<string>, i: nat, j: nat)
    requires j < i < |hs| && Bases(hs)[j] == Bases(hs)[i]
    ensures HeaderNames(hs)[i] == Bases(hs)[i] + "_" + NatToString(Occurrences(Bases(hs)[..i], Bases(hs)[i]))
    ensures Occurrences(Bases(hs)[..i], Bases(hs)[i]) > 0
  {
    var bs := Bases(hs);
    if Occurrences(bs[..i], bs[i]) == 0 {
      OccurrencesPositive(bs[..i], j);
    }
  }

  lemma {:induction false} OccurrencesPositive(s: seq<string>, j: nat)
    requires j < |s|
    ensures Occurrences(s, s[j]) > 0
    decreases |s|
  {
    if j < |s| - 1 {
      assert s[..|s| - 1][j] == s[j];
      OccurrencesPositive(s[..|s| - 1], j);
    }
  }

  /** Names depend only on the headers before them: appending a header leaves earlier names as they were. */
  lemma AppendKeepsNames(hs: seq<string>, h: string)
    ensures HeaderNames(hs + [h])[..|hs|] == HeaderNames(hs)
  {
    var hs' := hs + [h];
    assert forall i :: 0 <= i < |hs| ==> Bases(hs')[i] == Bases(hs)[i];
    forall i | 0 <= i < |hs| ensures HeaderNames(hs')[i] == HeaderNames(hs)[i] {
      assert Bases(hs')[..i] == Bases(hs)[..i];
    }
  }

  /** The dictionary `format_dict_names` builds from the sorted keys ks and their formatted names nk. */
  function Fill<V>(ks: seq<string>, nk: seq<string>, m: map<string, V>): map<string, V>
    requires |ks| == |nk| && forall k :: k in ks ==> k in m
    decreases |ks|
  {
    if |ks| == 0 then map[]
    else Fill(ks[..|ks| - 1], nk[..|nk| - 1], m)[nk[|nk| - 1] := m[ks[|ks| - 1]]]
  }

  /** `format_dict_names(m)` as a value: keys formatted in sorted order, values carried over; every new key is a clean name. */
  ghost function DictNames<V>(m: map<string, V>): (r: map<string, V>)
    ensures forall k :: k in r ==> |k| > 0 && NoDeleted(k)
  {
    var ks := SortedKeys(m.Keys);
    FillMeaning(ks, HeaderNames(ks), m);
    NamesAreClean(ks);
    Fill(ks, HeaderNames(ks), m)
  }

  /** Every name `format_headers` emits is non-empty and clean. */
  lemma NamesAreClean(hs: seq<string>)
    ensures forall k :: k in HeaderNames(hs) ==> |k| > 0 && NoDeleted(k)
  {
    forall k | k in HeaderNames(hs) ensures |k| > 0 && NoDeleted(k) {
      var i :| 0 <= i < |HeaderNames(hs)| && HeaderNames(hs)[i] == k;
      NameIsClean(hs, i);
    }
  }

  /**
   * What `Fill` contains: exactly the formatted names; each name holds the
   * value of the last key that formats to it; every value is one of m's.
   */
  lemma {:induction false} FillMeaning<V>(ks: seq<string>, nk: seq<string>, m: map<string, V>)
    requires |ks| == |nk| && forall k :: k in ks ==> k in m
    ensures forall k :: k in Fill(ks, nk, m) <==> k in nk
    ensures forall i :: 0 <= i < |ks| && (forall j :: i < j < |ks| ==> nk[j] != nk[i]) ==>
              Fill(ks, nk, m)[nk[i]] == m[ks[i]]
    decreases |ks|
  {
    if |ks| > 0 {
      var n := |ks| - 1;
      FillMeaning(ks[..n], nk[..n], m);
      assert nk == nk[..n] + [nk[n]];
      forall i | 0 <= i < n && (forall j :: i < j < |ks| ==> nk[j] != nk[i])
        ensures Fill(ks, nk, m)[nk[i]] == m[ks[i]]
      {
        assert nk[..n][i] == nk[i] && ks[..n][i] == ks[i];
        assert forall j :: i < j < n ==> nk[..n][j] == nk[j];
      }
    }
  }

  /** Every value of the re-keyed dictionary is a value of the original. */
  lemma {:induction false} FillValues<V>(ks: seq<string>, nk: seq<string>, m: map<string, V>)
    requires |ks| == |nk| && forall k :: k in ks ==> k in m
    ensures forall k :: k in Fill(ks, nk, m) ==> exists o :: o in m && Fill(ks, nk, m)[k] == m[o]
    decreases |ks|
  {
    if |ks| > 0 {
      var n := |ks| - 1;
      FillValues(ks[..n], nk[..n], m);
    }
  }

  /**
   * `format_dict_names`: the keys of the result are the formatted sorted keys;
   * a formatted key holds the value of the last key in sorted order that
   * formats to it; and no value is invented.
   */
  lemma DictNamesMeaning<V>(m: map<string, V>)
    ensures forall k :: k in DictNames(m) <==> k in HeaderNames(SortedKeys(m.Keys))
    ensures |SortedKeys(m.Keys)| == |m|
    ensures var ks := SortedKeys(m.Keys); var nk := HeaderNames(ks);
              forall i :: 0 <= i < |ks| && (forall j :: i < j < |ks| ==> nk[j] != nk[i]) ==>
                DictNames(m)[nk[i]] == m[ks[i]]
    ensures forall k :: k in DictNames(m) ==> exists o :: o in m && DictNames(m)[k] == m[o]
  {
    var ks := SortedKeys(m.Keys);
    var nk := HeaderNames(ks);
    assert |ks| == |m.Keys| by { SortedKeysCount(m.Keys); }
    FillMeaning(ks, nk, m);
    FillValues(ks, nk, m);
  }

  lemma SortedKeysCount(k: set<string>)
    ensures |SortedKeys(k)| == |k|
  {
    var s := SortedKeys(k);
    forall i, j | 0 <= i < j < |s| ensures s[i] != s[j] {
      BelowIrreflexive(s[i]);
    }
    DistinctCard(s, k);
  }

  lemma {:induction false} DistinctCard(s: seq<string>, k: set<string>)
    requires Distinct(s) && forall x :: x in s <==> x in k
    ensures |s| == |k|
    decreases |s|
  {
    if |s| > 0 {
      var n := |s| - 1;
      assert forall x :: x in s[..n] <==> x in k - {s[n]};
      assert Distinct(s[..n]);
      DistinctCard(s[..n], k - {s[n]});
    } else {
      assert forall x :: x !in k;
      assert k == {};
    }
  }

  /** `sorted(d)` for a dictionary d: its keys in increasing order. */
  method SortedKeyList<V>(d: map<string, V>) returns (ks: seq<string>)
    ensures ks == SortedKeys(d.Keys)
  {
    var keys: seq<string> := [];
    var rest := d.Keys;
    while rest != {}
      invariant Distinct(keys)
      invariant forall x :: x in keys ==> x !in rest
      invariant forall x :: x in d <==> x in keys || x in rest
      decreases |rest|
    {
      var x :| x in rest;
      keys := keys + [x];
      rest := rest - {x};
    }
    ks := Sort(keys);
    SortIncreasing(keys);
    assert forall x :: x in ks <==> x in multiset(keys);
    IncreasingUnique(ks, SortedKeys(d.Keys));
  }

  lemma FillStep<V>(ks: seq<string>, nk: seq<string>, m: map<string, V>, i: nat)
    requires i < |ks| == |nk| && forall k :: k in ks ==> k in m
    ensures Fill(ks[..i + 1], nk[..i + 1], m) == Fill(ks[..i], nk[..i], m)[nk[i] := m[ks[i]]]
  {
    assert ks[..i + 1][..i] == ks[..i];
    assert nk[..i + 1][..i] == nk[..i];
  }

  /** `format_dict_names(old_dict)`: sort the keys, format them, refill a new dictionary. */
  method FormatDictNames<V>(oldDict: map<string, V>) returns (newDict: map<string, V>)
    ensures newDict == DictNames(oldDict)
  {
    var oldKeys := SortedKeyList(oldDict);
    var input := Listed(seq(|oldKeys|, i requires 0 <= i < |oldKeys| => Text(oldKeys[i])));
    assert AsStrings(input) == oldKeys;
    var newKeys := FormatHeaders(input);
    newDict := map[];
    for i := 0 to |oldKeys|
      invariant newDict == Fill(oldKeys[..i], newKeys[..i], oldDict)
    {
      FillStep(oldKeys, newKeys, oldDict, i);
      newDict := newDict[newKeys[i] := oldDict[oldKeys[i]]];
    }
    assert oldKeys[..|oldKeys|] == oldKeys && newKeys[..|newKeys|] == newKeys;
  }
}
