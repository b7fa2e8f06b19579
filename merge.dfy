/**
 * `merge_formatted` of utils/form_func.py: concatenating a list of structured
 * arrays in order, after checking that their field names agree and
 * reconciling their type codes.
 */
module Merge {
  import opened Outcomes
  import opened Strings
  import opened Tables

  /** `code[:2]`: the byte-order and kind characters of a numpy type code (`'|S'`, `'<f'`). */
  function Prefix2(code: string): string {
    if |code| <= 2 then code else code[..2]
  }

  function DigitValue(c: char): nat {
    if '0' <= c <= '9' then (c as int) - ('0' as int) else 0
  }

  /** The decimal number spelled by s. */
  function Decimal(s: string): nat
    decreases |s|
  {
    if |s| == 0 then 0 else 10 * Decimal(s[..|s| - 1]) + DigitValue(s[|s| - 1])
  }

  /** The item size a numpy type code names: 20 for `'|S20'`, 8 for `'<f8'`. */
  function Width(code: string): nat {
    if |code| <= 2 then 0 else Decimal(code[2..])
  }

  /**
   * The type code `merge_formatted` keeps for one field, as written: equal codes
   * are kept, codes of the same kind are compared as strings with `m > d`, and
   * codes of different kinds give nothing.
   */
  function PickKindAsWritten(m: string, d: string): (r: Option<string>)
    ensures r.Some? <==> m == d || Prefix2(m) == Prefix2(d)
    ensures r.Some? ==> r.value == m || r.value == d
  {
    if m == d then Some(m)
    else if Prefix2(m) == Prefix2(d) then Some(if Below(d, m) then m else d)
    else None
  }

  /** Compared as strings, `'|S9'` is above `'|S20'`: the narrower string type is kept. */
  lemma AsWrittenKeepsNarrower()
    ensures PickKindAsWritten("|S9", "|S20") == Some("|S9")
    ensures Width("|S9") == 9 && Width("|S20") == 20
  {
    assert "|S20"[2..] == "20" && "|S9"[2..] == "9";
    assert "20"[..1] == "2";
    assert Below("|S20", "|S9") by {
      assert "|S20"[1..] == "S20" && "|S9"[1..] == "S9";
      assert "S20"[1..] == "20" && "S9"[1..] == "9";
    }
  }

  /**
   * The type code as evidently intended: of two codes of the same kind, the one
   * with the larger item size, so that every value of both arrays fits.
   */
  function PickKind(m: string, d: string): (r: Option<string>)
    ensures r.Some? <==> m == d || Prefix2(m) == Prefix2(d)
    ensures r.Some? ==> r.value == m || r.value == d
    ensures r.Some? ==> Prefix2(r.value) == Prefix2(m) == Prefix2(d)
    ensures r.Some? ==> Width(r.value) >= Width(m) && Width(r.value) >= Width(d)
  {
    if m == d then Some(m)
    else if Prefix2(m) == Prefix2(d) then Some(if Width(m) >= Width(d) then m else d)
    else None
  }

  /** The corrected choice keeps the wider string type. */
  lemma CorrectedKeepsWider()
    ensures PickKind("|S9", "|S20") == Some("|S20")
  {
    AsWrittenKeepsNarrower();
  }

  /** The type codes picked for the first n fields, the fields without a pick left out. */
  ghost function Picks(ms: seq<string>, ds: seq<string>, n: nat): seq<string>
    requires n <= |ms| == |ds|
    decreases n
  {
    if n == 0 then []
    else
      var p := PickKind(ms[n - 1], ds[n - 1]);
      var prev := Picks(ms, ds, n - 1);
      if p.Some? then prev + [p.value] else prev
  }

  /** Some field lacks a pick when there are fewer picks than fields. */
  lemma {:induction false} PicksShort(ms: seq<string>, ds: seq<string>, n: nat)
    requires n <= |ms| == |ds|
    ensures |Picks(ms, ds, n)| <= n
    ensures |Picks(ms, ds, n)| < n ==> exists c :: 0 <= c < n && PickKind(ms[c], ds[c]).None?
    decreases n
  {
    if n > 0 {
      PicksShort(ms, ds, n - 1);
    }
  }

  /** A pick per field means every field has one, and the picks are in field order. */
  lemma {:induction false} PicksFull(ms: seq<string>, ds: seq<string>, n: nat)
    requires n <= |ms| == |ds|
    ensures |Picks(ms, ds, n)| == n ==>
      forall c :: 0 <= c < n ==> PickKind(ms[c], ds[c]).Some? && Picks(ms, ds, n)[c] == PickKind(ms[c], ds[c]).value
    decreases n
  {
    if n > 0 && |Picks(ms, ds, n)| == n {
      PicksShort(ms, ds, n - 1);
      PicksFull(ms, ds, n - 1);
      var p, prev := PickKind(ms[n - 1], ds[n - 1]), Picks(ms, ds, n - 1);
      assert p.Some? && Picks(ms, ds, n) == prev + [p.value];
      forall c | 0 <= c < n
        ensures PickKind(ms[c], ds[c]).Some? && Picks(ms, ds, n)[c] == PickKind(ms[c], ds[c]).value
      {
        if c < n - 1 {
          assert Picks(ms, ds, n)[c] == prev[c];
        }
      }
    }
  }

  lemma PicksSnoc(ms: seq<string>, ds: seq<string>, c: nat)
    requires c < |ms| == |ds|
    ensures Picks(ms, ds, c + 1) ==
      if PickKind(ms[c], ds[c]).Some? then Picks(ms, ds, c) + [PickKind(ms[c], ds[c]).value] else Picks(ms, ds, c)
  {
  }

  /** The picks of all fields stand for a reconciliation exactly when every field has a pick. */
  lemma PicksMeaning(ms: seq<string>, ds: seq<string>)
    requires |ms| == |ds|
    ensures |Picks(ms, ds, |ms|)| == |ms| <==> forall c :: 0 <= c < |ms| ==> PickKind(ms[c], ds[c]).Some?
    ensures |Picks(ms, ds, |ms|)| == |ms| ==>
      forall c :: 0 <= c < |ms| ==> Picks(ms, ds, |ms|)[c] == PickKind(ms[c], ds[c]).value
  {
    PicksShort(ms, ds, |ms|);
    PicksFull(ms, ds, |ms|);
  }

  /**
   * The `con_types` loop of `merge_formatted`: one type code per field where
   * the two codes can be reconciled, and the result only if every field has one.
   */
  method Reconcile(ms: seq<string>, ds: seq<string>) returns (r: Option<seq<string>>)
    requires |ms| == |ds|
    ensures r.Some? <==> forall c :: 0 <= c < |ms| ==> PickKind(ms[c], ds[c]).Some?
    ensures r.Some? ==> |r.value| == |ms| && forall c :: 0 <= c < |ms| ==> r.value[c] == PickKind(ms[c], ds[c]).value
  {
    var conTypes: seq<string> := [];
    for c := 0 to |ms|
      invariant conTypes == Picks(ms, ds, c)
    {
      var m, d := ms[c], ds[c];
      PicksSnoc(ms, ds, c);
      if m == d {
        conTypes := conTypes + [m];
      } else if Prefix2(m) == Prefix2(d) {
        if Width(m) >= Width(d) {
          conTypes := conTypes + [m];
        } else {
          conTypes := conTypes + [d];
        }
      }
    }
    PicksMeaning(ms, ds);
    if |conTypes| == |ms| {
      r := Some(conTypes);
    } else {
      r := None;
    }
  }

  /** The records of every array in the list, in list order. */
  function ConcatRows(ts: seq<Table>): (r: seq<seq<Cell>>)
    ensures |ts| == 1 ==> r == ts[0].rows
    ensures |ts| > 0 ==> ts[0].rows <= r
    ensures forall i :: 0 <= i < |ts| ==> |ts[i].rows| <= |r|
    decreases |ts|
  {
    if |ts| == 0 then []
    else
      var front := ConcatRows(ts[..|ts| - 1]);
      assert |ts| > 1 ==> ts[..|ts| - 1][0] == ts[0];
      assert forall i :: 0 <= i < |ts| - 1 ==> ts[..|ts| - 1][i] == ts[i];
      front + ts[|ts| - 1].rows
  }

  /** Every type code pair of two arrays with the same fields can be reconciled. */
  predicate Reconcilable(ms: seq<string>, ds: seq<string>)
    requires |ms| == |ds|
  {
    forall c :: 0 <= c < |ms| ==> PickKind(ms[c], ds[c]).Some?
  }

  /**
   * One round of the loop of `merge_formatted`: equal types concatenate; different
   * field names raise `TypeError`; type codes that cannot all be reconciled raise
   * `TypeError`; otherwise the records are rebuilt field by field under the
   * reconciled types, which fails on `flipped_temp[i]` when there is no record.
   */
  function MergeStep(merged: Table, next: Table): (r: Result<Table>)
    requires |merged.kinds| == |merged.names| && |next.kinds| == |next.names|
    ensures r.Ok? ==> |r.value.kinds| == |r.value.names| == |merged.names|
  {
    if merged.names == next.names && merged.kinds == next.kinds then
      Ok(Table(merged.names, merged.kinds, merged.rows + next.rows))
    else if merged.names != next.names then Err(TypeError)
    else if !Reconcilable(merged.kinds, next.kinds) then Err(TypeError)
    else if |merged.rows| + |next.rows| == 0 && |merged.names| > 0 then Err(IndexError)
    else
      var ks := seq(|merged.kinds|, c requires 0 <= c < |merged.kinds| => PickKind(merged.kinds[c], next.kinds[c]).value);
      Ok(Table(merged.names, ks, merged.rows + next.rows))
  }

  /**
   * A round fails with `TypeError` on different field names or irreconcilable
   * types, and otherwise keeps the field names, appends the records and gives
   * every field a type code of the same kind, at least as wide as both.
   */
  lemma MergeStepMeaning(merged: Table, next: Table)
    requires |merged.kinds| == |merged.names| && |next.kinds| == |next.names|
    ensures var r := MergeStep(merged, next);
      (merged.names != next.names ==> r == Err(TypeError)) &&
      (merged.names == next.names && merged.kinds == next.kinds ==>
        r == Ok(Table(merged.names, merged.kinds, merged.rows + next.rows))) &&
      (merged.names == next.names && !Reconcilable(merged.kinds, next.kinds) ==> r == Err(TypeError)) &&
      (r.Err? ==> r.error == TypeError || r.error == IndexError) &&
      (r.Ok? ==> r.value.names == merged.names && r.value.rows == merged.rows + next.rows)
    ensures var r := MergeStep(merged, next);
      r.Ok? ==> |r.value.kinds| == |merged.kinds| && forall c :: 0 <= c < |merged.kinds| ==>
        Prefix2(r.value.kinds[c]) == Prefix2(merged.kinds[c]) == Prefix2(next.kinds[c]) &&
        Width(r.value.kinds[c]) >= Width(merged.kinds[c]) && Width(r.value.kinds[c]) >= Width(next.kinds[c])
  {
  }

  /** The body of the loop of `merge_formatted`: one array merged into the result so far. */
  method MergeRound(merged: Table, next: Table) returns (r: Result<Table>)
    requires |merged.kinds| == |merged.names| && |next.kinds| == |next.names|
    ensures r == MergeStep(merged, next)
  {
    if merged.names != next.names || merged.kinds != next.kinds {
      if merged.names != next.names {
        return Err(TypeError);
      }
      var conTypes := Reconcile(merged.kinds, next.kinds);
      if conTypes.None? {
        return Err(TypeError);
      }
      if |merged.rows| + |next.rows| == 0 && |merged.names| > 0 {
        return Err(IndexError);
      }
      assert conTypes.value == seq(|merged.kinds|, c requires 0 <= c < |merged.kinds| => PickKind(merged.kinds[c], next.kinds[c]).value);
      r := Ok(Table(merged.names, conTypes.value, merged.rows + next.rows));
    } else {
      r := Ok(Table(merged.names, merged.kinds, merged.rows + next.rows));
    }
  }

  /** The result of merging the first n arrays, one round at a time. */
  ghost function Merged(ts: seq<Table>, n: nat): (r: Result<Table>)
    requires 0 < n <= |ts| && forall i :: 0 <= i < |ts| ==> WellFormed(ts[i])
    ensures r.Ok? ==> |r.value.kinds| == |r.value.names|
    decreases n
  {
    if n == 1 then assert WellFormed(ts[0]); Ok(ts[0])
    else
      match Merged(ts, n - 1)
      case Err(e) => Err(e)
      case Ok(m) => MergeStep(m, ts[n - 1])
  }

  /** Once a round has failed, the merge fails with that error. */
  lemma {:induction false} MergedErrStays(ts: seq<Table>, i: nat, n: nat)
    requires 0 < i <= n <= |ts| && forall j :: 0 <= j < |ts| ==> WellFormed(ts[j])
    requires Merged(ts, i).Err?
    ensures Merged(ts, n) == Merged(ts, i)
    decreases n
  {
    if n > i {
      MergedErrStays(ts, i, n - 1);
    }
  }

  /** All arrays have the field names of the first. */
  ghost predicate SameNames(ts: seq<Table>, n: nat)
    requires 0 < n <= |ts|
  {
    forall i :: 0 <= i < n ==> ts[i].names == ts[0].names
  }

  lemma ConcatRowsSnoc(ts: seq<Table>, n: nat)
    requires 0 < n <= |ts|
    ensures ConcatRows(ts[..n]) == ConcatRows(ts[..n - 1]) + ts[n - 1].rows
  {
    assert ts[..n][..n - 1] == ts[..n - 1];
  }

  /**
   * `merge_formatted(data_form)`: a single array is returned as it is; an empty
   * list fails on `data_form[0]`; otherwise the arrays are merged into the first
   * one round after round.
   */
  method MergeFormatted(dataForm: seq<Table>) returns (r: Result<Table>)
    requires forall i :: 0 <= i < |dataForm| ==> WellFormed(dataForm[i])
    ensures |dataForm| == 0 ==> r == Err(IndexError)
    ensures |dataForm| == 1 ==> r == Ok(dataForm[0])
    ensures |dataForm| > 0 ==> r == Merged(dataForm, |dataForm|)
  {
    if |dataForm| == 1 {
      return Ok(dataForm[0]);
    }
    if |dataForm| == 0 {
      return Err(IndexError);
    }
    var merged := dataForm[0];
    for i := 1 to |dataForm|
      invariant Merged(dataForm, i) == Ok(merged)
    {
      var next := dataForm[i];
      var step := MergeRound(merged, next);
      if step.Err? {
        MergedErrStays(dataForm, i + 1, |dataForm|);
        return step;
      }
      merged := step.value;
    }
    r := Ok(merged);
  }

  /** A successful merge has the field names of every array and their records in list order. */
  lemma {:induction false} MergedNamesRows(ts: seq<Table>, n: nat)
    requires 0 < n <= |ts| && forall i :: 0 <= i < |ts| ==> WellFormed(ts[i])
    requires Merged(ts, n).Ok?
    ensures SameNames(ts, n)
    ensures Merged(ts, n).value.names == ts[0].names
    ensures Merged(ts, n).value.rows == ConcatRows(ts[..n])
    decreases n
  {
    if n == 1 {
      assert ts[..1] == [ts[0]];
    } else {
      MergedNamesRows(ts, n - 1);
      MergeStepMeaning(Merged(ts, n - 1).value, ts[n - 1]);
      ConcatRowsSnoc(ts, n);
    }
  }

  /** Each type code in k has the kind of the code of the same field in each of the first n arrays, and is at least as wide. */
  ghost predicate KindsCover(k: seq<string>, ts: seq<Table>, n: nat)
    requires n <= |ts|
  {
    forall i, c :: 0 <= i < n && 0 <= c < |k| ==> CoversAt(k, ts[i], c)
  }

  /** Code c of k has the kind of code c of t and is at least as wide. */
  predicate CoversAt(k: seq<string>, t: Table, c: nat)
    requires c < |k|
  {
    c < |t.kinds| && Prefix2(k[c]) == Prefix2(t.kinds[c]) && Width(k[c]) >= Width(t.kinds[c])
  }

  /** The cover of the first n arrays, read at array i and field c. */
  lemma KindsCoverAt(k: seq<string>, ts: seq<Table>, n: nat, i: nat, c: nat)
    requires n <= |ts| && KindsCover(k, ts, n) && i < n && c < |k|
    ensures CoversAt(k, ts[i], c)
  {
  }

  /** A successful round, read at field c: the new code has the kind of both codes and is at least as wide. */
  lemma MergeStepAt(merged: Table, next: Table, c: nat)
    requires |merged.kinds| == |merged.names| && |next.kinds| == |next.names|
    requires MergeStep(merged, next).Ok? && c < |merged.kinds|
    ensures |MergeStep(merged, next).value.kinds| == |merged.kinds| == |next.kinds|
    ensures var k := MergeStep(merged, next).value.kinds;
      Prefix2(k[c]) == Prefix2(merged.kinds[c]) == Prefix2(next.kinds[c]) &&
      Width(k[c]) >= Width(merged.kinds[c]) && Width(k[c]) >= Width(next.kinds[c])
  {
    MergeStepMeaning(merged, next);
  }

  /** A round keeps the cover of the arrays merged so far and extends it to the next array. */
  lemma KindsCoverStep(m: Table, ts: seq<Table>, n: nat)
    requires 1 < n <= |ts| && |m.kinds| == |m.names| && |ts[n - 1].kinds| == |ts[n - 1].names|
    requires MergeStep(m, ts[n - 1]).Ok? && KindsCover(m.kinds, ts, n - 1)
    ensures |MergeStep(m, ts[n - 1]).value.kinds| == |m.kinds|
    ensures KindsCover(MergeStep(m, ts[n - 1]).value.kinds, ts, n)
  {
    var k := MergeStep(m, ts[n - 1]).value.kinds;
    forall i, c | 0 <= i < n && 0 <= c < |k|
      ensures CoversAt(k, ts[i], c)
    {
      MergeStepAt(m, ts[n - 1], c);
      if i < n - 1 {
        KindsCoverAt(m.kinds, ts, n - 1, i, c);
      }
    }
  }

  /** Each merged type code has the kind of every array's code for that field and is at least as wide. */
  lemma {:induction false} MergedKinds(ts: seq<Table>, n: nat)
    requires 0 < n <= |ts| && forall i :: 0 <= i < |ts| ==> WellFormed(ts[i])
    requires Merged(ts, n).Ok?
    ensures |Merged(ts, n).value.kinds| == |ts[0].kinds|
    ensures KindsCover(Merged(ts, n).value.kinds, ts, n)
    decreases n
  {
    if n > 1 {
      MergedKinds(ts, n - 1);
      assert WellFormed(ts[n - 1]);
      KindsCoverStep(Merged(ts, n - 1).value, ts, n);
    } else {
      assert WellFormed(ts[0]);
    }
  }

  /**
   * What a successful merge is: every array has the field names of the first,
   * the records are all the arrays' records in list order, and each merged type
   * code has the kind of every array's code for that field and an item size at
   * least as large, so that every value fits.
   */
  lemma MergedMeaning(ts: seq<Table>, n: nat)
    requires 0 < n <= |ts| && forall i :: 0 <= i < |ts| ==> WellFormed(ts[i])
    requires Merged(ts, n).Ok?
    ensures SameNames(ts, n)
    ensures Merged(ts, n).value.names == ts[0].names
    ensures Merged(ts, n).value.rows == ConcatRows(ts[..n])
    ensures forall i, c :: 0 <= i < n && 0 <= c < |ts[0].names| ==>
      Prefix2(Merged(ts, n).value.kinds[c]) == Prefix2(ts[i].kinds[c]) &&
      Width(Merged(ts, n).value.kinds[c]) >= Width(ts[i].kinds[c])
  {
    MergedNamesRows(ts, n);
    MergedKinds(ts, n);
    assert WellFormed(ts[0]);
    var k := Merged(ts, n).value.kinds;
    forall i, c | 0 <= i < n && 0 <= c < |ts[0].names|
      ensures Prefix2(k[c]) == Prefix2(ts[i].kinds[c]) && Width(k[c]) >= Width(ts[i].kinds[c])
    {
      KindsCoverAt(k, ts, n, i, c);
    }
  }

  /** Arrays of one and the same type merge into the concatenation of their records. */
  lemma {:induction false} SameTypesMerge(ts: seq<Table>, n: nat)
    requires 0 < n <= |ts| && forall i :: 0 <= i < |ts| ==> WellFormed(ts[i])
    requires forall i :: 0 <= i < n ==> ts[i].names == ts[0].names && ts[i].kinds == ts[0].kinds
    ensures Merged(ts, n) == Ok(Table(ts[0].names, ts[0].kinds, ConcatRows(ts[..n])))
    decreases n
  {
    if n == 1 {
      assert ts[..1] == [ts[0]];
    } else {
      SameTypesMerge(ts, n - 1);
      MergeStepMeaning(Merged(ts, n - 1).value, ts[n - 1]);
      ConcatRowsSnoc(ts, n);
    }
  }
}
