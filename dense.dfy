/**
 * `format_dense` of utils/form_func.py: turning "dense" records, which hold one
 * count column per species, into long records with one row per record and
 * species, a `spp` field naming the species and a count field, and dropping
 * the rows whose count is zero.
 */
module Dense {
  import opened Outcomes
  import opened Strings
  import opened Codes
  import opened Tables

  /** The field that receives the species names, and its type: strings of at most 22 bytes. */
  const SpeciesField: string := "spp"
  const SpeciesKind: string := "|S22"
  const SpeciesWidth: nat := 22
  /** The type of the count field, numpy's `float`. */
  const CountKind: string := "<f8"

  /** A string stored in a field of `width` bytes: its first `width` characters. */
  function Truncate(s: string, width: nat): (r: string)
    ensures |r| <= width && r <= s
    ensures |s| <= width ==> r == s
  {
    if |s| <= width then s else s[..width]
  }

  /**
   * The number of species fields of each array: an `int` stands for a one-element
   * tuple, a one-element tuple is repeated for every array, and any other length
   * than the number of arrays raises `TypeError`.
   */
  function SpeciesCounts(numSpp: Item<nat>, years: nat): (r: Result<seq<nat>>)
    ensures numSpp.NotIterable? ==> r == Err(TypeError)
    ensures !numSpp.NotIterable? ==>
      (r.Ok? <==> |AsTuple(numSpp).value| == years || |AsTuple(numSpp).value| == 1)
    ensures r.Err? ==> r.error == TypeError
    ensures r.Ok? ==> |r.value| == years
    ensures r.Ok? ==> forall k :: 0 <= k < years ==>
      r.value[k] == AsTuple(numSpp).value[k % |AsTuple(numSpp).value|]
  {
    match AsTuple(numSpp)
    case None => Err(TypeError)
    case Some(xs) =>
      match Stretch(years, xs)
      case None => Err(TypeError)
      case Some(ys) => Ok(ys)
  }

  /** Where `names[spp_col : spp_col + n]` starts, Python's slice bounds clamped to the list. */
  function Lo(t: Table, sppCol: nat): (a: nat)
    ensures a <= |t.names|
  {
    if sppCol < |t.names| then sppCol else |t.names|
  }

  /** Where `names[spp_col : spp_col + n]` ends. */
  function Hi(t: Table, sppCol: nat, n: nat): (b: nat)
    ensures Lo(t, sppCol) <= b <= |t.names|
  {
    if sppCol + n < |t.names| then sppCol + n else |t.names|
  }

  /** `names[spp_col : spp_col + n]`: the species fields, each holding one species' count. */
  function SpeciesNames(t: Table, sppCol: nat, n: nat): (r: seq<string>)
    ensures |r| == Hi(t, sppCol, n) - Lo(t, sppCol)
    ensures forall j :: 0 <= j < |r| ==> r[j] == t.names[Lo(t, sppCol) + j]
  {
    t.names[Lo(t, sppCol)..Hi(t, sppCol, n)]
  }

  /**
   * The fields before and after the species fields, which every long record
   * keeps. Both branches of the source's `if` give this list: when the species
   * fields run to the end, the second part is empty.
   */
  function KeptNames(t: Table, sppCol: nat, n: nat): (r: seq<string>)
    ensures |r| == |t.names| - (Hi(t, sppCol, n) - Lo(t, sppCol))
  {
    t.names[..Lo(t, sppCol)] + t.names[Hi(t, sppCol, n)..]
  }

  function KeptKinds(t: Table, sppCol: nat, n: nat): (r: seq<string>)
    requires |t.kinds| == |t.names|
    ensures |r| == |KeptNames(t, sppCol, n)|
  {
    t.kinds[..Lo(t, sppCol)] + t.kinds[Hi(t, sppCol, n)..]
  }

  /** The fields of the long array: the kept fields, then `spp` and the count field. */
  function OutNames(t: Table, sppCol: nat, n: nat, countCol: string): (r: seq<string>)
    ensures |r| == |KeptNames(t, sppCol, n)| + 2
  {
    KeptNames(t, sppCol, n) + [SpeciesField, countCol]
  }

  function OutKinds(t: Table, sppCol: nat, n: nat): (r: seq<string>)
    requires |t.kinds| == |t.names|
    ensures |r| == |KeptNames(t, sppCol, n)| + 2
  {
    KeptKinds(t, sppCol, n) + [SpeciesKind, CountKind]
  }

  /** The position among the original fields of kept field s. */
  function KeptSource(t: Table, sppCol: nat, n: nat, s: nat): (k: nat)
    requires s < |KeptNames(t, sppCol, n)|
    ensures k < |t.names| && t.names[k] == KeptNames(t, sppCol, n)[s]
    ensures k < Lo(t, sppCol) || Hi(t, sppCol, n) <= k
  {
    if s < Lo(t, sppCol) then s else s + (Hi(t, sppCol, n) - Lo(t, sppCol))
  }

  /** The long record for record i and species j. */
  ghost function Target(t: Table, sppCol: nat, n: nat, i: nat, j: nat): (r: seq<Cell>)
    requires WellFormed(t) && i < |t.rows| && j < Hi(t, sppCol, n) - Lo(t, sppCol)
    ensures |r| == |KeptNames(t, sppCol, n)| + 2
  {
    var row, a, b := t.rows[i], Lo(t, sppCol), Hi(t, sppCol, n);
    row[..a] + row[b..] + [Text(Truncate(t.names[a + j], SpeciesWidth)), row[a + j]]
  }

  /** The long records of record i, one per species. */
  ghost function Block(t: Table, sppCol: nat, n: nat, i: nat): (r: seq<seq<Cell>>)
    requires WellFormed(t) && i < |t.rows|
    ensures |r| == Hi(t, sppCol, n) - Lo(t, sppCol)
  {
    var ls := Hi(t, sppCol, n) - Lo(t, sppCol);
    seq(ls, j requires 0 <= j < ls => Target(t, sppCol, n, i, j))
  }

  /** The long records of the first m records, record after record. */
  ghost function LongRows(t: Table, sppCol: nat, n: nat, m: nat): (r: seq<seq<Cell>>)
    requires WellFormed(t) && m <= |t.rows|
    ensures forall q :: 0 <= q < |r| ==> |r[q]| == |KeptNames(t, sppCol, n)| + 2
    decreases m
  {
    if m == 0 then [] else LongRows(t, sppCol, n, m - 1) + Block(t, sppCol, n, m - 1)
  }

  /** There are `ls` long records per record. */
  lemma {:induction false} LongRowsLength(t: Table, sppCol: nat, n: nat, m: nat)
    requires WellFormed(t) && m <= |t.rows|
    ensures |LongRows(t, sppCol, n, m)| == (Hi(t, sppCol, n) - Lo(t, sppCol)) * m
    decreases m
  {
    if m > 0 {
      LongRowsLength(t, sppCol, n, m - 1);
      var ls := Hi(t, sppCol, n) - Lo(t, sppCol);
      assert ls * (m - 1) + ls == ls * m;
    }
  }

  /** The long records of fewer records are a prefix of those of more. */
  lemma {:induction false} LongRowsPrefix(t: Table, sppCol: nat, n: nat, k: nat, m: nat)
    requires WellFormed(t) && k <= m <= |t.rows|
    ensures LongRows(t, sppCol, n, k) <= LongRows(t, sppCol, n, m)
    decreases m
  {
    if k < m {
      LongRowsPrefix(t, sppCol, n, k, m - 1);
    }
  }

  /** The block of record i sits right after the long records of the records before it. */
  lemma BlockAt(t: Table, sppCol: nat, n: nat, m: nat, i: nat)
    requires WellFormed(t) && i < m <= |t.rows|
    ensures |LongRows(t, sppCol, n, i + 1)| == |LongRows(t, sppCol, n, i)| + (Hi(t, sppCol, n) - Lo(t, sppCol))
    ensures |LongRows(t, sppCol, n, i + 1)| <= |LongRows(t, sppCol, n, m)|
    ensures forall j :: 0 <= j < Hi(t, sppCol, n) - Lo(t, sppCol) ==>
      LongRows(t, sppCol, n, m)[|LongRows(t, sppCol, n, i)| + j] == Target(t, sppCol, n, i, j)
  {
    LongRowsPrefix(t, sppCol, n, i + 1, m);
    forall j | 0 <= j < Hi(t, sppCol, n) - Lo(t, sppCol)
      ensures LongRows(t, sppCol, n, m)[|LongRows(t, sppCol, n, i)| + j] == Target(t, sppCol, n, i, j)
    {
      BlockEntry(t, sppCol, n, m, i, j);
    }
  }

  lemma {:induction false} BlockEntry(t: Table, sppCol: nat, n: nat, m: nat, i: nat, j: nat)
    requires WellFormed(t) && i < m <= |t.rows| && j < Hi(t, sppCol, n) - Lo(t, sppCol)
    ensures |LongRows(t, sppCol, n, i)| + j < |LongRows(t, sppCol, n, m)|
    ensures LongRows(t, sppCol, n, m)[|LongRows(t, sppCol, n, i)| + j] == Target(t, sppCol, n, i, j)
    decreases m
  {
    var prev, block := LongRows(t, sppCol, n, m - 1), Block(t, sppCol, n, m - 1);
    assert LongRows(t, sppCol, n, m) == prev + block;
    if i < m - 1 {
      BlockEntry(t, sppCol, n, m - 1, i, j);
    } else {
      AppendAt(prev, block, j);
    }
  }

  /** The fields of a long record: the kept fields of its record, its species and that species' count. */
  lemma TargetAt(t: Table, sppCol: nat, n: nat, i: nat, j: nat, s: nat)
    requires WellFormed(t) && i < |t.rows| && j < Hi(t, sppCol, n) - Lo(t, sppCol)
    requires s < |KeptNames(t, sppCol, n)|
    ensures var target, w := Target(t, sppCol, n, i, j), |KeptNames(t, sppCol, n)| + 2;
      target[s] == t.rows[i][KeptSource(t, sppCol, n, s)] &&
      target[w - 2] == Text(Truncate(SpeciesNames(t, sppCol, n)[j], SpeciesWidth)) &&
      target[w - 1] == t.rows[i][Lo(t, sppCol) + j]
  {
  }

  /**
   * A record of the long array while it is being filled: the first k fields
   * are written and, from the first field on, `spp` and the count as well.
   */
  ghost function Written(target: seq<Cell>, k: nat, blank: Cell): (r: seq<Cell>)
    ensures |r| == |target|
  {
    seq(|target|, c requires 0 <= c < |target| =>
      if c < k || (0 < k && |target| - 2 <= c) then target[c] else blank)
  }

  lemma WrittenEnds(target: seq<Cell>, blank: Cell)
    requires |target| >= 2
    ensures Written(target, 0, blank) == Blanks(|target|, blank)
    ensures |target| > 2 ==> Written(target, |target| - 2, blank) == target
  {
    assert forall c :: 0 <= c < |target| ==> Written(target, 0, blank)[c] == Blanks(|target|, blank)[c];
  }

  /** Writing field k; the first field is written together with `spp` and the count. */
  lemma WrittenStep(target: seq<Cell>, k: nat, blank: Cell)
    requires k < |target| - 2
    ensures k == 0 ==> Written(target, 0, blank)[0 := target[0]][|target| - 2 := target[|target| - 2]]
      [|target| - 1 := target[|target| - 1]] == Written(target, 1, blank)
    ensures k > 0 ==> Written(target, k, blank)[k := target[k]] == Written(target, k + 1, blank)
  {
  }

  /** The records of the long array before the zero counts are dropped. */
  ghost function ExpandedRows(t: Table, sppCol: nat, n: nat, blank: Cell): seq<seq<Cell>>
    requires WellFormed(t)
  {
    var rs := LongRows(t, sppCol, n, |t.rows|);
    seq(|rs|, q requires 0 <= q < |rs| => Written(rs[q], |KeptNames(t, sppCol, n)|, blank))
  }

  /**
   * The long array of one dense array: numpy refuses a type with a repeated
   * field name (`spp` or the count field clashing with a kept field) with
   * `ValueError`.
   */
  ghost function Expanded(t: Table, sppCol: nat, n: nat, countCol: string, blank: Cell): (r: Result<Table>)
    requires WellFormed(t)
    ensures r.Ok? <==> Distinct(OutNames(t, sppCol, n, countCol))
    ensures r.Err? ==> r.error == ValueError
  {
    if !Distinct(OutNames(t, sppCol, n, countCol)) then Err(ValueError)
    else Ok(Table(OutNames(t, sppCol, n, countCol), OutKinds(t, sppCol, n), ExpandedRows(t, sppCol, n, blank)))
  }

  /**
   * One slice assignment of the loop: the `ls` long records of record i, from
   * `cnt`, receive field s of that record, and for the first field also the
   * species names and the counts.
   */
  method FillBlock(out: array<seq<Cell>>, t: Table, sppCol: nat, n: nat, s: nat, col: nat, i: nat, cnt: nat,
                   ghost rs: seq<seq<Cell>>, blank: Cell)
    requires WellFormed(t) && |rs| == out.Length
    requires s < |KeptNames(t, sppCol, n)| && col == KeptSource(t, sppCol, n, s)
    requires i < |t.rows| && cnt + (Hi(t, sppCol, n) - Lo(t, sppCol)) <= out.Length
    requires forall j :: 0 <= j < Hi(t, sppCol, n) - Lo(t, sppCol) ==> rs[cnt + j] == Target(t, sppCol, n, i, j)
    requires forall q :: 0 <= q < cnt ==> out[q] == Written(rs[q], s + 1, blank)
    requires forall q :: cnt <= q < out.Length ==> out[q] == Written(rs[q], s, blank)
    modifies out
    ensures forall q :: 0 <= q < cnt + (Hi(t, sppCol, n) - Lo(t, sppCol)) ==> out[q] == Written(rs[q], s + 1, blank)
    ensures forall q :: cnt + (Hi(t, sppCol, n) - Lo(t, sppCol)) <= q < out.Length ==> out[q] == Written(rs[q], s, blank)
  {
    var a, ls := Lo(t, sppCol), Hi(t, sppCol, n) - Lo(t, sppCol);
    var w := |KeptNames(t, sppCol, n)| + 2;
    var species := SpeciesNames(t, sppCol, n);
    var record := t.rows[i];
    for j := 0 to ls
      invariant forall q :: 0 <= q < cnt + j ==> out[q] == Written(rs[q], s + 1, blank)
      invariant forall q :: cnt + j <= q < out.Length ==> out[q] == Written(rs[q], s, blank)
    {
      TargetAt(t, sppCol, n, i, j, s);
      WrittenStep(rs[cnt + j], s, blank);
      if s == 0 {
        out[cnt + j] := out[cnt + j][s := record[col]][w - 2 := Text(Truncate(species[j], SpeciesWidth))][w - 1 := record[a + j]];
      } else {
        out[cnt + j] := out[cnt + j][s := record[col]];
      }
    }
  }

  /** The pass of the loop over the records for kept field s, `cnt` advancing by `ls`. */
  method FillField(out: array<seq<Cell>>, t: Table, sppCol: nat, n: nat, s: nat,
                   ghost rs: seq<seq<Cell>>, blank: Cell)
    requires WellFormed(t) && rs == LongRows(t, sppCol, n, |t.rows|) && out.Length == |rs|
    requires s < |KeptNames(t, sppCol, n)|
    requires forall q :: 0 <= q < out.Length ==> out[q] == Written(rs[q], s, blank)
    modifies out
    ensures forall q :: 0 <= q < out.Length ==> out[q] == Written(rs[q], s + 1, blank)
  {
    var ls := Hi(t, sppCol, n) - Lo(t, sppCol);
    var name := KeptNames(t, sppCol, n)[s];
    var col := IndexOf(t.names, name);
    IndexOfUnique(t.names, name, KeptSource(t, sppCol, n, s));
    var cnt := 0;
    for i := 0 to |t.rows|
      invariant cnt == |LongRows(t, sppCol, n, i)| && cnt <= out.Length
      invariant forall q :: 0 <= q < cnt ==> out[q] == Written(rs[q], s + 1, blank)
      invariant forall q :: cnt <= q < out.Length ==> out[q] == Written(rs[q], s, blank)
    {
      BlockAt(t, sppCol, n, |t.rows|, i);
      FillBlock(out, t, sppCol, n, s, col, i, cnt, rs, blank);
      cnt := cnt + ls;
    }
  }

  /** The long array of one dense array, before the zero counts are dropped. */
  method ExpandYear(t: Table, sppCol: nat, n: nat, countCol: string, blank: Cell) returns (r: Result<Table>)
    requires WellFormed(t)
    ensures r == Expanded(t, sppCol, n, countCol, blank)
  {
    var ls := Hi(t, sppCol, n) - Lo(t, sppCol);
    var names := OutNames(t, sppCol, n, countCol);
    if !Distinct(names) {
      return Err(ValueError);
    }
    var kept := |KeptNames(t, sppCol, n)|;
    var dataOut := new seq<Cell>[ls * |t.rows|](_ => Blanks(kept + 2, blank));
    ghost var rs := LongRows(t, sppCol, n, |t.rows|);
    LongRowsLength(t, sppCol, n, |t.rows|);
    forall q | 0 <= q < dataOut.Length ensures dataOut[q] == Written(rs[q], 0, blank) {
      WrittenEnds(rs[q], blank);
    }
    for s := 0 to kept
      invariant forall q :: 0 <= q < dataOut.Length ==> dataOut[q] == Written(rs[q], s, blank)
    {
      FillField(dataOut, t, sppCol, n, s, rs, blank);
    }
    assert dataOut[..] == ExpandedRows(t, sppCol, n, blank);
    r := Ok(Table(names, OutKinds(t, sppCol, n), dataOut[..]));
  }

  /** The long array is well formed, with the kept fields followed by `spp` and the count field. */
  lemma ExpandedShape(t: Table, sppCol: nat, n: nat, countCol: string, blank: Cell)
    requires WellFormed(t) && Expanded(t, sppCol, n, countCol, blank).Ok?
    ensures WellFormed(Expanded(t, sppCol, n, countCol, blank).value)
    ensures Expanded(t, sppCol, n, countCol, blank).value.names == KeptNames(t, sppCol, n) + [SpeciesField, countCol]
    ensures |Expanded(t, sppCol, n, countCol, blank).value.rows| == |SpeciesNames(t, sppCol, n)| * |t.rows|
  {
    LongRowsLength(t, sppCol, n, |t.rows|);
  }

  /** Long record `ls * i + j` is the target record of record i and species j. */
  lemma ExpandedRow(t: Table, sppCol: nat, n: nat, countCol: string, blank: Cell, i: nat, j: nat)
    requires WellFormed(t) && Expanded(t, sppCol, n, countCol, blank).Ok?
    requires |KeptNames(t, sppCol, n)| > 0
    requires i < |t.rows| && j < |SpeciesNames(t, sppCol, n)|
    ensures var e, q := Expanded(t, sppCol, n, countCol, blank).value, |SpeciesNames(t, sppCol, n)| * i + j;
      q < |e.rows| && e.rows[q] == Target(t, sppCol, n, i, j)
  {
    var rs := LongRows(t, sppCol, n, |t.rows|);
    var q := |SpeciesNames(t, sppCol, n)| * i + j;
    assert q == |LongRows(t, sppCol, n, i)| + j by {
      LongRowsLength(t, sppCol, n, i);
    }
    assert q < |rs| && rs[q] == Target(t, sppCol, n, i, j) by {
      BlockAt(t, sppCol, n, |t.rows|, i);
    }
    var target := rs[q];
    assert Written(target, |KeptNames(t, sppCol, n)|, blank) == target by {
      WrittenEnds(target, blank);
    }
  }

  /** A kept field of long record `ls * i + j` holds record i's value in that field. */
  lemma ExpandedKept(t: Table, sppCol: nat, n: nat, countCol: string, blank: Cell, i: nat, j: nat, f: string)
    requires WellFormed(t) && Expanded(t, sppCol, n, countCol, blank).Ok?
    requires i < |t.rows| && j < |SpeciesNames(t, sppCol, n)|
    requires f in KeptNames(t, sppCol, n)
    ensures WellFormed(Expanded(t, sppCol, n, countCol, blank).value)
    ensures var e, q := Expanded(t, sppCol, n, countCol, blank).value, |SpeciesNames(t, sppCol, n)| * i + j;
      q < |e.rows| && Column(e, f)[q] == Column(t, f)[i]
  {
    ExpandedShape(t, sppCol, n, countCol, blank);
    var e, kept := Expanded(t, sppCol, n, countCol, blank).value, KeptNames(t, sppCol, n);
    var q := |SpeciesNames(t, sppCol, n)| * i + j;
    assert q < |e.rows| && e.rows[q] == Target(t, sppCol, n, i, j) by {
      ExpandedRow(t, sppCol, n, countCol, blank, i, j);
    }
    var s :| 0 <= s < |kept| && kept[s] == f;
    var k := KeptSource(t, sppCol, n, s);
    assert IndexOf(e.names, f) == s by {
      IndexOfUnique(e.names, f, s);
    }
    assert IndexOf(t.names, f) == k by {
      IndexOfUnique(t.names, f, k);
    }
    assert e.rows[q][s] == t.rows[i][k] by {
      TargetAt(t, sppCol, n, i, j, s);
    }
    var c := Column(e, f);
    assert c[q] == e.rows[q][s];
  }

  /**
   * Long record `ls * i + j` carries record i's value in every kept field, the
   * j-th species name (cut to 22 characters) in `spp`, and in the count field
   * record i's value in that species' field.
   */
  lemma ExpandedAt(t: Table, sppCol: nat, n: nat, countCol: string, blank: Cell, i: nat, j: nat)
    requires WellFormed(t) && Expanded(t, sppCol, n, countCol, blank).Ok?
    requires |KeptNames(t, sppCol, n)| > 0
    requires i < |t.rows| && j < |SpeciesNames(t, sppCol, n)|
    ensures WellFormed(Expanded(t, sppCol, n, countCol, blank).value)
    ensures var e, q := Expanded(t, sppCol, n, countCol, blank).value, |SpeciesNames(t, sppCol, n)| * i + j;
      q < |e.rows| &&
      Column(e, SpeciesField)[q] == Text(Truncate(SpeciesNames(t, sppCol, n)[j], SpeciesWidth)) &&
      Column(e, countCol)[q] == Column(t, SpeciesNames(t, sppCol, n)[j])[i] &&
      forall f :: f in KeptNames(t, sppCol, n) ==> Column(e, f)[q] == Column(t, f)[i]
  {
    ExpandedShape(t, sppCol, n, countCol, blank);
    var e, kept, species := Expanded(t, sppCol, n, countCol, blank).value, KeptNames(t, sppCol, n), SpeciesNames(t, sppCol, n);
    var q, a := |species| * i + j, Lo(t, sppCol);
    assert q < |e.rows| && e.rows[q] == Target(t, sppCol, n, i, j) by {
      ExpandedRow(t, sppCol, n, countCol, blank, i, j);
    }
    assert IndexOf(e.names, SpeciesField) == |kept| by {
      IndexOfUnique(e.names, SpeciesField, |kept|);
    }
    assert IndexOf(e.names, countCol) == |kept| + 1 by {
      IndexOfUnique(e.names, countCol, |kept| + 1);
    }
    assert IndexOf(t.names, species[j]) == a + j by {
      IndexOfUnique(t.names, species[j], a + j);
    }
    assert e.rows[q][|kept|] == Text(Truncate(species[j], SpeciesWidth)) && e.rows[q][|kept| + 1] == t.rows[i][a + j] by {
      TargetAt(t, sppCol, n, i, j, 0);
    }
    var cs, cc, ct := Column(e, SpeciesField), Column(e, countCol), Column(t, species[j]);
    assert cs[q] == e.rows[q][|kept|];
    assert cc[q] == e.rows[q][|kept| + 1];
    assert ct[i] == t.rows[i][a + j];
    forall f | f in kept ensures Column(e, f)[q] == Column(t, f)[i] {
      ExpandedKept(t, sppCol, n, countCol, blank, i, j, f);
    }
  }

  /** Without a kept field the loop never runs: every long record stays as `np.empty` left it. */
  lemma ExpandedBlank(t: Table, sppCol: nat, n: nat, countCol: string, blank: Cell)
    requires WellFormed(t) && Expanded(t, sppCol, n, countCol, blank).Ok?
    requires |KeptNames(t, sppCol, n)| == 0
    ensures forall q :: 0 <= q < |Expanded(t, sppCol, n, countCol, blank).value.rows| ==>
      Expanded(t, sppCol, n, countCol, blank).value.rows[q] == [blank, blank]
  {
    var rs := LongRows(t, sppCol, n, |t.rows|);
    forall q | 0 <= q < |rs| ensures Written(rs[q], 0, blank) == [blank, blank] {
      WrittenEnds(rs[q], blank);
    }
  }

  /** Whether a record's count, field c, is not zero. */
  predicate Counted(x: seq<Cell>, c: nat) {
    c < |x| && x[c] != Num(0.0)
  }

  /** `data_out[data_out[count_col] != 0]`: the records whose count (field c) is not zero, in order. */
  function NonZero(rows: seq<seq<Cell>>, c: nat): (r: seq<seq<Cell>>)
    ensures |r| <= |rows|
    ensures forall x :: x in r <==> x in rows && Counted(x, c)
    decreases |rows|
  {
    if |rows| == 0 then []
    else
      var prev := NonZero(rows[..|rows| - 1], c);
      var last := rows[|rows| - 1];
      assert forall x :: x in rows <==> x in rows[..|rows| - 1] || x == last;
      if Counted(last, c) then prev + [last] else prev
  }

  /** Dropping zeros keeps the order: it distributes over concatenation. */
  lemma {:induction false} NonZeroAppend(xs: seq<seq<Cell>>, ys: seq<seq<Cell>>, c: nat)
    ensures NonZero(xs + ys, c) == NonZero(xs, c) + NonZero(ys, c)
    decreases |ys|
  {
    if |ys| == 0 {
      assert xs + ys == xs;
    } else {
      var ys', zs := ys[..|ys| - 1], xs + ys;
      assert zs[..|zs| - 1] == xs + ys';
      assert zs[|zs| - 1] == ys[|ys| - 1];
      NonZeroAppend(xs, ys', c);
    }
  }

  /** One formatted array: the long array without its zero counts; the count field is the last. */
  ghost function Year(t: Table, sppCol: nat, n: nat, countCol: string, blank: Cell): (r: Result<Table>)
    requires WellFormed(t)
  {
    match Expanded(t, sppCol, n, countCol, blank)
    case Err(e) => Err(e)
    case Ok(x) => Ok(Table(x.names, x.kinds, NonZero(x.rows, |x.names| - 1)))
  }

  method FormatYear(t: Table, sppCol: nat, n: nat, countCol: string, blank: Cell) returns (r: Result<Table>)
    requires WellFormed(t)
    ensures r == Year(t, sppCol, n, countCol, blank)
    ensures r.Err? <==> !Distinct(OutNames(t, sppCol, n, countCol))
    ensures r.Err? ==> r.error == ValueError
  {
    var x := ExpandYear(t, sppCol, n, countCol, blank);
    if x.Err? {
      return Err(x.error);
    }
    var last := |x.value.names| - 1;
    r := Ok(Table(x.value.names, x.value.kinds, NonZero(x.value.rows, last)));
  }

  /** Every one of the first k arrays has a type without repeated field names. */
  predicate NamesDistinct(datayears: seq<Table>, sppCol: nat, counts: seq<nat>, countCol: string, k: nat)
    requires k <= |datayears| == |counts|
  {
    forall p :: 0 <= p < k ==> Distinct(OutNames(datayears[p], sppCol, counts[p], countCol))
  }

  /** The first k formatted arrays are those of the first k dense arrays. */
  ghost predicate FormattedUpTo(out: seq<Table>, datayears: seq<Table>, sppCol: nat, counts: seq<nat>,
                                countCol: string, blank: Cell, k: nat)
    requires k <= |out| && k <= |datayears| == |counts|
    requires forall p :: 0 <= p < |datayears| ==> WellFormed(datayears[p])
  {
    forall p :: 0 <= p < k ==> Ok(out[p]) == Year(datayears[p], sppCol, counts[p], countCol, blank)
  }

  lemma FormattedSnoc(out: seq<Table>, y: Table, datayears: seq<Table>, sppCol: nat, counts: seq<nat>,
                      countCol: string, blank: Cell, k: nat)
    requires k == |out| && k < |datayears| == |counts|
    requires forall p :: 0 <= p < |datayears| ==> WellFormed(datayears[p])
    requires FormattedUpTo(out, datayears, sppCol, counts, countCol, blank, k)
    requires Ok(y) == Year(datayears[k], sppCol, counts[k], countCol, blank)
    ensures FormattedUpTo(out + [y], datayears, sppCol, counts, countCol, blank, k + 1)
  {
    assert forall p :: 0 <= p < k ==> (out + [y])[p] == out[p];
  }

  /**
   * `format_dense(datayears, spp_col, num_spp, count_col)`: the species counts
   * are broadcast to one per array, then every array is formatted in turn.
   */
  method FormatDense(datayears: seq<Table>, sppCol: nat, numSpp: Item<nat>, countCol: string, blank: Cell)
    returns (r: Result<seq<Table>>)
    requires forall k :: 0 <= k < |datayears| ==> WellFormed(datayears[k])
    ensures SpeciesCounts(numSpp, |datayears|).Err? ==> r == Err(TypeError)
    ensures SpeciesCounts(numSpp, |datayears|).Ok? ==>
      var counts := SpeciesCounts(numSpp, |datayears|).value;
      (r.Ok? <==> NamesDistinct(datayears, sppCol, counts, countCol, |datayears|)) &&
      (r.Err? ==> r.error == ValueError) &&
      (r.Ok? ==> (|r.value| == |datayears| &&
        FormattedUpTo(r.value, datayears, sppCol, counts, countCol, blank, |datayears|)))
  {
    var counts := SpeciesCounts(numSpp, |datayears|);
    if counts.Err? {
      return Err(TypeError);
    }
    var dataFormatted: seq<Table> := [];
    for k := 0 to |datayears|
      invariant |dataFormatted| == k
      invariant NamesDistinct(datayears, sppCol, counts.value, countCol, k)
      invariant FormattedUpTo(dataFormatted, datayears, sppCol, counts.value, countCol, blank, k)
    {
      var y := FormatYear(datayears[k], sppCol, counts.value[k], countCol, blank);
      if y.Err? {
        return Err(y.error);
      }
      FormattedSnoc(dataFormatted, y.value, datayears, sppCol, counts.value, countCol, blank, k);
      dataFormatted := dataFormatted + [y.value];
    }
    r := Ok(dataFormatted);
  }
}
