/**
 * numpy structured arrays as the modelled utilities see them, and the two
 * functions of utils/form_func.py that prepend fields: `add_field` and
 * `add_data_fields`.
 */
module Tables {
  import opened Outcomes
  import opened Strings
  import opened Codes

  /** A cell of a structured array: a number or a byte string. */
  datatype Cell = Num(x: real) | Text(s: string)

  /**
   * A structured array: field names, their numpy type codes (`'|S20'`, `'<f8'`)
   * and the records, each a list of cells in field order.
   */
  datatype Table = Table(names: seq<string>, kinds: seq<string>, rows: seq<seq<Cell>>)

  /** What numpy guarantees of every structured array: one type code and one cell per field, no repeated field name. */
  predicate WellFormed(t: Table) {
    |t.kinds| == |t.names| && Distinct(t.names) &&
    forall i :: 0 <= i < |t.rows| ==> |t.rows[i]| == |t.names|
  }

  /** The position of field n. */
  function IndexOf(names: seq<string>, n: string): (k: nat)
    requires n in names
    ensures k < |names| && names[k] == n
    ensures forall j :: 0 <= j < k ==> names[j] != n
  {
    if names[0] == n then 0 else 1 + IndexOf(names[1..], n)
  }

  lemma IndexOfUnique(names: seq<string>, n: string, k: nat)
    requires Distinct(names) && k < |names| && names[k] == n
    ensures IndexOf(names, n) == k
  {
    var m := IndexOf(names, n);
    assert names[m] == names[k];
  }

  /** `t[n]`: the values of field n, one per record. */
  function Column(t: Table, n: string): (c: seq<Cell>)
    requires WellFormed(t) && n in t.names
    ensures |c| == |t.rows|
  {
    var k := IndexOf(t.names, n);
    seq(|t.rows|, i requires 0 <= i < |t.rows| => t.rows[i][k])
  }

  function FieldNames(descr: seq<(string, string)>): (r: seq<string>)
    ensures |r| == |descr|
  {
    seq(|descr|, i requires 0 <= i < |descr| => descr[i].0)
  }

  function FieldKinds(descr: seq<(string, string)>): (r: seq<string>)
    ensures |r| == |descr|
  {
    seq(|descr|, i requires 0 <= i < |descr| => descr[i].1)
  }

  function Blanks(n: nat, blank: Cell): (r: seq<Cell>)
    ensures |r| == n
  {
    seq(n, _ => blank)
  }

  /**
   * The array `add_field(a, descr)` returns: the fields of `descr` first, then
   * those of `a`; the new fields hold what `np.empty` left (here `blank`).
   * numpy refuses a repeated field name with `ValueError`.
   */
  function WithFields(a: Table, descr: seq<(string, string)>, blank: Cell): (r: Result<Table>)
    requires WellFormed(a)
    ensures r.Ok? ==> WellFormed(r.value)
  {
    var names := FieldNames(descr) + a.names;
    if !Distinct(names) then Err(ValueError)
    else
      var rows := seq(|a.rows|, i requires 0 <= i < |a.rows| => Blanks(|descr|, blank) + a.rows[i]);
      assert forall i :: 0 <= i < |rows| ==> rows[i] == Blanks(|descr|, blank) + a.rows[i];
      assert forall i :: 0 <= i < |rows| ==> |rows[i]| == |descr| + |a.rows[i]|;
      Ok(Table(names, FieldKinds(descr) + a.kinds, rows))
  }

  /** Fields put in front of a field move it back by their number. */
  lemma {:induction false} IndexOfShift(pre: seq<string>, names: seq<string>, n: string)
    requires n !in pre && n in names
    ensures IndexOf(pre + names, n) == |pre| + IndexOf(names, n)
    decreases |pre|
  {
    if |pre| > 0 {
      assert (pre + names)[1..] == pre[1..] + names;
      IndexOfShift(pre[1..], names, n);
    } else {
      assert pre + names == names;
    }
  }

  lemma DistinctApart(pre: seq<string>, post: seq<string>, n: string)
    requires Distinct(pre + post) && n in post
    ensures n !in pre
  {
    var j :| 0 <= j < |post| && post[j] == n;
    assert forall i :: 0 <= i < |pre| ==> (pre + post)[i] == pre[i] && (pre + post)[|pre| + j] == n;
  }

  /** `add_field` keeps every field of `a` with its values, and fails exactly on a repeated name. */
  lemma WithFieldsKeepsColumns(a: Table, descr: seq<(string, string)>, blank: Cell)
    requires WellFormed(a)
    ensures WithFields(a, descr, blank).Ok? <==> Distinct(FieldNames(descr) + a.names)
    ensures WithFields(a, descr, blank).Err? ==> WithFields(a, descr, blank).error == ValueError
    ensures WithFields(a, descr, blank).Ok? ==>
      var b := WithFields(a, descr, blank).value;
      b.names == FieldNames(descr) + a.names && b.kinds == FieldKinds(descr) + a.kinds &&
      |b.rows| == |a.rows| &&
      forall n :: n in a.names ==> n in b.names && Column(b, n) == Column(a, n)
  {
    var r := WithFields(a, descr, blank);
    if r.Ok? {
      forall n | n in a.names ensures n in r.value.names && Column(r.value, n) == Column(a, n) {
        DistinctApart(FieldNames(descr), a.names, n);
        IndexOfShift(FieldNames(descr), a.names, n);
      }
    }
  }

  /** The record of `a` after the first j fields have been copied into a fresh record of width w + |row|. */
  ghost function Copied(w: nat, row: seq<Cell>, j: nat, blank: Cell): seq<Cell>
    requires j <= |row|
  {
    Blanks(w, blank) + row[..j] + Blanks(|row| - j, blank)
  }

  lemma CopiedStep(w: nat, row: seq<Cell>, j: nat, blank: Cell)
    requires j < |row|
    ensures |Copied(w, row, j, blank)| == w + |row|
    ensures Copied(w, row, j, blank)[w + j := row[j]] == Copied(w, row, j + 1, blank)
  {
    var a := Copied(w, row, j, blank)[w + j := row[j]];
    var b := Copied(w, row, j + 1, blank);
    assert |a| == |b|;
    forall k | 0 <= k < |a| ensures a[k] == b[k] {
      if k < w {
      } else if k < w + j {
        assert a[k] == row[k - w];
      } else if k == w + j {
      } else {
        assert a[k] == blank;
      }
    }
  }

  lemma CopiedEnds(w: nat, row: seq<Cell>, blank: Cell)
    ensures Copied(w, row, 0, blank) == Blanks(w + |row|, blank)
    ensures Copied(w, row, |row|, blank) == Blanks(w, blank) + row
  {
    assert row[..|row|] == row;
  }

  /** The records while `add_field` copies field j: those before i have it, the others not yet. */
  ghost function Stage(rows: seq<seq<Cell>>, n: nat, w: nat, j: nat, i: nat, blank: Cell): (r: seq<seq<Cell>>)
    requires forall k :: 0 <= k < |rows| ==> |rows[k]| == n
    requires j <= n && (i > 0 ==> j < n) && i <= |rows|
    ensures |r| == |rows|
  {
    seq(|rows|, k requires 0 <= k < |rows| => Copied(w, rows[k], if k < i then j + 1 else j, blank))
  }

  lemma StageStep(rows: seq<seq<Cell>>, n: nat, w: nat, j: nat, i: nat, blank: Cell)
    requires forall k :: 0 <= k < |rows| ==> |rows[k]| == n
    requires j < n && i < |rows|
    ensures var s := Stage(rows, n, w, j, i, blank);
      |s[i]| == w + n && s[i := s[i][w + j := rows[i][j]]] == Stage(rows, n, w, j, i + 1, blank)
  {
    CopiedStep(w, rows[i], j, blank);
  }

  lemma StageWrap(rows: seq<seq<Cell>>, n: nat, w: nat, j: nat, blank: Cell)
    requires forall k :: 0 <= k < |rows| ==> |rows[k]| == n
    requires j < n
    ensures Stage(rows, n, w, j, |rows|, blank) == Stage(rows, n, w, j + 1, 0, blank)
  {
  }

  lemma StageEnds(rows: seq<seq<Cell>>, n: nat, w: nat, blank: Cell)
    requires forall k :: 0 <= k < |rows| ==> |rows[k]| == n
    ensures Stage(rows, n, w, 0, 0, blank) == seq(|rows|, k => Blanks(w + n, blank))
    ensures Stage(rows, n, w, n, 0, blank) == seq(|rows|, k requires 0 <= k < |rows| => Blanks(w, blank) + rows[k])
  {
    forall k | 0 <= k < |rows| {
      CopiedEnds(w, rows[k], blank);
    }
  }

  /**
   * `add_field(a, descr)`: a fresh array with the new fields in front, into
   * which every field of `a` is copied, one field at a time.
   */
  method AddField(a: Table, descr: seq<(string, string)>, blank: Cell) returns (r: Result<Table>)
    requires WellFormed(a)
    ensures r == WithFields(a, descr, blank)
  {
    var names := FieldNames(descr) + a.names;
    if !Distinct(names) {
      return Err(ValueError);
    }
    var w, n := |descr|, |a.names|;
    var b := new seq<Cell>[|a.rows|](i => Blanks(|names|, blank));
    StageEnds(a.rows, n, w, blank);
    assert b[..] == Stage(a.rows, n, w, 0, 0, blank);
    for j := 0 to n
      invariant b[..] == Stage(a.rows, n, w, j, 0, blank)
    {
      for i := 0 to b.Length
        invariant b[..] == Stage(a.rows, n, w, j, i, blank)
      {
        StageStep(a.rows, n, w, j, i, blank);
        b[i] := b[i][w + j := a.rows[i][j]];
      }
      StageWrap(a.rows, n, w, j, blank);
    }
    assert b[..] == seq(|a.rows|, i requires 0 <= i < |a.rows| => Blanks(|descr|, blank) + a.rows[i]);
    r := Ok(Table(names, FieldKinds(descr) + a.kinds, b[..]));
  }

  /** The `descr` argument of `add_data_fields`: a dictionary of type codes, one type code, or anything else. */
  datatype Descr = PerField(kinds: map<string, string>) | Single(kind: string) | Invalid

  /**
   * The type code of each added field: a dictionary must have exactly the keys
   * of `fields_values`, a single type code is broadcast to all of them, and any
   * other `descr` raises `ValueError`.
   */
  function DescrMap(descr: Descr, keys: set<string>): (r: Result<map<string, string>>)
    ensures r.Ok? ==> r.value.Keys == keys
    ensures r.Err? ==> r.error == ValueError
    ensures descr.Invalid? ==> r.Err?
    ensures descr.PerField? ==> (r.Ok? <==> descr.kinds.Keys == keys) && (r.Ok? ==> r.value == descr.kinds)
    ensures descr.Single? ==> r.Ok? && forall k :: k in keys ==> r.value[k] == descr.kind
  {
    match descr
    case PerField(m) => if m.Keys == keys then Ok(m) else Err(ValueError)
    case Single(k) =>
      var b := BroadcastAsWritten(|keys|, Atom(k));
      if b.Err? then Err(b.error) else Ok(map n | n in keys :: k)
    case Invalid => Err(ValueError)
  }

  /**
   * The values of one field, one per dataset: a sequence of the right length is
   * used as is, anything else goes through `broadcast` as written. An `int` or
   * `str` is repeated, and so is a one-element sequence. A non-iterable such as
   * a float fails with `TypeError` inside the handler; a sequence of any other
   * length makes `broadcast` raise `TypeError` while formatting its message, and
   * the second call in the handler raises it again.
   */
  function Normalize(dlen: nat, v: Item<Cell>): (r: Result<seq<Cell>>)
    ensures r.Ok? ==> |r.value| == dlen
    ensures v.Iterable? && |v.xs| == dlen ==> r == Ok(v.xs)
    ensures v.Atom? ==> r.Ok? && forall q :: 0 <= q < dlen ==> r.value[q] == v.x
    ensures v.Iterable? && |v.xs| == 1 ==> r.Ok? && forall q :: 0 <= q < dlen ==> r.value[q] == v.xs[0]
    ensures v.Iterable? && |v.xs| != dlen && |v.xs| != 1 ==> r == Err(TypeError)
    ensures v.NotIterable? ==> r == Err(TypeError)
    ensures r.Err? ==> r.error == TypeError
  {
    if v.Iterable? && |v.xs| == dlen then Ok(v.xs)
    else
      MessageHasOneConversion();
      BroadcastAsWritten(dlen, v)
  }

  /** Normalising twice changes nothing: what `add_data_fields` stores back is already of length dlen. */
  lemma NormalizeIdempotent(dlen: nat, v: Item<Cell>)
    requires Normalize(dlen, v).Ok?
    ensures Normalize(dlen, Iterable(Normalize(dlen, v).value)) == Normalize(dlen, v)
  {
  }

  /** `t[name] = v`: every record gets v in field `name`. */
  function SetColumn(t: Table, name: string, v: Cell): (r: Table)
    requires WellFormed(t) && name in t.names
    ensures WellFormed(r)
  {
    var k := IndexOf(t.names, name);
    Table(t.names, t.kinds, seq(|t.rows|, i requires 0 <= i < |t.rows| => t.rows[i][k := v]))
  }

  lemma SetColumnMeaning(t: Table, name: string, v: Cell)
    requires WellFormed(t) && name in t.names
    ensures SetColumn(t, name, v).names == t.names && SetColumn(t, name, v).kinds == t.kinds
    ensures Column(SetColumn(t, name, v), name) == seq(|t.rows|, _ => v)
    ensures forall n :: n in t.names && n != name ==> Column(SetColumn(t, name, v), n) == Column(t, n)
  {
  }

  /** The fields `add_data_fields` prepends, in the order they end up: the last key added comes first. */
  function Reverse(s: seq<string>): (r: seq<string>)
    ensures |r| == |s|
    decreases |s|
  {
    if |s| == 0 then [] else [s[|s| - 1]] + Reverse(s[..|s| - 1])
  }

  lemma {:induction false} ReverseAt(s: seq<string>)
    ensures forall q :: 0 <= q < |s| ==> Reverse(s)[q] == s[|s| - 1 - q]
    decreases |s|
  {
    if |s| > 0 {
      ReverseAt(s[..|s| - 1]);
    }
  }

  lemma ReverseMembers(s: seq<string>)
    ensures forall x :: x in Reverse(s) <==> x in s
    ensures Distinct(s) ==> Distinct(Reverse(s))
  {
    ReverseAt(s);
    forall x | x in s ensures x in Reverse(s) {
      var p :| 0 <= p < |s| && s[p] == x;
      assert Reverse(s)[|s| - 1 - p] == x;
    }
  }

  lemma ReverseSnoc(s: seq<string>, x: string)
    ensures Reverse(s + [x]) == [x] + Reverse(s)
  {
    assert (s + [x])[..|s|] == s;
  }

  lemma DistinctCons(x: string, s: seq<string>)
    requires Distinct(s)
    ensures Distinct([x] + s) <==> x !in s
  {
    if x in s {
      var k :| 0 <= k < |s| && s[k] == x;
      assert ([x] + s)[0] == ([x] + s)[k + 1];
    }
  }

  /** Two `fields_values` dictionaries that broadcast every key to the same values. */
  ghost predicate SameValues(f: map<string, Item<Cell>>, fv0: map<string, Item<Cell>>, dlen: nat)
  {
    f.Keys == fv0.Keys && forall k :: k in f ==> Normalize(dlen, f[k]) == Normalize(dlen, fv0[k])
  }

  /**
   * `fields_values` after the first dataset: every key in order holds its
   * broadcast values, as a tuple of one value per dataset.
   */
  ghost predicate Settled(f: map<string, Item<Cell>>, order: seq<string>, fv0: map<string, Item<Cell>>, dlen: nat)
  {
    f.Keys == fv0.Keys &&
    forall k :: k in order ==> k in fv0 && Normalize(dlen, fv0[k]).Ok? && f[k] == Iterable(Normalize(dlen, fv0[k]).value)
  }

  /** The first j keys of order hold their broadcast values. */
  ghost predicate SettledPrefix(f: map<string, Item<Cell>>, order: seq<string>, j: nat, fv0: map<string, Item<Cell>>, dlen: nat)
    requires j <= |order|
  {
    forall p :: 0 <= p < j ==>
      order[p] in fv0 && order[p] in f && Normalize(dlen, fv0[order[p]]).Ok? &&
      f[order[p]] == Iterable(Normalize(dlen, fv0[order[p]]).value)
  }

  lemma SettledPrefixSnoc(f: map<string, Item<Cell>>, order: seq<string>, j: nat, fv0: map<string, Item<Cell>>, dlen: nat)
    requires Distinct(order) && j < |order| && SettledPrefix(f, order, j, fv0, dlen)
    requires order[j] in fv0 && Normalize(dlen, fv0[order[j]]).Ok?
    ensures SettledPrefix(f[order[j] := Iterable(Normalize(dlen, fv0[order[j]]).value)], order, j + 1, fv0, dlen)
  {
  }

  lemma SettledPrefixAll(f: map<string, Item<Cell>>, order: seq<string>, fv0: map<string, Item<Cell>>, dlen: nat)
    requires SettledPrefix(f, order, |order|, fv0, dlen) && f.Keys == fv0.Keys
    ensures Settled(f, order, fv0, dlen)
  {
    forall k | k in order
      ensures k in fv0 && Normalize(dlen, fv0[k]).Ok? && f[k] == Iterable(Normalize(dlen, fv0[k]).value)
    {
      var p :| 0 <= p < |order| && order[p] == k;
    }
  }

  /** None of the first j keys is among the names. */
  ghost predicate FreeOfPrefix(order: seq<string>, j: nat, names: seq<string>)
    requires j <= |order|
  {
    forall p :: 0 <= p < j ==> order[p] !in names
  }

  lemma ExtendDone(order: seq<string>, names: seq<string>, fv0: map<string, Item<Cell>>, dlen: nat)
    requires FreeOfPrefix(order, |order|, names) && Broadcastable(order, fv0, dlen)
    ensures forall k :: k in order ==> k !in names && Normalize(dlen, fv0[k]).Ok?
  {
    forall k | k in order ensures k !in names && Normalize(dlen, fv0[k]).Ok? {
      var p :| 0 <= p < |order| && order[p] == k;
    }
  }

  /** Every key has values that broadcast to the number of datasets. */
  ghost predicate Broadcastable(keys: seq<string>, fv0: map<string, Item<Cell>>, dlen: nat)
  {
    forall k :: k in keys ==> k in fv0 && Normalize(dlen, fv0[k]).Ok?
  }

  /** The type codes of the added fields, in the order they end up. */
  ghost function AddedKinds(keys: seq<string>, dm: map<string, string>): (r: seq<string>)
    requires forall k :: k in keys ==> k in dm
    ensures |r| == |keys|
  {
    var rk := Reverse(keys);
    ReverseMembers(keys);
    seq(|keys|, q requires 0 <= q < |keys| => dm[rk[q]])
  }

  /** The cells of the added fields in each record of dataset i: key k holds the i-th of its broadcast values. */
  ghost function AddedCells(keys: seq<string>, fv0: map<string, Item<Cell>>, dlen: nat, i: nat): (r: seq<Cell>)
    requires Broadcastable(keys, fv0, dlen) && i < dlen
    ensures |r| == |keys|
  {
    var rk := Reverse(keys);
    ReverseMembers(keys);
    seq(|keys|, q requires 0 <= q < |keys| => Normalize(dlen, fv0[rk[q]]).value[i])
  }

  /** Dataset d0 with the fields `keys` prepended and filled: what `add_data_fields` makes of dataset i. */
  ghost function Extension(d0: Table, keys: seq<string>, dm: map<string, string>,
                           fv0: map<string, Item<Cell>>, dlen: nat, i: nat): (r: Table)
    requires forall k :: k in keys ==> k in dm
    requires Broadcastable(keys, fv0, dlen) && i < dlen
    ensures |r.rows| == |d0.rows|
  {
    var cells := AddedCells(keys, fv0, dlen, i);
    Table(Reverse(keys) + d0.names, AddedKinds(keys, dm) + d0.kinds,
      seq(|d0.rows|, r requires 0 <= r < |d0.rows| => cells + d0.rows[r]))
  }

  /** One key more puts its kind and its i-th value in front. */
  lemma AddedSnoc(keys: seq<string>, dm: map<string, string>, fv0: map<string, Item<Cell>>,
                  dlen: nat, i: nat, name: string)
    requires i < dlen && (forall k :: k in keys ==> k in dm) && Broadcastable(keys, fv0, dlen)
    requires name in dm && Broadcastable([name], fv0, dlen)
    ensures Broadcastable(keys + [name], fv0, dlen)
    ensures AddedCells(keys + [name], fv0, dlen, i) == [Normalize(dlen, fv0[name]).value[i]] + AddedCells(keys, fv0, dlen, i)
    ensures AddedKinds(keys + [name], dm) == [dm[name]] + AddedKinds(keys, dm)
  {
    ReverseSnoc(keys, name);
    ReverseMembers(keys);
    assert Broadcastable(keys + [name], fv0, dlen);
  }

  /** `add_field` with one new field: the field in front, blank in every record. */
  lemma WithOneField(d: Table, name: string, kind: string, blank: Cell)
    requires WellFormed(d) && name !in d.names
    ensures WithFields(d, [(name, kind)], blank) ==
      Ok(Table([name] + d.names, [kind] + d.kinds, seq(|d.rows|, r requires 0 <= r < |d.rows| => [blank] + d.rows[r])))
  {
    DistinctCons(name, d.names);
    assert FieldNames([(name, kind)]) == [name];
    assert FieldKinds([(name, kind)]) == [kind];
    assert Blanks(1, blank) == [blank];
  }

  /** One pass of the inner loop: adding field `name` to an extension and filling it gives the next extension. */
  lemma ExtendStep(d0: Table, keys: seq<string>, dm: map<string, string>, fv0: map<string, Item<Cell>>,
                   dlen: nat, i: nat, name: string, v: Cell, blank: Cell)
    requires WellFormed(d0) && i < dlen && (forall k :: k in keys ==> k in dm) && Broadcastable(keys, fv0, dlen)
    requires WellFormed(Extension(d0, keys, dm, fv0, dlen, i))
    requires name in dm && Broadcastable([name], fv0, dlen) && v == Normalize(dlen, fv0[name]).value[i]
    requires name !in keys && name !in d0.names
    ensures WithFields(Extension(d0, keys, dm, fv0, dlen, i), [(name, dm[name])], blank).Ok?
    ensures
      var t := WithFields(Extension(d0, keys, dm, fv0, dlen, i), [(name, dm[name])], blank).value;
      name in t.names && Broadcastable(keys + [name], fv0, dlen) &&
      SetColumn(t, name, v) == Extension(d0, keys + [name], dm, fv0, dlen, i)
  {
    var d := Extension(d0, keys, dm, fv0, dlen, i);
    ReverseMembers(keys);
    WithOneField(d, name, dm[name], blank);
    AddedSnoc(keys, dm, fv0, dlen, i, name);
    var t := WithFields(d, [(name, dm[name])], blank).value;
    assert t.names[0] == name;
    IndexOfUnique(t.names, name, 0);
    var e := SetColumn(t, name, v);
    var x := Extension(d0, keys + [name], dm, fv0, dlen, i);
    var cells := AddedCells(keys, fv0, dlen, i);
    forall r | 0 <= r < |e.rows| ensures e.rows[r] == x.rows[r] {
      assert t.rows[r] == [blank] + d.rows[r];
      assert d.rows[r] == cells + d0.rows[r];
      assert x.rows[r] == [v] + cells + d0.rows[r];
    }
  }

  /** `add_field` refuses a key on an extension exactly when it is a field of the dataset itself. */
  lemma ExtensionTaken(d0: Table, keys: seq<string>, dm: map<string, string>, fv0: map<string, Item<Cell>>,
                       dlen: nat, i: nat, name: string, kind: string, blank: Cell)
    requires WellFormed(d0) && i < dlen && (forall k :: k in keys ==> k in dm) && Broadcastable(keys, fv0, dlen)
    requires WellFormed(Extension(d0, keys, dm, fv0, dlen, i)) && name !in keys
    ensures WithFields(Extension(d0, keys, dm, fv0, dlen, i), [(name, kind)], blank).Err? <==> name in d0.names
  {
    ReverseMembers(keys);
    assert FieldNames([(name, kind)]) == [name];
    DistinctCons(name, Extension(d0, keys, dm, fv0, dlen, i).names);
  }

  lemma ExtensionOfNone(d0: Table, dm: map<string, string>, fv0: map<string, Item<Cell>>, dlen: nat, i: nat)
    requires i < dlen
    ensures Extension(d0, [], dm, fv0, dlen, i) == d0
  {
    var x := Extension(d0, [], dm, fv0, dlen, i);
    assert AddedKinds([], dm) == [] && AddedCells([], fv0, dlen, i) == [];
    assert x.names == d0.names && x.kinds == d0.kinds;
    forall r | 0 <= r < |d0.rows| ensures x.rows[r] == d0.rows[r] { }
  }

  /**
   * One pass of the inner loop of `add_data_fields`: `add_field` for key
   * `name`, broadcasting its values in `fields_values` if their length is not
   * the number of datasets, and `data[name] = fields_values[name][i]`.
   */
  method AddKey(data: Table, f: map<string, Item<Cell>>, ghost d0: Table, ghost keys: seq<string>,
                ghost fv0: map<string, Item<Cell>>, name: string, dm: map<string, string>,
                dlen: nat, i: nat, blank: Cell)
    returns (r: Result<(Table, map<string, Item<Cell>>)>)
    requires WellFormed(d0) && WellFormed(data) && i < dlen
    requires (forall k :: k in keys ==> k in dm) && Broadcastable(keys, fv0, dlen)
    requires data == Extension(d0, keys, dm, fv0, dlen, i)
    requires SameValues(f, fv0, dlen) && name in dm && name in fv0 && name !in keys
    ensures r.Ok? <==> name !in d0.names && Normalize(dlen, fv0[name]).Ok?
    ensures r.Err? ==> r.error == (if name in d0.names then ValueError else TypeError)
    ensures r.Ok? ==> SameValues(r.value.1, fv0, dlen) && Broadcastable(keys + [name], fv0, dlen)
    ensures r.Ok? ==> r.value.1 == f[name := Iterable(Normalize(dlen, fv0[name]).value)]
    ensures r.Ok? ==> WellFormed(r.value.0) && r.value.0 == Extension(d0, keys + [name], dm, fv0, dlen, i)
  {
    var added := AddField(data, [(name, dm[name])], blank);
    ExtensionTaken(d0, keys, dm, fv0, dlen, i, name, dm[name], blank);
    if added.Err? {
      WithFieldsKeepsColumns(data, [(name, dm[name])], blank);
      return Err(added.error);
    }
    var fv := f;
    var v := fv[name];
    if !(v.Iterable? && |v.xs| == dlen) {
      MessageHasOneConversion();
      var b := BroadcastAsWritten(dlen, v);
      if b.Err? {
        assert Normalize(dlen, fv0[name]).Err?;
        return Err(b.error);
      }
      fv := fv[name := Iterable(b.value)];
    }
    assert fv[name].xs == Normalize(dlen, fv0[name]).value;
    assert fv == f[name := Iterable(Normalize(dlen, fv0[name]).value)];
    NormalizeIdempotent(dlen, fv0[name]);
    ExtendStep(d0, keys, dm, fv0, dlen, i, name, fv[name].xs[i], blank);
    r := Ok((SetColumn(added.value, name, fv[name].xs[i]), fv));
  }

  /**
   * The inner loop of `add_data_fields` on dataset i: every key's field is
   * prepended and filled. `fv0` is the dictionary as passed in; `fv` agrees with
   * it after broadcasting.
   */
  method ExtendDataset(d0: Table, fv: map<string, Item<Cell>>, ghost fv0: map<string, Item<Cell>>,
                       order: seq<string>, dm: map<string, string>, dlen: nat, i: nat, blank: Cell)
    returns (r: Result<(Table, map<string, Item<Cell>>)>)
    requires WellFormed(d0) && Distinct(order) && i < dlen
    requires forall k :: k in order ==> k in dm && k in fv0
    requires SameValues(fv, fv0, dlen)
    ensures r.Ok? <==> forall k :: k in order ==> k !in d0.names && Normalize(dlen, fv0[k]).Ok?
    ensures r.Err? && (forall k :: k in order ==> k !in d0.names) ==> r.error == TypeError
    ensures r.Err? && (forall k :: k in order ==> Normalize(dlen, fv0[k]).Ok?) ==> r.error == ValueError
    ensures r.Ok? ==> SameValues(r.value.1, fv0, dlen) && Broadcastable(order, fv0, dlen)
    ensures r.Ok? ==> Settled(r.value.1, order, fv0, dlen)
    ensures r.Ok? ==> Broadcastable(order, fv0, dlen) && r.value.0 == Extension(d0, order, dm, fv0, dlen, i)
  {
    var data := d0;
    var f := fv;
    ExtensionOfNone(d0, dm, fv0, dlen, i);
    assert order[..0] == [];
    for j := 0 to |order|
      invariant SameValues(f, fv0, dlen) && Broadcastable(order[..j], fv0, dlen)
      invariant FreeOfPrefix(order, j, d0.names)
      invariant WellFormed(data) && data == Extension(d0, order[..j], dm, fv0, dlen, i)
      invariant SettledPrefix(f, order, j, fv0, dlen)
    {
      PrefixSnoc(order, j);
      DistinctNotBefore(order, j);
      var step := AddKey(data, f, d0, order[..j], fv0, order[j], dm, dlen, i, blank);
      if step.Err? {
        assert order[j] in order;
        return Err(step.error);
      }
      SettledPrefixSnoc(f, order, j, fv0, dlen);
      data, f := step.value.0, step.value.1;
    }
    assert order[..|order|] == order;
    ExtendDone(order, d0.names, fv0, dlen);
    SettledPrefixAll(f, order, fv0, dlen);
    r := Ok((data, f));
  }

  /** What `add_data_fields` accepts: a fitting `descr`, broadcastable values (if there is a dataset), no key that is already a field. */
  ghost predicate Accepted(dataList: seq<Table>, fv: map<string, Item<Cell>>, descr: Descr)
  {
    DescrMap(descr, fv.Keys).Ok? &&
    (|dataList| > 0 ==> forall k :: k in fv ==> Normalize(|dataList|, fv[k]).Ok?) &&
    (forall i, k :: 0 <= i < |dataList| && k in fv ==> k !in dataList[i].names)
  }

  /** Every dataset so far has been extended by all keys. */
  ghost predicate AllExtended(ts: seq<Table>, dataList: seq<Table>, order: seq<string>, dm: map<string, string>,
                              fv0: map<string, Item<Cell>>)
    requires |ts| <= |dataList|
  {
    (forall k :: k in order ==> k in dm) &&
    (|ts| > 0 ==> Broadcastable(order, fv0, |dataList|)) &&
    forall i :: 0 <= i < |ts| ==> ts[i] == Extension(dataList[i], order, dm, fv0, |dataList|, i)
  }

  lemma AllExtendedSnoc(ts: seq<Table>, t: Table, dataList: seq<Table>, order: seq<string>, dm: map<string, string>,
                        fv0: map<string, Item<Cell>>)
    requires |ts| < |dataList| && AllExtended(ts, dataList, order, dm, fv0)
    requires Broadcastable(order, fv0, |dataList|)
    requires t == Extension(dataList[|ts|], order, dm, fv0, |dataList|, |ts|)
    ensures AllExtended(ts + [t], dataList, order, dm, fv0)
  {
    var ts' := ts + [t];
    forall i | 0 <= i < |ts'| ensures ts'[i] == Extension(dataList[i], order, dm, fv0, |dataList|, i) {
      if i < |ts| {
        assert ts'[i] == ts[i];
      }
    }
  }

  /** No key is a field of the first n datasets. */
  ghost predicate KeysFree(dataList: seq<Table>, order: seq<string>, n: nat)
    requires n <= |dataList|
  {
    forall i, k :: 0 <= i < n && k in order ==> k !in dataList[i].names
  }

  lemma KeysFreeSnoc(dataList: seq<Table>, order: seq<string>, n: nat)
    requires n < |dataList| && KeysFree(dataList, order, n)
    requires forall k :: k in order ==> k !in dataList[n].names
    ensures KeysFree(dataList, order, n + 1)
  {
  }

  /** A key that is a field of some dataset, or whose values do not broadcast, is refused. */
  lemma Rejected(dataList: seq<Table>, fv: map<string, Item<Cell>>, descr: Descr, order: seq<string>, i: nat)
    requires i < |dataList| && forall k :: k in order <==> k in fv
    requires !forall k :: k in order ==> k !in dataList[i].names && Normalize(|dataList|, fv[k]).Ok?
    ensures !Accepted(dataList, fv, descr)
  {
    var k :| k in order && !(k !in dataList[i].names && Normalize(|dataList|, fv[k]).Ok?);
    assert k in fv;
  }

  /** Arguments that pass every dataset are accepted. */
  lemma AcceptedAll(dataList: seq<Table>, fv: map<string, Item<Cell>>, descr: Descr, order: seq<string>)
    requires forall k :: k in order <==> k in fv
    requires DescrMap(descr, fv.Keys).Ok? && KeysFree(dataList, order, |dataList|)
    requires |dataList| > 0 ==> Broadcastable(order, fv, |dataList|)
    ensures Accepted(dataList, fv, descr)
  {
  }

  /** No key of `fields_values` is already a field of a dataset. */
  ghost predicate NoClash(dataList: seq<Table>, fv: map<string, Item<Cell>>)
  {
    forall i, k :: 0 <= i < |dataList| && k in fv ==> k !in dataList[i].names
  }

  /** Every value of `fields_values` broadcasts to the number of datasets. */
  ghost predicate AllBroadcast(dataList: seq<Table>, fv: map<string, Item<Cell>>)
  {
    forall k :: k in fv ==> Normalize(|dataList|, fv[k]).Ok?
  }

  /**
   * `add_data_fields(data_list, fields_values, descr)`, with `order` the
   * iteration order of the dictionary's keys: every dataset is extended by all
   * keys, in the order of the datasets. It fails exactly when the arguments
   * are not accepted: `ValueError` for a `descr` that does not fit or a key that
   * is already a field, `TypeError` for values that do not broadcast.
   * `fields_values` is rewritten in place; `updated` is the caller's dictionary
   * afterwards, every value broadcast to one value per dataset.
   */
  method AddDataFields(dataList: seq<Table>, fieldsValues: map<string, Item<Cell>>, descr: Descr,
                       order: seq<string>, blank: Cell)
    returns (r: Result<seq<Table>>, updated: map<string, Item<Cell>>)
    requires forall i :: 0 <= i < |dataList| ==> WellFormed(dataList[i])
    requires Distinct(order) && forall k :: k in order <==> k in fieldsValues
    ensures r.Ok? <==> Accepted(dataList, fieldsValues, descr)
    ensures DescrMap(descr, fieldsValues.Keys).Err? ==> r == Err(ValueError)
    ensures r.Err? && DescrMap(descr, fieldsValues.Keys).Ok? && NoClash(dataList, fieldsValues) ==> r.error == TypeError
    ensures r.Err? && DescrMap(descr, fieldsValues.Keys).Ok? && AllBroadcast(dataList, fieldsValues) ==> r.error == ValueError
    ensures r.Ok? ==> |r.value| == |dataList|
    ensures r.Ok? ==> AllExtended(r.value, dataList, order, DescrMap(descr, fieldsValues.Keys).value, fieldsValues)
    ensures r.Ok? && |dataList| == 0 ==> updated == fieldsValues
    ensures r.Ok? && |dataList| > 0 ==> Settled(updated, order, fieldsValues, |dataList|)
  {
    updated := fieldsValues;
    var dm;
    match DescrMap(descr, fieldsValues.Keys)
    case Err(e) => return Err(e), updated;
    case Ok(m) => dm := m;
    var altData: seq<Table> := [];
    var dlen := |dataList|;
    for i := 0 to dlen
      invariant |altData| == i && SameValues(updated, fieldsValues, dlen)
      invariant i == 0 ==> updated == fieldsValues
      invariant i > 0 ==> Broadcastable(order, fieldsValues, dlen) && Settled(updated, order, fieldsValues, dlen)
      invariant KeysFree(dataList, order, i)
      invariant AllExtended(altData, dataList, order, dm, fieldsValues)
    {
      var ext := ExtendDataset(dataList[i], updated, fieldsValues, order, dm, dlen, i, blank);
      if ext.Err? {
        Rejected(dataList, fieldsValues, descr, order, i);
        return Err(ext.error), updated;
      }
      KeysFreeSnoc(dataList, order, i);
      AllExtendedSnoc(altData, ext.value.0, dataList, order, dm, fieldsValues);
      altData := altData + [ext.value.0];
      updated := ext.value.1;
    }
    AcceptedAll(dataList, fieldsValues, descr, order);
    r := Ok(altData);
  }

  /** An extension is well formed, with the keys (the last key first) before the dataset's own fields. */
  lemma ExtensionShape(d0: Table, keys: seq<string>, dm: map<string, string>,
                       fv0: map<string, Item<Cell>>, dlen: nat, i: nat)
    requires WellFormed(d0) && Distinct(keys) && i < dlen
    requires forall k :: k in keys ==> k in dm && k !in d0.names
    requires Broadcastable(keys, fv0, dlen)
    ensures
      var e := Extension(d0, keys, dm, fv0, dlen, i);
      WellFormed(e) && e.names == Reverse(keys) + d0.names && |e.rows| == |d0.rows|
  {
    var e := Extension(d0, keys, dm, fv0, dlen, i);
    var rk := Reverse(keys);
    ReverseMembers(keys);
    assert Distinct(e.names) by {
      forall a, b | 0 <= a < b < |e.names| ensures e.names[a] != e.names[b] {
        if b < |rk| {
        } else if a >= |rk| {
          assert e.names[a] == d0.names[a - |rk|] && e.names[b] == d0.names[b - |rk|];
        } else {
          assert e.names[a] in keys && e.names[b] == d0.names[b - |rk|];
        }
      }
    }
    forall r | 0 <= r < |e.rows| ensures |e.rows[r]| == |e.names| {
      assert e.rows[r] == AddedCells(keys, fv0, dlen, i) + d0.rows[r];
    }
  }

  /** The dataset's own fields keep their values in an extension. */
  lemma ExtensionKeeps(d0: Table, keys: seq<string>, dm: map<string, string>,
                       fv0: map<string, Item<Cell>>, dlen: nat, i: nat, n: string)
    requires WellFormed(d0) && Distinct(keys) && i < dlen
    requires forall k :: k in keys ==> k in dm && k !in d0.names
    requires Broadcastable(keys, fv0, dlen) && n in d0.names
    requires WellFormed(Extension(d0, keys, dm, fv0, dlen, i))
    ensures
      var e := Extension(d0, keys, dm, fv0, dlen, i);
      n in e.names && Column(e, n) == Column(d0, n)
  {
    var e := Extension(d0, keys, dm, fv0, dlen, i);
    ReverseMembers(keys);
    IndexOfShift(Reverse(keys), d0.names, n);
    var cells := AddedCells(keys, fv0, dlen, i);
    var k := IndexOf(d0.names, n);
    forall r | 0 <= r < |e.rows| ensures e.rows[r][|keys| + k] == d0.rows[r][k] {
      assert e.rows[r] == cells + d0.rows[r];
    }
  }

  /** An added field has its type code, and holds in every record the i-th of its broadcast values. */
  lemma ExtensionAdded(d0: Table, keys: seq<string>, dm: map<string, string>,
                       fv0: map<string, Item<Cell>>, dlen: nat, i: nat, k: string)
    requires WellFormed(d0) && Distinct(keys) && i < dlen
    requires forall k :: k in keys ==> k in dm && k !in d0.names
    requires Broadcastable(keys, fv0, dlen) && k in keys
    requires WellFormed(Extension(d0, keys, dm, fv0, dlen, i))
    ensures
      var e := Extension(d0, keys, dm, fv0, dlen, i);
      k in e.names && e.kinds[IndexOf(e.names, k)] == dm[k] &&
      Column(e, k) == seq(|d0.rows|, _ => Normalize(dlen, fv0[k]).value[i])
  {
    var e := Extension(d0, keys, dm, fv0, dlen, i);
    var rk := Reverse(keys);
    ReverseMembers(keys);
    var q :| 0 <= q < |rk| && rk[q] == k;
    assert e.names[q] == k;
    IndexOfUnique(e.names, k, q);
    var cells := AddedCells(keys, fv0, dlen, i);
    forall r | 0 <= r < |e.rows| ensures e.rows[r][q] == Normalize(dlen, fv0[k]).value[i] {
      assert e.rows[r] == cells + d0.rows[r];
    }
  }

  /**
   * The extended datasets `add_data_fields` returns: the keys come first (the
   * last key first), each with its type code from `descr`; the dataset's own
   * fields keep their values; and field k holds, in every record of dataset i,
   * the i-th of the values `fields_values[k]` is broadcast to.
   */
  lemma ExtensionFields(d0: Table, keys: seq<string>, dm: map<string, string>,
                        fv0: map<string, Item<Cell>>, dlen: nat, i: nat)
    requires WellFormed(d0) && Distinct(keys) && i < dlen
    requires forall k :: k in keys ==> k in dm && k !in d0.names
    requires Broadcastable(keys, fv0, dlen)
    ensures
      var e := Extension(d0, keys, dm, fv0, dlen, i);
      WellFormed(e) && e.names == Reverse(keys) + d0.names && |e.rows| == |d0.rows| &&
      (forall n :: n in d0.names ==> n in e.names && Column(e, n) == Column(d0, n)) &&
      (forall k :: k in keys ==> (k in e.names && e.kinds[IndexOf(e.names, k)] == dm[k] &&
        Column(e, k) == seq(|d0.rows|, _ => Normalize(dlen, fv0[k]).value[i])))
  {
    ExtensionShape(d0, keys, dm, fv0, dlen, i);
    forall n | n in d0.names
      ensures var e := Extension(d0, keys, dm, fv0, dlen, i); n in e.names && Column(e, n) == Column(d0, n)
    {
      ExtensionKeeps(d0, keys, dm, fv0, dlen, i, n);
    }
    forall k | k in keys
      ensures var e := Extension(d0, keys, dm, fv0, dlen, i);
        k in e.names && e.kinds[IndexOf(e.names, k)] == dm[k] &&
        Column(e, k) == seq(|d0.rows|, _ => Normalize(dlen, fv0[k]).value[i])
    {
      ExtensionAdded(d0, keys, dm, fv0, dlen, i, k);
    }
  }
}
