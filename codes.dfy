/**
 * `broadcast` and `create_intcodes` of utils/form_func.py: stretching a
 * length-one item to a requested length, and translating species codes into
 * integers through two parallel lookup lists.
 */
module Codes {
  import opened Outcomes

  /**
   * What `broadcast` is handed: an `int`, a `type` or a `str` (an atom, wrapped
   * into a one-element tuple), an iterable (turned into a tuple), or any other
   * object, on which `tuple(item)` raises `TypeError`.
   */
  datatype Item<T> = Atom(x: T) | Iterable(xs: seq<T>) | NotIterable

  /** The tuple `broadcast` works on, when the item can be turned into one. */
  function AsTuple<T>(item: Item<T>): (r: Option<seq<T>>)
    ensures r.None? <==> item.NotIterable?
    ensures item.Atom? ==> r == Some([item.x])
    ensures item.Iterable? ==> r == Some(item.xs)
  {
    match item
    case Atom(x) => Some([x])
    case Iterable(xs) => Some(xs)
    case NotIterable => None
  }

  /**
   * The shared stretching rule: a tuple of the requested length is kept, a
   * one-element tuple is repeated `length` times, anything else does not fit.
   */
  function Stretch<T>(length: nat, xs: seq<T>): (r: Option<seq<T>>)
    ensures r.Some? <==> |xs| == length || |xs| == 1
    ensures r.Some? ==> |r.value| == length
    ensures r.Some? && |xs| == length ==> r.value == xs
    ensures r.Some? ==> forall i :: 0 <= i < |r.value| ==> r.value[i] == xs[i % |xs|]
  {
    if |xs| == length then Some(xs)
    else if |xs| == 1 then Some(seq(length, _ => xs[0]))
    else None
  }

  /** Stretching is idempotent: a stretched tuple already has the requested length. */
  lemma StretchIdempotent<T>(length: nat, xs: seq<T>)
    requires Stretch(length, xs).Some?
    ensures Stretch(length, Stretch(length, xs).value) == Stretch(length, xs)
  {
  }

  /**
   * Every `%` of t begins a `%s`. Python's `%` knows other conversions, `%%`
   * and refusals of unknown characters; this model formats only templates of
   * this kind, which the message of `broadcast` is.
   */
  predicate OnlyStringConversions(t: string)
    decreases |t|
  {
    if |t| == 0 then true
    else if t[0] == '%' then |t| >= 2 && t[1] == 's' && OnlyStringConversions(t[2..])
    else OnlyStringConversions(t[1..])
  }

  /** The number of `%s` conversions in a `%`-format template. */
  function Conversions(t: string): nat
    decreases |t|
  {
    if |t| < 2 then 0
    else if t[0] == '%' && t[1] == 's' then 1 + Conversions(t[2..])
    else Conversions(t[1..])
  }

  /** The message of the failure branch of `broadcast`; its second placeholder is `$s`, not `%s`. */
  const BroadcastMessage: string := MessageHead + "%s" + MessageTail

  /** The text around the message's one `%s`: "Could not broadcast %s to length $s". */
  const MessageHead: string := "Could not broadcast "
  const MessageTail: string := " to length $s"

  /**
   * `template % args` with `n` arguments, for a template whose conversions are
   * all `%s`: `TypeError` when the counts disagree.
   */
  function Format(template: string, n: nat): (r: Result<()>)
    requires OnlyStringConversions(template)
    ensures r.Ok? <==> Conversions(template) == n
    ensures r.Err? ==> r.error == TypeError
  {
    if Conversions(template) == n then Ok(()) else Err(TypeError)
  }

  /**
   * `broadcast(length, item)` as written: the error message is built with two
   * arguments for one conversion, so the failure branch raises `TypeError` while
   * formatting, before the `ValueError` it means to raise. A negative length with
   * a one-element item fails inside `np.repeat`: `ValueError`.
   */
  function BroadcastAsWritten<T>(length: int, item: Item<T>): (r: Result<seq<T>>)
    ensures r.Ok? ==> length >= 0 && |r.value| == length
  {
    match AsTuple(item)
    case None => Err(TypeError)
    case Some(xs) =>
      if |xs| == length then Ok(xs)
      else if |xs| == 1 then
        if length < 0 then Err(ValueError) else Ok(Stretch(length, xs).value)
      else
        MessageHasOneConversion();
        var m := Format(BroadcastMessage, 2);
        if m.Err? then Err(m.error) else Err(ValueError)
  }

  /** The failing branch of the as-written `broadcast` raises `TypeError`. */
  lemma BroadcastAsWrittenRaisesTypeError()
    ensures BroadcastAsWritten(3, Iterable([1, 2])) == Err(TypeError)
  {
    MessageHasOneConversion();
  }

  /** The failure message has a single `%s`: the `$s` is not a conversion. */
  lemma MessageHasOneConversion()
    ensures OnlyStringConversions(BroadcastMessage) && Conversions(BroadcastMessage) == 1
  {
    var head, tail := MessageHead, MessageTail;
    assert BroadcastMessage == head + ("%s" + tail);
    assert OnlyStringConversions("%s" + tail) && Conversions("%s" + tail) == 1 by {
      assert ("%s" + tail)[2..] == tail;
      NoPercent(tail);
    }
    assert OnlyStringConversions(head + ("%s" + tail)) == OnlyStringConversions("%s" + tail) &&
      Conversions(head + ("%s" + tail)) == Conversions("%s" + tail) by {
      SkipPlain(head, "%s" + tail);
    }
  }

  /** A prefix without `%` adds no conversion. */
  lemma {:induction false} SkipPlain(a: string, b: string)
    requires '%' !in a
    ensures OnlyStringConversions(a + b) == OnlyStringConversions(b)
    ensures Conversions(a + b) == Conversions(b)
    decreases |a|
  {
    if |a| > 0 {
      assert (a + b)[0] == a[0] && a[0] in a;
      assert (a + b)[1..] == a[1..] + b;
      assert '%' !in a[1..] by { assert forall k :: 0 <= k < |a| - 1 ==> a[1..][k] == a[k + 1]; }
      SkipPlain(a[1..], b);
    } else {
      assert a + b == b;
    }
  }

  lemma {:induction false} NoPercent(t: string)
    requires '%' !in t
    ensures OnlyStringConversions(t) && Conversions(t) == 0
    decreases |t|
  {
    if |t| >= 1 {
      assert t[0] in t;
      assert '%' !in t[1..] by { assert forall k :: 0 <= k < |t| - 1 ==> t[1..][k] == t[k + 1]; }
      NoPercent(t[1..]);
    }
  }

  /**
   * `broadcast(length, item)` as evidently intended: an item of that length is
   * kept, a one-element item repeated, any other length raises `ValueError`.
   */
  function Broadcast<T>(length: int, item: Item<T>): (r: Result<seq<T>>)
    ensures item.NotIterable? ==> r == Err(TypeError)
    ensures !item.NotIterable? ==>
      var xs := AsTuple(item).value;
      (r.Ok? <==> |xs| == length || (|xs| == 1 && length >= 0)) &&
      (r.Err? ==> r.error == ValueError)
    ensures r.Ok? ==> |r.value| == length
    ensures r.Ok? && |AsTuple(item).value| == length ==> r.value == AsTuple(item).value
    ensures r.Ok? ==> forall i :: 0 <= i < |r.value| ==> r.value[i] == AsTuple(item).value[i % |AsTuple(item).value|]
    ensures r.Ok? && |AsTuple(item).value| == 1 ==> forall i :: 0 <= i < |r.value| ==> r.value[i] == AsTuple(item).value[0]
  {
    match AsTuple(item)
    case None => Err(TypeError)
    case Some(xs) =>
      if length < 0 then (if |xs| == length then Ok(xs) else Err(ValueError))
      else
        match Stretch(length, xs)
        case Some(ys) => Ok(ys)
        case None => Err(ValueError)
  }

  /** The two definitions agree except on the message-formatting failure. */
  lemma BroadcastAgrees<T>(length: int, item: Item<T>)
    ensures BroadcastAsWritten(length, item).Ok? <==> Broadcast(length, item).Ok?
    ensures BroadcastAsWritten(length, item).Ok? ==> BroadcastAsWritten(length, item) == Broadcast(length, item)
  {
  }

  /** Broadcasting an already broadcast tuple returns it unchanged. */
  lemma BroadcastIdempotent<T>(length: int, item: Item<T>)
    requires Broadcast(length, item).Ok?
    ensures Broadcast(length, Iterable(Broadcast(length, item).value)) == Broadcast(length, item)
  {
  }

  /** The last index s with `specs[s] == x`, if any: the entry `create_intcodes` ends up writing. */
  function LastMatch<T(==)>(specs: seq<T>, x: T): (r: Option<nat>)
    ensures r.None? <==> x !in specs
    ensures r.Some? ==> r.value < |specs| && specs[r.value] == x
    ensures r.Some? ==> forall t :: r.value < t < |specs| ==> specs[t] != x
    decreases |specs|
  {
    if |specs| == 0 then None
    else if specs[|specs| - 1] == x then Some(|specs| - 1)
    else
      assert forall t :: 0 <= t < |specs| - 1 ==> specs[..|specs| - 1][t] == specs[t];
      LastMatch(specs[..|specs| - 1], x)
  }

  /** The value at a position holding x after translating with the first n pairs of the tables. */
  function CodeAfter<T(==), V>(specs: seq<T>, ints: seq<V>, blank: V, n: nat, x: T): V
    requires n <= |specs| == |ints|
  {
    match LastMatch(specs[..n], x)
    case Some(s) => ints[s]
    case None => blank
  }

  lemma CodeAfterStep<T, V>(specs: seq<T>, ints: seq<V>, blank: V, n: nat, x: T)
    requires n < |specs| == |ints|
    ensures CodeAfter(specs, ints, blank, n + 1, x) ==
      if specs[n] == x then ints[n] else CodeAfter(specs, ints, blank, n, x)
  {
    assert specs[..n + 1][..n] == specs[..n];
  }

  /**
   * `create_intcodes(speclist, unq_specs, unq_ints)`: every position whose code
   * is listed in `unq_specs` receives the integer paired with its last listing.
   * Positions with an unlisted code keep whatever `np.empty` left there, here the
   * caller's `blank`, about which the contract says nothing.
   */
  method CreateIntcodes<T(==), V>(speclist: seq<T>, unqSpecs: seq<T>, unqInts: seq<V>, blank: V)
    returns (r: Result<seq<V>>)
    ensures r.Err? <==> |speclist| == 0 || |unqSpecs| != |unqInts|
    ensures r.Err? ==> r.error == AssertionError
    ensures r.Ok? ==> |r.value| == |speclist|
    ensures r.Ok? ==> forall i :: 0 <= i < |speclist| && LastMatch(unqSpecs, speclist[i]).Some? ==>
      r.value[i] == unqInts[LastMatch(unqSpecs, speclist[i]).value]
  {
    if |speclist| == 0 || |unqSpecs| != |unqInts| {
      return Err(AssertionError);
    }
    var totInt := new V[|speclist|](_ => blank);
    for s := 0 to |unqSpecs|
      invariant forall k :: 0 <= k < totInt.Length ==>
        totInt[k] == CodeAfter(unqSpecs, unqInts, blank, s, speclist[k])
    {
      var check := seq(|speclist|, k requires 0 <= k < |speclist| => unqSpecs[s] == speclist[k]);
      for i := 0 to |check|
        invariant forall k :: 0 <= k < i ==>
          totInt[k] == CodeAfter(unqSpecs, unqInts, blank, s + 1, speclist[k])
        invariant forall k :: i <= k < totInt.Length ==>
          totInt[k] == CodeAfter(unqSpecs, unqInts, blank, s, speclist[k])
      {
        CodeAfterStep(unqSpecs, unqInts, blank, s, speclist[i]);
        if check[i] {
          totInt[i] := unqInts[s];
        }
      }
    }
    assert unqSpecs[..|unqSpecs|] == unqSpecs;
    r := Ok(totInt[..]);
  }

  /** Every position whose code is `unq_specs[s]`, with no later equal listing, holds `unq_ints[s]`. */
  lemma LastListingWins<T, V>(speclist: seq<T>, unqSpecs: seq<T>, unqInts: seq<V>, codes: seq<V>, i: nat, s: nat)
    requires |codes| == |speclist| && |unqSpecs| == |unqInts|
    requires forall k :: 0 <= k < |speclist| && LastMatch(unqSpecs, speclist[k]).Some? ==>
      codes[k] == unqInts[LastMatch(unqSpecs, speclist[k]).value]
    requires i < |speclist| && s < |unqSpecs| && unqSpecs[s] == speclist[i]
    requires forall t :: s < t < |unqSpecs| ==> unqSpecs[t] != speclist[i]
    ensures codes[i] == unqInts[s]
  {
  }
}
