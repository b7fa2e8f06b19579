/**
 * `Parameters.read_from_xml` of code/macroeco/workflow.py over an already
 * parsed parameter file: the analyses whose `scriptname` matches set the
 * interactivity, and each of their runs becomes a named set of parameter
 * values, unnamed runs being called `autoname0`, `autoname1`, ...
 */
module Params {
  import opened Outcomes
  import opened Strings
  import opened Codes

  /** An element of the parameter file: its tag, its attributes and its child elements, in order. */
  datatype Element = Element(tag: string, attrib: map<string, string>, children: seq<Element>)

  /** `elt.get(key)`: the attribute's value, or `None` when the element has no such attribute. */
  function Get(e: Element, key: string): (r: Option<string>)
    ensures r.Some? <==> key in e.attrib
    ensures r.Some? ==> r.value == e.attrib[key]
  {
    if key in e.attrib then Some(e.attrib[key]) else None
  }

  /** The parameter values of one run: `elt.get('name')` to `elt.get('value')`, either of which may be `None`. */
  type Values = map<Option<string>, Option<string>>

  /** The spellings of "false" that `read_from_xml` recognises. */
  predicate IsNo(s: string) {
    s == "F" || s == "False" || s == "f" || s == "false"
  }

  /** The interactivity an analysis element sets: without the attribute, not interactive. */
  function Interactivity(analysis: Element): (b: bool)
    ensures b <==> "interactive" in analysis.attrib && !IsNo(analysis.attrib["interactive"])
  {
    if "interactive" in analysis.attrib then !IsNo(analysis.attrib["interactive"]) else false
  }

  /** The name given to the unnamed run counted as `count`. */
  function AutoName(count: nat): string {
    "autoname" + NatToString(count)
  }

  /** Different counts give different names. */
  lemma AutoNamesDistinct(a: nat, b: nat)
    requires a != b
    ensures AutoName(a) != AutoName(b)
  {
    if AutoName(a) == AutoName(b) {
      var p := "autoname";
      assert AutoName(a)[|p|..] == NatToString(a);
      assert AutoName(b)[|p|..] == NatToString(b);
      NatToStringInjective(a, b);
    }
  }

  /** An element is a `param` child naming key. */
  predicate IsParamFor(e: Element, key: Option<string>) {
    e.tag == "param" && Get(e, "name") == key
  }

  /** The values recorded from the first n children of a run: later `param` children override earlier ones, and a run without them has none. */
  ghost function RunValues(elts: seq<Element>, n: nat): (r: Values)
    requires n <= |elts|
    ensures (forall p :: 0 <= p < n ==> elts[p].tag != "param") ==> r == map[]
    decreases n
  {
    if n == 0 then map[]
    else
      var m, e := RunValues(elts, n - 1), elts[n - 1];
      if e.tag == "param" then m[Get(e, "name") := Get(e, "value")] else m
  }

  /** The values of a run hold exactly the names of its `param` children; other children are ignored. */
  lemma {:induction false} RunValuesKeys(elts: seq<Element>, n: nat)
    requires n <= |elts|
    ensures forall key :: key in RunValues(elts, n) <==> exists p :: 0 <= p < n && IsParamFor(elts[p], key)
    decreases n
  {
    if n > 0 {
      RunValuesKeys(elts, n - 1);
    }
  }

  /** Each name holds the value of the last `param` child of that name. */
  lemma {:induction false} RunValuesLast(elts: seq<Element>, n: nat)
    requires n <= |elts|
    ensures forall key :: key in RunValues(elts, n) ==>
      (exists p :: 0 <= p < n && IsParamFor(elts[p], key) &&
        RunValues(elts, n)[key] == Get(elts[p], "value") && forall q :: p < q < n ==> !IsParamFor(elts[q], key))
    decreases n
  {
    if n > 0 {
      RunValuesLast(elts, n - 1);
    }
  }

  /** The key a run is stored under, and the autoname counter after it. */
  function RunKey(run: Element, count: nat): (r: (string, nat))
    ensures "name" in run.attrib ==> r == (run.attrib["name"], count)
    ensures "name" !in run.attrib ==> r == (AutoName(count), count + 1)
  {
    if "name" in run.attrib then (run.attrib["name"], count) else (AutoName(count), count + 1)
  }

  /** The runs recorded and the counter after reading the first n runs of an analysis. */
  ghost function AfterRuns(runs: seq<Element>, n: nat, params: map<string, Values>, count: nat): (r: (map<string, Values>, nat))
    requires n <= |runs|
    ensures params.Keys <= r.0.Keys && count <= r.1
    decreases n
  {
    if n == 0 then (params, count)
    else
      var before := AfterRuns(runs, n - 1, params, count);
      var key := RunKey(runs[n - 1], before.1);
      (before.0[key.0 := RunValues(runs[n - 1].children, |runs[n - 1].children|)], key.1)
  }

  /** The number of runs among the first n without a `name` attribute. */
  function Unnamed(runs: seq<Element>, n: nat): nat
    requires n <= |runs|
    decreases n
  {
    if n == 0 then 0 else Unnamed(runs, n - 1) + (if "name" in runs[n - 1].attrib then 0 else 1)
  }

  /** The counter advances once per unnamed run. */
  lemma {:induction false} AfterRunsCount(runs: seq<Element>, n: nat, params: map<string, Values>, count: nat)
    requires n <= |runs|
    ensures AfterRuns(runs, n, params, count).1 == count + Unnamed(runs, n)
    decreases n
  {
    if n > 0 {
      AfterRunsCount(runs, n - 1, params, count);
    }
  }

  /** Some run among the first n is named k. */
  predicate NamedRun(runs: seq<Element>, n: nat, k: string)
    requires n <= |runs|
  {
    exists r :: 0 <= r < n && Get(runs[r], "name") == Some(k)
  }

  /** k is one of the autonames from `from` up to `to`. */
  predicate AutoNamed(from: nat, to: nat, k: string) {
    exists c :: from <= c < to && k == AutoName(c)
  }

  /** The keys of m are those of params, the names of the first n runs and the autonames from `from` up to `to`. */
  ghost predicate KeysAre(m: map<string, Values>, params: map<string, Values>, runs: seq<Element>, n: nat,
                          from: nat, to: nat)
    requires n <= |runs|
  {
    forall k :: k in m <==> k in params || NamedRun(runs, n, k) || AutoNamed(from, to, k)
  }

  /**
   * The runs recorded are those already there, the named runs under their
   * names, and one run per autoname the counter passed.
   */
  lemma {:induction false} AfterRunsKeys(runs: seq<Element>, n: nat, params: map<string, Values>, count: nat)
    requires n <= |runs|
    ensures KeysAre(AfterRuns(runs, n, params, count).0, params, runs, n, count, count + Unnamed(runs, n))
    decreases n
  {
    if n > 0 {
      AfterRunsKeys(runs, n - 1, params, count);
      KeysStep(runs, n, params, count);
    } else {
      NoRunKeys(runs, params, count);
    }
  }

  /** Before any run, the keys are those found before the runs. */
  lemma NoRunKeys(runs: seq<Element>, params: map<string, Values>, count: nat)
    ensures KeysAre(params, params, runs, 0, count, count + Unnamed(runs, 0))
  {
    assert Unnamed(runs, 0) == 0;
    forall k ensures !NamedRun(runs, 0, k) && !AutoNamed(count, count, k) {
    }
  }

  /** One run more keeps the keys described: the named runs and the autonames so far. */
  lemma KeysStep(runs: seq<Element>, n: nat, params: map<string, Values>, count: nat)
    requires 0 < n <= |runs|
    requires KeysAre(AfterRuns(runs, n - 1, params, count).0, params, runs, n - 1, count, count + Unnamed(runs, n - 1))
    ensures KeysAre(AfterRuns(runs, n, params, count).0, params, runs, n, count, count + Unnamed(runs, n))
  {
    AfterRunsCount(runs, n - 1, params, count);
    forall k ensures k in AfterRuns(runs, n, params, count).0 <==>
      k in params || NamedRun(runs, n, k) || AutoNamed(count, count + Unnamed(runs, n), k)
    {
      KeyStep(runs, n, params, count, k);
    }
  }

  /** One run more: its key joins those of the runs before it. */
  lemma KeyStep(runs: seq<Element>, n: nat, params: map<string, Values>, count: nat, k: string)
    requires 0 < n <= |runs|
    requires AfterRuns(runs, n - 1, params, count).1 == count + Unnamed(runs, n - 1)
    requires KeysAre(AfterRuns(runs, n - 1, params, count).0, params, runs, n - 1, count, count + Unnamed(runs, n - 1))
    ensures k in AfterRuns(runs, n, params, count).0 <==>
      k in params || NamedRun(runs, n, k) || AutoNamed(count, count + Unnamed(runs, n), k)
  {
    var c := count + Unnamed(runs, n - 1);
    assert k in AfterRuns(runs, n - 1, params, count).0 <==>
      k in params || NamedRun(runs, n - 1, k) || AutoNamed(count, c, k);
    NamedRunSnoc(runs, n, k);
    AutoNamedSnoc(count, c, k);
  }

  lemma NamedRunSnoc(runs: seq<Element>, n: nat, k: string)
    requires 0 < n <= |runs|
    ensures NamedRun(runs, n, k) <==> NamedRun(runs, n - 1, k) || Get(runs[n - 1], "name") == Some(k)
  {
    if NamedRun(runs, n, k) && Get(runs[n - 1], "name") != Some(k) {
      var r :| 0 <= r < n && Get(runs[r], "name") == Some(k);
      assert r < n - 1;
    }
  }

  lemma AutoNamedSnoc(from: nat, c: nat, k: string)
    requires from <= c
    ensures AutoNamed(from, c + 1, k) <==> AutoNamed(from, c, k) || k == AutoName(c)
  {
    if AutoNamed(from, c + 1, k) && k != AutoName(c) {
      var d :| from <= d < c + 1 && k == AutoName(d);
      assert d < c;
    }
    if k == AutoName(c) {
      assert from <= c < c + 1;
    }
  }

  /** The reading state after an element: interactivity, recorded runs and the autoname counter. */
  datatype ReadState = ReadState(interactive: Option<bool>, params: map<string, Values>, runcount: nat)

  /** Whether a top-level element describes an analysis of the given script. */
  predicate Matches(child: Element, script: string) {
    Get(child, "scriptname") == Some(script)
  }

  /** The state after the first n top-level elements of the parameter file. */
  ghost function AfterChildren(children: seq<Element>, n: nat, script: string, start: ReadState): (r: ReadState)
    requires n <= |children|
    ensures start.params.Keys <= r.params.Keys && start.runcount <= r.runcount
    decreases n
  {
    if n == 0 then start
    else
      var before, child := AfterChildren(children, n - 1, script, start), children[n - 1];
      if Matches(child, script) then
        var runs := AfterRuns(child.children, |child.children|, before.params, before.runcount);
        ReadState(Some(Interactivity(child)), runs.0, runs.1)
      else before
  }

  /** The script names of the first n top-level elements, `None` where the attribute is missing. */
  function ScriptNames(children: seq<Element>, n: nat): (r: seq<Option<string>>)
    requires n <= |children|
    ensures |r| == n && forall i :: 0 <= i < n ==> r[i] == Get(children[i], "scriptname")
  {
    seq(n, i requires 0 <= i < n => Get(children[i], "scriptname"))
  }

  /**
   * The interactivity is set by the last analysis of the script: left as it was
   * when no element names the script, otherwise that element's setting.
   */
  lemma {:induction false} InteractiveFromLastMatch(children: seq<Element>, n: nat, script: string, start: ReadState)
    requires n <= |children|
    ensures var last := LastMatch(ScriptNames(children, n), Some(script));
      AfterChildren(children, n, script, start).interactive ==
        if last.None? then start.interactive else Some(Interactivity(children[last.value]))
    decreases n
  {
    if n > 0 {
      InteractiveFromLastMatch(children, n - 1, script, start);
      assert ScriptNames(children, n)[..n - 1] == ScriptNames(children, n - 1);
    }
  }

  /** Elements of other scripts change nothing. */
  lemma {:induction false} OtherScriptsIgnored(children: seq<Element>, n: nat, script: string, start: ReadState)
    requires n <= |children|
    requires forall i :: 0 <= i < n ==> !Matches(children[i], script)
    ensures AfterChildren(children, n, script, start) == start
    decreases n
  {
    if n > 0 {
      OtherScriptsIgnored(children, n - 1, script, start);
    }
  }

  /** The parameters one analysis script reads from the parameter file. */
  class Parameters {
    var script: string
    var interactive: Option<bool>
    var params: map<string, Values>

    /** `Parameters.__init__` before it reads the file: no interactivity, no runs. */
    constructor (scriptname: string)
      ensures script == scriptname && interactive == None && params == map[]
    {
      script := scriptname;
      interactive := None;
      params := map[];
    }

    /** The loop over the children of one run: `param` children record a value. */
    method ReadValues(run: Element, currentRun: string)
      modifies this
      ensures script == old(script) && interactive == old(interactive)
      ensures params == old(params)[currentRun := RunValues(run.children, |run.children|)]
    {
      params := params[currentRun := map[]];
      for e := 0 to |run.children|
        invariant script == old(script) && interactive == old(interactive)
        invariant params == old(params)[currentRun := RunValues(run.children, e)]
      {
        var elt := run.children[e];
        if elt.tag == "param" {
          params := params[currentRun := params[currentRun][Get(elt, "name") := Get(elt, "value")]];
        }
      }
    }

    /** The loop over the runs of one analysis, numbering the unnamed ones. */
    method ReadRuns(analysis: Element, runcount: nat) returns (next: nat)
      modifies this
      ensures script == old(script) && interactive == old(interactive)
      ensures (params, next) == AfterRuns(analysis.children, |analysis.children|, old(params), runcount)
    {
      next := runcount;
      for r := 0 to |analysis.children|
        invariant script == old(script) && interactive == old(interactive)
        invariant (params, next) == AfterRuns(analysis.children, r, old(params), runcount)
      {
        var run := analysis.children[r];
        var currentRun: string;
        if "name" in run.attrib {
          currentRun := run.attrib["name"];
        } else {
          currentRun := AutoName(next);
          next := next + 1;
        }
        ReadValues(run, currentRun);
      }
    }

    /** `read_from_xml` on the root element of a parsed parameter file. */
    method ReadFromXml(root: Element)
      modifies this
      ensures script == old(script)
      ensures interactive == AfterChildren(root.children, |root.children|, script, ReadState(old(interactive), old(params), 0)).interactive
      ensures params == AfterChildren(root.children, |root.children|, script, ReadState(old(interactive), old(params), 0)).params
    {
      ghost var start := ReadState(interactive, params, 0);
      var runcount := 0;
      if |root.children| > 0 {
        for i := 0 to |root.children|
          invariant script == old(script)
          invariant ReadState(interactive, params, runcount) == AfterChildren(root.children, i, script, start)
        {
          var child := root.children[i];
          if Get(child, "scriptname") == Some(script) {
            if "interactive" in child.attrib {
              var ia := child.attrib["interactive"];
              if IsNo(ia) {
                interactive := Some(false);
              } else {
                interactive := Some(true);
              }
            } else {
              interactive := Some(false);
            }
            runcount := ReadRuns(child, runcount);
          }
        }
      }
    }
  }
}
