/**
 * The `Workflow` object of code/macroeco/workflow.py: the script name and data
 * files taken from the command line, the runs read from the parameter file,
 * and the output identifiers `single_datasets` and `all_datasets` hand to an
 * analysis script.
 */
module Workflows {
  import opened Outcomes
  import opened Strings
  import opened Paths
  import opened Params

  /**
   * The parameter file as the workflow finds it: missing (reading it raises
   * `IOError`), not well-formed XML (the parsed root is then never bound), or
   * parsed into its root element.
   */
  datatype ParamFile = Missing | Unparsable | Parsed(root: Element)

  /** One item `single_datasets` yields: a data file, its output identifier and, with runs, the run's values. */
  datatype Job = Job(path: string, id: string, values: Option<Values>)

  /** One item `all_datasets` yields: all data files, their joint identifier and, with runs, the run's values. */
  datatype Batch = Batch(paths: seq<string>, id: string, values: Option<Values>)

  /** order lists every run name once, in the order the dictionary yields its keys. */
  ghost predicate ListsKeys(order: seq<string>, keys: set<string>) {
    Distinct(order) && forall k :: k in order <==> k in keys
  }

  /** The identifier of one data file without runs: script and file name joined by `_`. */
  function FileId(script: string, df: string): (id: string)
    ensures id == script + "_" + CleanName(df)
  {
    JoinTwo("_", script, CleanName(df));
    Join("_", [script, CleanName(df)])
  }

  /** The identifier of one data file within a run. */
  function RunFileId(script: string, df: string, run: string): (id: string)
    ensures id == FileId(script, df) + "_" + run
  {
    JoinThree("_", script, CleanName(df), run);
    Join("_", [script, CleanName(df), run])
  }

  /** The jobs without runs: one per data file, in order. */
  function FileJobs(script: string, dfs: seq<string>): (r: seq<Job>)
    ensures |r| == |dfs|
    ensures forall b :: 0 <= b < |dfs| ==> r[b] == Job(dfs[b], FileId(script, dfs[b]), None)
  {
    seq(|dfs|, b requires 0 <= b < |dfs| => Job(dfs[b], FileId(script, dfs[b]), None))
  }

  /** The jobs of one run: one per data file, each with the run's values. */
  function RunBlock(script: string, dfs: seq<string>, run: string, values: Values): (r: seq<Job>)
    ensures |r| == |dfs|
    ensures forall b :: 0 <= b < |dfs| ==> r[b] == Job(dfs[b], RunFileId(script, dfs[b], run), Some(values))
  {
    seq(|dfs|, b requires 0 <= b < |dfs| => Job(dfs[b], RunFileId(script, dfs[b], run), Some(values)))
  }

  /** The jobs of the first n runs: for each run, every data file; without data files there are none. */
  function RunJobs(script: string, dfs: seq<string>, params: map<string, Values>, order: seq<string>, n: nat): (r: seq<Job>)
    requires n <= |order| && forall k :: k in order ==> k in params
    ensures |dfs| == 0 ==> |r| == 0
    decreases n
  {
    if n == 0 then []
    else RunJobs(script, dfs, params, order, n - 1) + RunBlock(script, dfs, order[n - 1], params[order[n - 1]])
  }

  lemma {:induction false} RunJobsLength(script: string, dfs: seq<string>, params: map<string, Values>, order: seq<string>, n: nat)
    requires n <= |order| && forall k :: k in order ==> k in params
    ensures |RunJobs(script, dfs, params, order, n)| == n * |dfs|
    decreases n
  {
    if n > 0 {
      RunJobsLength(script, dfs, params, order, n - 1);
      assert n * |dfs| == (n - 1) * |dfs| + |dfs|;
    }
  }

  /** Later runs only append jobs. */
  lemma {:induction false} RunJobsPrefix(script: string, dfs: seq<string>, params: map<string, Values>, order: seq<string>, a: nat, n: nat)
    requires a <= n <= |order| && forall k :: k in order ==> k in params
    ensures RunJobs(script, dfs, params, order, a) <= RunJobs(script, dfs, params, order, n)
    decreases n
  {
    if a < n {
      RunJobsPrefix(script, dfs, params, order, a, n - 1);
      PrefixAppend(RunJobs(script, dfs, params, order, a), RunJobs(script, dfs, params, order, n - 1),
        RunBlock(script, dfs, order[n - 1], params[order[n - 1]]));
    }
  }

  /** Run a's jobs, after those of the runs before it, start the jobs of all runs. */
  lemma RunJobsBlockPrefix(script: string, dfs: seq<string>, params: map<string, Values>, order: seq<string>, a: nat)
    requires a < |order| && forall k :: k in order ==> k in params
    ensures RunJobs(script, dfs, params, order, a) + RunBlock(script, dfs, order[a], params[order[a]]) <=
      RunJobs(script, dfs, params, order, |order|)
  {
    RunJobsPrefix(script, dfs, params, order, a + 1, |order|);
  }

  /** Run a's jobs follow those of the runs before it, one per data file. */
  lemma RunJobsBlockAt(script: string, dfs: seq<string>, params: map<string, Values>, order: seq<string>, a: nat, b: nat)
    requires a < |order| && b < |dfs| && forall k :: k in order ==> k in params
    ensures var jobs, before := RunJobs(script, dfs, params, order, |order|), RunJobs(script, dfs, params, order, a);
      |before| + b < |jobs| && jobs[|before| + b] == RunBlock(script, dfs, order[a], params[order[a]])[b]
  {
    RunJobsBlockPrefix(script, dfs, params, order, a);
    BlockAt(RunJobs(script, dfs, params, order, a), RunBlock(script, dfs, order[a], params[order[a]]),
      RunJobs(script, dfs, params, order, |order|), b);
  }

  lemma IndexBound(a: nat, n: nat, d: nat, b: nat)
    requires a < n && b < d
    ensures a * d + b < n * d
  {
    assert (a + 1) * d == a * d + d;
    assert (a + 1) * d <= n * d;
  }

  /**
   * With runs, job `a * |dfs| + b` is data file b in run a: run after run, every
   * data file in order, each identified by script, file and run.
   */
  lemma RunJobsAt(script: string, dfs: seq<string>, params: map<string, Values>, order: seq<string>, a: nat, b: nat)
    requires a < |order| && b < |dfs| && forall k :: k in order ==> k in params
    ensures var jobs := RunJobs(script, dfs, params, order, |order|);
      |jobs| == |order| * |dfs| && a * |dfs| + b < |jobs| &&
      jobs[a * |dfs| + b] == Job(dfs[b], script + "_" + CleanName(dfs[b]) + "_" + order[a], Some(params[order[a]]))
  {
    RunJobsIndex(script, dfs, params, order, a, b);
    RunJobsBlockAt(script, dfs, params, order, a, b);
    RunBlockAt(script, dfs, order[a], params[order[a]], b);
  }

  /** Job `a * |dfs| + b` exists and follows the jobs of the first a runs. */
  lemma RunJobsIndex(script: string, dfs: seq<string>, params: map<string, Values>, order: seq<string>, a: nat, b: nat)
    requires a < |order| && b < |dfs| && forall k :: k in order ==> k in params
    ensures var jobs := RunJobs(script, dfs, params, order, |order|);
      |jobs| == |order| * |dfs| && a * |dfs| + b < |jobs| && |RunJobs(script, dfs, params, order, a)| == a * |dfs|
  {
    RunJobsLength(script, dfs, params, order, |order|);
    RunJobsLength(script, dfs, params, order, a);
    IndexBound(a, |order|, |dfs|, b);
  }

  /** Job b of a run is data file b, identified by script, file name and run. */
  lemma RunBlockAt(script: string, dfs: seq<string>, run: string, values: Values, b: nat)
    requires b < |dfs|
    ensures RunBlock(script, dfs, run, values)[b] == Job(dfs[b], script + "_" + CleanName(dfs[b]) + "_" + run, Some(values))
  {
    assert RunBlock(script, dfs, run, values)[b] == Job(dfs[b], RunFileId(script, dfs[b], run), Some(values));
  }

  /** The file names of the data files, in order. */
  function CleanNames(dfs: seq<string>): (r: seq<string>)
    ensures |r| == |dfs| && forall i :: 0 <= i < |dfs| ==> r[i] == CleanName(dfs[i])
  {
    seq(|dfs|, i requires 0 <= i < |dfs| => CleanName(dfs[i]))
  }

  /** The identifier of all data files together: the script and every file name joined by `_`, so it starts with the script name. */
  function AllId(script: string, dfs: seq<string>): (id: string)
    ensures script <= id
    ensures |dfs| == 0 ==> id == script
  {
    var parts := [script] + CleanNames(dfs);
    assert parts[0] == script;
    assert |dfs| == 0 ==> parts == [script];
    Join("_", parts)
  }

  /** The identifier of all data files within a run. */
  function AllRunId(script: string, dfs: seq<string>, run: string): (id: string)
    ensures id == AllId(script, dfs) + "_" + run
  {
    JoinSnoc("_", [script] + CleanNames(dfs), run);
    Join("_", [script] + CleanNames(dfs) + [run])
  }

  /** With one data file, its joint identifier is its own. */
  lemma OneFileIds(script: string, df: string)
    ensures AllId(script, [df]) == FileId(script, df)
  {
    assert [script] + CleanNames([df]) == [script, CleanName(df)];
  }

  /** A workflow started from the command line. */
  class Workflow {
    var script: string
    var datafiles: seq<string>
    var runs: Parameters?
    var interactive: Option<bool>

    constructor (script: string, datafiles: seq<string>, runs: Parameters?, interactive: Option<bool>)
      ensures this.script == script && this.datafiles == datafiles
      ensures this.runs == runs && this.interactive == interactive
    {
      this.script := script;
      this.datafiles := datafiles;
      this.runs := runs;
      this.interactive := interactive;
    }

    /** `single_datasets`, as the sequence of items it yields; order lists the run names. */
    function SingleDatasets(order: seq<string>): (r: seq<Job>)
      reads this, runs
      requires runs != null ==> ListsKeys(order, runs.params.Keys)
      ensures runs == null ==> |r| == |datafiles|
      ensures |datafiles| == 0 ==> r == []
    {
      if runs == null then FileJobs(script, datafiles)
      else RunJobs(script, datafiles, runs.params, order, |order|)
    }

    /** `all_datasets`, as the sequence of items it yields; order lists the run names. */
    function AllDatasets(order: seq<string>): (r: seq<Batch>)
      reads this, runs
      requires runs != null ==> ListsKeys(order, runs.params.Keys)
      ensures |r| == if runs == null then 1 else |order|
      ensures forall a :: 0 <= a < |r| ==>
        r[a].paths == datafiles && AllId(script, datafiles) <= r[a].id && (r[a].values.Some? <==> runs != null)
    {
      if runs == null then [Batch(datafiles, AllId(script, datafiles), None)]
      else
        var dfs, s, ps := datafiles, script, runs.params;
        seq(|order|, a requires 0 <= a < |order| && order[a] in ps => Batch(dfs, AllRunId(s, dfs, order[a]), Some(ps[order[a]])))
    }
  }

  /** `Workflow.__init__`: the script name, the data files and the runs of the parameter file. */
  method Start(argv: seq<string>, file: ParamFile) returns (r: Result<Workflow>)
    ensures |argv| == 0 ==> r == Err(IndexError)
    ensures |argv| == 1 ==> r == Err(SystemExit)
    ensures |argv| >= 2 ==> r.Ok? && fresh(r.value)
    ensures r.Ok? ==>
      r.value.script == ScriptName(argv[0]) && r.value.datafiles == argv[1..] &&
      (file.Parsed? <==> r.value.runs != null)
    ensures r.Ok? && !file.Parsed? ==> r.value.interactive == Some(false)
    ensures r.Ok? && file.Parsed? ==>
      var after := AfterChildren(file.root.children, |file.root.children|, r.value.script, ReadState(None, map[], 0));
      fresh(r.value.runs) && r.value.runs.script == r.value.script &&
      r.value.interactive == r.value.runs.interactive == after.interactive &&
      r.value.runs.params == after.params
  {
    if |argv| == 0 {
      return Err(IndexError);
    }
    var script := ScriptName(argv[0]);
    var datafiles := argv[1..];
    if |argv| < 2 {
      return Err(SystemExit);
    }
    var runs: Parameters? := null;
    var interactive := Some(false);
    if file.Parsed? {
      var p := new Parameters(script);
      p.ReadFromXml(file.root);
      runs := p;
      interactive := p.interactive;
    }
    var w := new Workflow(script, datafiles, runs, interactive);
    return Ok(w);
  }

  /** Without runs, `single_datasets` yields every data file once, in order, identified by script and file name. */
  lemma SingleWithoutRuns(w: Workflow, order: seq<string>)
    requires w.runs == null
    ensures var jobs := w.SingleDatasets(order);
      |jobs| == |w.datafiles| &&
      forall b :: 0 <= b < |jobs| ==> jobs[b] == Job(w.datafiles[b], w.script + "_" + CleanName(w.datafiles[b]), None)
  {
  }

  /** With runs, `single_datasets` yields every data file in every run, each with the run's values. */
  lemma SingleWithRuns(w: Workflow, order: seq<string>, a: nat, b: nat)
    requires w.runs != null && ListsKeys(order, w.runs.params.Keys)
    requires a < |order| && b < |w.datafiles|
    ensures var jobs := w.SingleDatasets(order);
      |jobs| == |order| * |w.datafiles| && a * |w.datafiles| + b < |jobs| &&
      jobs[a * |w.datafiles| + b] ==
        Job(w.datafiles[b], w.script + "_" + CleanName(w.datafiles[b]) + "_" + order[a], Some(w.runs.params[order[a]]))
  {
    RunJobsAt(w.script, w.datafiles, w.runs.params, order, a, b);
  }

  lemma NoKeysNoOrder(order: seq<string>, keys: set<string>)
    requires forall k :: k in order ==> k in keys
    ensures keys == {} ==> order == []
  {
    if |order| > 0 {
      assert order[0] in keys;
    }
  }

  /** An empty parameter set yields nothing. */
  lemma SingleWithNoRuns(w: Workflow, order: seq<string>)
    requires w.runs != null && w.runs.params == map[] && ListsKeys(order, w.runs.params.Keys)
    ensures w.SingleDatasets(order) == []
  {
    NoKeysNoOrder(order, w.runs.params.Keys);
  }

  /**
   * `all_datasets` yields one batch of all the data files: without runs under
   * the joint identifier, with runs once per run, under the joint identifier
   * followed by the run name and with the run's values.
   */
  lemma AllDatasetsMeaning(w: Workflow, order: seq<string>)
    requires w.runs != null ==> ListsKeys(order, w.runs.params.Keys)
    ensures w.runs == null ==> w.AllDatasets(order) == [Batch(w.datafiles, AllId(w.script, w.datafiles), None)]
    ensures w.runs != null ==>
      (|w.AllDatasets(order)| == |order| &&
       forall a :: 0 <= a < |order| ==>
         w.AllDatasets(order)[a] ==
           Batch(w.datafiles, AllId(w.script, w.datafiles) + "_" + order[a], Some(w.runs.params[order[a]])))
  {
  }
}
