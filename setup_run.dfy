/** The "Setup Complete Schema" run inside `main`: the scripts of the dict are
    executed one after another in dict order; each result is logged, a progress
    fraction is shown before each execution, the loop stops at the first failure,
    and completion is announced only when the last attempted script succeeded.
    An empty script set is reported and nothing is executed. */
module SetupRun {
  import opened Execution
  import opened ScriptLoader

  /** How a run ends: "No SQL scripts found to execute", "Schema setup completed
      successfully", or stopped by a failed script. */
  datatype RunEnd = NoScripts | Completed | Halted

  /** The progress fraction `(i + 1) / len(scripts)`, kept as numerator and denominator. */
  datatype Progress = Progress(done: nat, total: nat)

  /** The outcomes the remote calls have when every script is sent, one after
      another, from the start of a run. */
  function Trace(rpc: Rpc, scripts: seq<Script>): seq<Outcome> {
    TraceFrom(rpc, [], scripts)
  }

  /** The outcomes of sending `scripts` one after another once the queries `sent`
      have gone before: each call comes after the queries before it, and adds its
      own. */
  function TraceFrom(rpc: Rpc, sent: seq<string>, scripts: seq<Script>): (t: seq<Outcome>)
    decreases |scripts|
    ensures |t| == |scripts|
  {
    if scripts == [] then []
    else [rpc(sent, scripts[0].body)] + TraceFrom(rpc, sent + [scripts[0].body], scripts[1..])
  }

  /** In a trace, the call for script `|queries|` comes after exactly the queries
      `sent` before the trace and the contents of the scripts before it. */
  lemma {:induction false} TraceFromAt(rpc: Rpc, sent: seq<string>, scripts: seq<Script>, queries: seq<string>)
    decreases |queries|
    requires |queries| < |scripts|
    requires forall j :: 0 <= j < |queries| ==> queries[j] == scripts[j].body
    ensures TraceFrom(rpc, sent, scripts)[|queries|] == rpc(sent + queries, scripts[|queries|].body)
  {
    if queries == [] {
      assert sent + queries == sent;
    } else {
      TraceFromAt(rpc, sent + [scripts[0].body], scripts[1..], queries[1..]);
      assert sent + [scripts[0].body] + queries[1..] == sent + queries;
    }
  }

  /** Index of the first outcome that raised, or `|t|` when none did. */
  function FirstFailure(t: seq<Outcome>): (k: nat)
    ensures k <= |t|
    ensures forall j :: 0 <= j < k ==> t[j].Returned?
    ensures k < |t| ==> t[k].Raised?
  {
    if t == [] then 0
    else if t[0].Raised? then 0
    else 1 + FirstFailure(t[1..])
  }

  /** The loop of App.py:128-145 over `scripts.items()`. `log` holds the results in the
      order shown, `queries` the query text of every executor invocation, `progress`
      every fraction shown. With `k` the index of the first failing script: scripts
      `0..k` are executed, exactly once each and in order, and none after. The last
      ensures is a corollary of `progress[j] == Progress(j + 1, |scripts|)`, kept as
      the statement that the bar reaches its end only at the last script. */
  method RunScripts(scripts: seq<Script>, rpc: Rpc)
    returns (log: seq<ExecResult>, queries: seq<string>, progress: seq<Progress>, end: RunEnd)
    ensures var k := FirstFailure(Trace(rpc, scripts));
      && |log| == |queries| == |progress| == (if k < |scripts| then k + 1 else |scripts|)
      && (end == NoScripts <==> scripts == [])
      && (end == Completed <==> scripts != [] && k == |scripts|)
      && (end == Halted <==> k < |scripts|)
      && (forall j :: 0 <= j < |log| ==> (log[j].success <==> j < k))
    ensures forall j :: 0 <= j < |log| ==>
      && log[j] == ResultOf(Trace(rpc, scripts)[j], scripts[j].name)
      && queries[j] == scripts[j].body
      && progress[j] == Progress(j + 1, |scripts|)
    ensures forall j :: 0 <= j < |progress| ==> (progress[j].done == progress[j].total <==> j == |scripts| - 1)
  {
    log, queries, progress := [], [], [];
    if |scripts| == 0 {
      return log, queries, progress, NoScripts;
    }
    ghost var trace := Trace(rpc, scripts);
    var success := false;
    var i := 0;
    while i < |scripts|
      invariant 0 <= i <= |scripts| && |log| == i
      invariant forall j :: 0 <= j < i ==> trace[j].Returned?
      invariant Logged(scripts, trace, log, queries, progress)
      invariant success <==> i > 0
    {
      NextCall(rpc, scripts, queries);
      LoggedExtend(scripts, trace, log, queries, progress);
      progress := progress + [Progress(i + 1, |scripts|)];
      var result := ExecuteSql(rpc, queries, scripts[i].body, scripts[i].name);
      queries := queries + [scripts[i].body];
      success := result.success;
      log := log + [result];
      if !success {
        break;
      }
      i := i + 1;
    }
    RunConclusion(scripts, trace, log, queries, progress);
    end := if success then Completed else Halted;
  }

  /** The first `|log|` scripts have been executed in order: each one's result,
      query and progress fraction are recorded at its index. */
  ghost predicate Logged(scripts: seq<Script>, trace: seq<Outcome>, log: seq<ExecResult>, queries: seq<string>, progress: seq<Progress>) {
    && |trace| == |scripts| && |log| <= |scripts| && |queries| == |log| && |progress| == |log|
    && forall j :: 0 <= j < |log| ==>
      && log[j] == ResultOf(trace[j], scripts[j].name)
      && queries[j] == scripts[j].body
      && progress[j] == Progress(j + 1, |scripts|)
  }

  /** Recording the next script's result, query and progress fraction extends Logged
      by one script. */
  lemma LoggedExtend(scripts: seq<Script>, trace: seq<Outcome>, log: seq<ExecResult>, queries: seq<string>, progress: seq<Progress>)
    requires Logged(scripts, trace, log, queries, progress) && |log| < |scripts|
    ensures var i := |log|;
      Logged(scripts, trace, log + [ResultOf(trace[i], scripts[i].name)], queries + [scripts[i].body], progress + [Progress(i + 1, |scripts|)])
  {
  }

  /** Once the queries of the first scripts have been sent, the next script meets
      the outcome the trace gives it. */
  lemma NextCall(rpc: Rpc, scripts: seq<Script>, queries: seq<string>)
    requires |queries| < |scripts|
    requires forall j :: 0 <= j < |queries| ==> queries[j] == scripts[j].body
    ensures Trace(rpc, scripts)[|queries|] == rpc(queries, scripts[|queries|].body)
  {
    TraceFromAt(rpc, [], scripts, queries);
    assert [] + queries == queries;
  }

  /** What a run has done once it stops: after the last script, or at the first failure. */
  lemma RunConclusion(scripts: seq<Script>, trace: seq<Outcome>, log: seq<ExecResult>, queries: seq<string>, progress: seq<Progress>)
    requires Logged(scripts, trace, log, queries, progress) && |log| > 0
    requires forall j :: 0 <= j < |log| - 1 ==> trace[j].Returned?
    requires trace[|log| - 1].Returned? ==> |log| == |scripts|
    ensures var k := FirstFailure(trace);
      && |log| == (if k < |scripts| then k + 1 else |scripts|)
      && (log[|log| - 1].success <==> k == |scripts|)
      && (forall j :: 0 <= j < |log| ==> (log[j].success <==> j < k))
  {
  }
}
