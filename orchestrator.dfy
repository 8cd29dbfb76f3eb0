/**
 * The pipeline orchestrator: runs each step's script with a bounded number
 * of attempts and a fixed backoff between them, runs the fixed step list in
 * order, stops at the first failed step and builds the execution report.
 *
 * The script launch is an oracle: `outcome(file, k)` is what the k-th
 * attempt of running `file` does (its return code, its captured stderr and
 * the seconds it took). The clock is abstract: only attempts and backoff
 * sleeps take time.
 */
module Orchestrator {
  import opened Wrappers
  import Text

  /** The step list, in execution order: (step name, script path). */
  const PipelineSteps: seq<(string, string)> := [
    ("data_generation", "scripts/data_generation/generate_data.py"),
    ("data_ingestion", "scripts/ingestion/ingest_to_staging.py"),
    ("data_quality_checks", "scripts/quality_checks/data_quality_checks.py"),
    ("staging_to_production", "scripts/transformation/staging_to_production.py"),
    ("warehouse_load", "scripts/transformation/load_warehouse.py"),
    ("analytics_generation", "scripts/transformation/generate_analytics.py")
  ]

  const MaxRetries: nat := 3
  const BackoffSeconds: seq<nat> := [1, 2, 4]

  /** What one launch of a script does. A non-zero return code is what
      `check=True` turns into `CalledProcessError`. */
  datatype Attempt = Attempt(returnCode: int, stderr: string, seconds: nat)

  /** The environment a run sees: which script files exist, and the oracle. */
  datatype Env = Env(exists_: string -> bool, outcome: (string, nat) -> Attempt)

  datatype Status = Success | Failed

  datatype StepResult = StepResult(
    status: Status,
    durationSeconds: nat,
    retryAttempts: nat,
    errorMessage: Option<string>)

  /** A step's result together with what running it looked like from
      outside: how many times the script was launched and the sleeps taken. */
  datatype StepRun = StepRun(result: StepResult, launches: nat, sleeps: seq<nat>)

  datatype RunReport = RunReport(
    status: Status,
    stepsExecuted: seq<(string, StepResult)>,
    errors: seq<string>,
    warnings: seq<string>,
    totalDurationSeconds: nat)

  function ScriptFile(baseDir: string, path: string): string {
    baseDir + "/" + path
  }

  function NotFoundMessage(file: string): string {
    "Script not found: " + file
  }

  // ---------------------------------------------------------------------
  // Specification of one step

  /** What the attempt loop does from attempt `k` on, when `elapsed`
      seconds have passed since the step started. */
  function AttemptsFrom(file: string, outcome: (string, nat) -> Attempt, k: nat, elapsed: nat): StepRun
    requires 1 <= k <= MaxRetries
    decreases MaxRetries - k
  {
    var a := outcome(file, k);
    if a.returnCode == 0 then
      StepRun(StepResult(Success, elapsed + a.seconds, k - 1, None), 1, [])
    else if k == MaxRetries then
      StepRun(StepResult(Failed, elapsed + a.seconds, k, Some(Text.Strip(a.stderr))), 1, [])
    else
      var sleep := BackoffSeconds[k - 1];
      var rest := AttemptsFrom(file, outcome, k + 1, elapsed + a.seconds + sleep);
      StepRun(rest.result, rest.launches + 1, [sleep] + rest.sleeps)
  }

  /** `run_step` as a value: a missing script fails at once, otherwise the
      attempt loop runs from attempt 1. */
  function StepSpec(file: string, env: Env): StepRun {
    if !env.exists_(file) then
      StepRun(StepResult(Failed, 0, 0, Some(NotFoundMessage(file))), 0, [])
    else
      AttemptsFrom(file, env.outcome, 1, 0)
  }

  /** One failed attempt before the last: the rest of the loop runs after
      the backoff sleep. */
  lemma RetryStep(file: string, outcome: (string, nat) -> Attempt, k: nat, elapsed: nat)
    requires 1 <= k < MaxRetries && outcome(file, k).returnCode != 0
    ensures var run := AttemptsFrom(file, outcome, k, elapsed);
      var sleep := BackoffSeconds[k - 1];
      var rest := AttemptsFrom(file, outcome, k + 1, elapsed + outcome(file, k).seconds + sleep);
      && run.result == rest.result
      && run.launches == rest.launches + 1
      && run.sleeps == [sleep] + rest.sleeps
  {
  }

  /** A successful attempt, or the last one, ends the loop. */
  lemma FinalStep(file: string, outcome: (string, nat) -> Attempt, k: nat, elapsed: nat)
    requires 1 <= k <= MaxRetries
    requires outcome(file, k).returnCode == 0 || k == MaxRetries
    ensures var run := AttemptsFrom(file, outcome, k, elapsed);
      var a := outcome(file, k);
      && run.launches == 1 && run.sleeps == []
      && run.result.durationSeconds == elapsed + a.seconds
      && (a.returnCode == 0 ==> run.result == StepResult(Success, elapsed + a.seconds, k - 1, None))
      && (a.returnCode != 0 ==>
            run.result == StepResult(Failed, elapsed + a.seconds, k, Some(Text.Strip(a.stderr))))
  {
  }

  /** The first successful attempt, if any of the allowed ones succeeds. */
  ghost predicate FirstSuccessAt(file: string, outcome: (string, nat) -> Attempt, k: nat) {
    1 <= k <= MaxRetries && outcome(file, k).returnCode == 0
    && forall j :: 1 <= j < k ==> outcome(file, j).returnCode != 0
  }

  /** The seconds taken by `n` launches starting with attempt `k`. */
  function LaunchSeconds(file: string, outcome: (string, nat) -> Attempt, k: nat, n: nat): nat
    decreases n
  {
    if n == 0 then 0 else outcome(file, k).seconds + LaunchSeconds(file, outcome, k + 1, n - 1)
  }

  function Sum(s: seq<nat>): nat {
    if s == [] then 0 else s[0] + Sum(s[1..])
  }

  // ---------------------------------------------------------------------
  // Properties of one step

  /** A missing script is a failure with no retries, no duration and no
      launch at all. */
  lemma MissingScript(file: string, env: Env)
    requires !env.exists_(file)
    ensures StepSpec(file, env).launches == 0 && StepSpec(file, env).sleeps == []
    ensures StepSpec(file, env).result
            == StepResult(Failed, 0, 0, Some("Script not found: " + file))
  {
  }

  /** Success on attempt k: status success, k - 1 retries, exactly k launches
      and the first k - 1 backoff sleeps. */
  lemma {:induction false} SuccessOnAttempt(file: string, env: Env, k: nat)
    requires env.exists_(file) && FirstSuccessAt(file, env.outcome, k)
    ensures StepSpec(file, env).result.status == Success
    ensures StepSpec(file, env).result.retryAttempts == k - 1
    ensures StepSpec(file, env).result.errorMessage == None
    ensures StepSpec(file, env).launches == k
    ensures StepSpec(file, env).sleeps == BackoffSeconds[..k - 1]
  {
    SuccessFrom(file, env.outcome, 1, k, 0);
    StepBounds(file, env);
  }

  /** From attempt i on, when attempt k is the first to succeed: the
      result ... */
  ghost predicate SucceedsAt(file: string, outcome: (string, nat) -> Attempt, i: nat, k: nat, elapsed: nat)
    requires 1 <= i <= k <= MaxRetries
  {
    var run := AttemptsFrom(file, outcome, i, elapsed);
    run.result.status == Success && run.result.retryAttempts == k - 1
    && run.result.errorMessage == None
  }

  /** ... and the launches that lead to it. */
  ghost predicate LaunchesUntil(file: string, outcome: (string, nat) -> Attempt, i: nat, k: nat, elapsed: nat)
    requires 1 <= i <= k <= MaxRetries
  {
    var run := AttemptsFrom(file, outcome, i, elapsed);
    run.launches == k - i + 1
  }

  lemma {:induction false} SuccessFrom(file: string, outcome: (string, nat) -> Attempt, i: nat, k: nat, elapsed: nat)
    requires 1 <= i <= k && FirstSuccessAt(file, outcome, k)
    ensures SucceedsAt(file, outcome, i, k, elapsed)
    ensures LaunchesUntil(file, outcome, i, k, elapsed)
    decreases k - i
  {
    if i < k {
      var next := elapsed + outcome(file, i).seconds + BackoffSeconds[i - 1];
      SuccessFrom(file, outcome, i + 1, k, next);
      SuccessRetry(file, outcome, i, k, elapsed);
      LaunchesRetry(file, outcome, i, k, elapsed);
    } else {
      FinalStep(file, outcome, k, elapsed);
    }
  }

  lemma SuccessRetry(file: string, outcome: (string, nat) -> Attempt, i: nat, k: nat, elapsed: nat)
    requires 1 <= i < k && FirstSuccessAt(file, outcome, k)
    requires SucceedsAt(file, outcome, i + 1, k, elapsed + outcome(file, i).seconds + BackoffSeconds[i - 1])
    ensures SucceedsAt(file, outcome, i, k, elapsed)
  {
    assert outcome(file, i).returnCode != 0;
    RetryStep(file, outcome, i, elapsed);
  }

  lemma LaunchesRetry(file: string, outcome: (string, nat) -> Attempt, i: nat, k: nat, elapsed: nat)
    requires 1 <= i < k && FirstSuccessAt(file, outcome, k)
    requires LaunchesUntil(file, outcome, i + 1, k, elapsed + outcome(file, i).seconds + BackoffSeconds[i - 1])
    ensures LaunchesUntil(file, outcome, i, k, elapsed)
  {
    assert outcome(file, i).returnCode != 0;
    RetryStep(file, outcome, i, elapsed);
  }

  /** Every attempt fails: status failed, MaxRetries retries, the error
      message is the last attempt's stripped stderr, and the sleeps are
      1 and 2 seconds with none after the last attempt. */
  lemma {:induction false} AllAttemptsFail(file: string, env: Env)
    requires env.exists_(file)
    requires forall j :: 1 <= j <= MaxRetries ==> env.outcome(file, j).returnCode != 0
    ensures StepSpec(file, env).result.status == Failed
    ensures StepSpec(file, env).result.retryAttempts == MaxRetries
    ensures StepSpec(file, env).result.errorMessage
            == Some(Text.Strip(env.outcome(file, MaxRetries).stderr))
    ensures StepSpec(file, env).launches == MaxRetries
    ensures StepSpec(file, env).sleeps == [1, 2]
  {
    var o := env.outcome;
    assert o(file, 1).returnCode != 0 && o(file, 2).returnCode != 0 && o(file, 3).returnCode != 0;
  }

  /** In every case: 0 <= retry_attempts <= MaxRetries, at most MaxRetries
      launches, one sleep fewer than launches, and `retry_attempts` counts the
      launches that came before the last one, or all of them on exhaustion. */
  lemma {:induction false} StepBounds(file: string, env: Env)
    ensures var run := StepSpec(file, env);
      run.result.retryAttempts <= MaxRetries
      && run.launches <= MaxRetries
      && (run.launches == 0 <==> !env.exists_(file))
      && (run.launches > 0 ==> |run.sleeps| == run.launches - 1)
      && run.sleeps == BackoffSeconds[..|run.sleeps|]
      && (run.result.status == Success ==> run.result.retryAttempts == run.launches - 1)
      && (run.result.status == Failed && run.launches > 0 ==>
            run.result.retryAttempts == run.launches == MaxRetries)
  {
    if env.exists_(file) {
      BoundsFrom(file, env.outcome, 1, 0);
      SleepsFrom(file, env.outcome, 1, 0);
    }
  }

  lemma {:induction false} BoundsFrom(file: string, outcome: (string, nat) -> Attempt, k: nat, elapsed: nat)
    requires 1 <= k <= MaxRetries
    ensures var run := AttemptsFrom(file, outcome, k, elapsed);
      && run.result.retryAttempts <= MaxRetries
      && 1 <= run.launches <= MaxRetries - k + 1
      && |run.sleeps| == run.launches - 1
      && (run.result.status == Success ==> run.result.retryAttempts == k - 1 + run.launches - 1)
      && (run.result.status == Failed ==>
            run.result.retryAttempts == MaxRetries && k - 1 + run.launches == MaxRetries)
    decreases MaxRetries - k
  {
    var a := outcome(file, k);
    var run := AttemptsFrom(file, outcome, k, elapsed);
    if a.returnCode == 0 || k == MaxRetries {
      assert run.sleeps == [] && run.launches == 1;
    } else {
      var sleep := BackoffSeconds[k - 1];
      var rest := AttemptsFrom(file, outcome, k + 1, elapsed + a.seconds + sleep);
      BoundsFrom(file, outcome, k + 1, elapsed + a.seconds + sleep);
      assert run == StepRun(rest.result, rest.launches + 1, [sleep] + rest.sleeps);
    }
  }

  lemma {:induction false} SleepsFrom(file: string, outcome: (string, nat) -> Attempt, k: nat, elapsed: nat)
    requires 1 <= k <= MaxRetries
    ensures var run := AttemptsFrom(file, outcome, k, elapsed);
      k - 1 + |run.sleeps| <= |BackoffSeconds|
      && forall j :: 0 <= j < |run.sleeps| ==> run.sleeps[j] == BackoffSeconds[k - 1 + j]
    decreases MaxRetries - k
  {
    var a := outcome(file, k);
    if a.returnCode != 0 && k < MaxRetries {
      var sleep := BackoffSeconds[k - 1];
      SleepsFrom(file, outcome, k + 1, elapsed + a.seconds + sleep);
    }
  }

  /** The step's duration is the time its launches took plus its sleeps. */
  lemma {:induction false} StepDuration(file: string, env: Env)
    requires env.exists_(file)
    ensures var run := StepSpec(file, env);
      run.result.durationSeconds == LaunchSeconds(file, env.outcome, 1, run.launches) + Sum(run.sleeps)
  {
    DurationFrom(file, env.outcome, 1, 0);
  }

  /** From attempt k on, the loop's duration is the seconds elapsed before
      it, the seconds of its launches and its sleeps. */
  ghost predicate DurationAccounts(file: string, outcome: (string, nat) -> Attempt, k: nat, elapsed: nat)
    requires 1 <= k <= MaxRetries
  {
    var run := AttemptsFrom(file, outcome, k, elapsed);
    run.result.durationSeconds == elapsed + LaunchSeconds(file, outcome, k, run.launches) + Sum(run.sleeps)
  }

  lemma {:induction false} DurationFrom(file: string, outcome: (string, nat) -> Attempt, k: nat, elapsed: nat)
    requires 1 <= k <= MaxRetries
    ensures DurationAccounts(file, outcome, k, elapsed)
    decreases MaxRetries - k
  {
    var a := outcome(file, k);
    if a.returnCode == 0 || k == MaxRetries {
      DurationLast(file, outcome, k, elapsed);
    } else {
      DurationFrom(file, outcome, k + 1, elapsed + a.seconds + BackoffSeconds[k - 1]);
      DurationRetry(file, outcome, k, elapsed);
    }
  }

  lemma DurationLast(file: string, outcome: (string, nat) -> Attempt, k: nat, elapsed: nat)
    requires 1 <= k <= MaxRetries
    requires outcome(file, k).returnCode == 0 || k == MaxRetries
    ensures DurationAccounts(file, outcome, k, elapsed)
  {
    FinalStep(file, outcome, k, elapsed);
    assert LaunchSeconds(file, outcome, k, 1) == outcome(file, k).seconds;
  }

  lemma DurationRetry(file: string, outcome: (string, nat) -> Attempt, k: nat, elapsed: nat)
    requires 1 <= k < MaxRetries && outcome(file, k).returnCode != 0
    requires DurationAccounts(file, outcome, k + 1, elapsed + outcome(file, k).seconds + BackoffSeconds[k - 1])
    ensures DurationAccounts(file, outcome, k, elapsed)
  {
    var sleep := BackoffSeconds[k - 1];
    var rest := AttemptsFrom(file, outcome, k + 1, elapsed + outcome(file, k).seconds + sleep);
    RetryStep(file, outcome, k, elapsed);
    assert LaunchSeconds(file, outcome, k, rest.launches + 1)
        == outcome(file, k).seconds + LaunchSeconds(file, outcome, k + 1, rest.launches);
    assert Sum([sleep] + rest.sleeps) == sleep + Sum(rest.sleeps);
  }

  // ---------------------------------------------------------------------
  // run_step

  /** `run_step`: the attempt loop with early return on success. */
  method RunStep(file: string, env: Env) returns (run: StepRun)
    ensures run == StepSpec(file, env)
  {
    if !env.exists_(file) {
      return StepRun(StepResult(Failed, 0, 0, Some(NotFoundMessage(file))), 0, []);
    }
    ghost var target := StepSpec(file, env);
    var elapsed: nat := 0;
    var sleeps: seq<nat> := [];
    var attempt: nat := 1;
    LoopStart(file, env);
    while attempt <= MaxRetries
      invariant 1 <= attempt <= MaxRetries
      invariant LoopAt(target, file, env.outcome, attempt, elapsed, sleeps)
      decreases MaxRetries - attempt
    {
      var a := env.outcome(file, attempt);
      if a.returnCode == 0 {
        LoopExit(target, file, env.outcome, attempt, elapsed, sleeps);
        return StepRun(StepResult(Success, elapsed + a.seconds, attempt - 1, None), attempt, sleeps);
      }
      if attempt == MaxRetries {
        LoopExit(target, file, env.outcome, attempt, elapsed, sleeps);
        return StepRun(StepResult(Failed, elapsed + a.seconds, attempt, Some(Text.Strip(a.stderr))), attempt, sleeps);
      }
      var sleep := BackoffSeconds[attempt - 1];
      var elapsed', sleeps' := elapsed + a.seconds + sleep, sleeps + [sleep];
      LoopRetry(target, file, env.outcome, attempt, elapsed, sleeps, elapsed', sleeps');
      elapsed, sleeps, attempt := elapsed', sleeps', attempt + 1;
    }
    assert false;
  }

  /** The loop before attempt `attempt`, with `elapsed` seconds gone and the
      sleeps taken so far, is on its way to `target`: what remains is the
      attempt loop from there on, in result and launches ... */
  ghost predicate LoopAt(target: StepRun, file: string, outcome: (string, nat) -> Attempt,
                         attempt: nat, elapsed: nat, sleeps: seq<nat>)
    requires 1 <= attempt <= MaxRetries
  {
    var rest := AttemptsFrom(file, outcome, attempt, elapsed);
    target.result == rest.result
    && target.launches == rest.launches + attempt - 1
    && SleepsAt(target, file, outcome, attempt, elapsed, sleeps)
  }

  /** ... and in its sleeps. */
  ghost predicate SleepsAt(target: StepRun, file: string, outcome: (string, nat) -> Attempt,
                           attempt: nat, elapsed: nat, sleeps: seq<nat>)
    requires 1 <= attempt <= MaxRetries
  {
    target.sleeps == sleeps + AttemptsFrom(file, outcome, attempt, elapsed).sleeps
  }

  lemma LoopStart(file: string, env: Env)
    requires env.exists_(file)
    ensures LoopAt(StepSpec(file, env), file, env.outcome, 1, 0, [])
  {
    assert [] + AttemptsFrom(file, env.outcome, 1, 0).sleeps == AttemptsFrom(file, env.outcome, 1, 0).sleeps;
  }

  lemma LoopRetry(target: StepRun, file: string, outcome: (string, nat) -> Attempt,
                  attempt: nat, elapsed: nat, sleeps: seq<nat>, elapsed': nat, sleeps': seq<nat>)
    requires 1 <= attempt < MaxRetries && LoopAt(target, file, outcome, attempt, elapsed, sleeps)
    requires outcome(file, attempt).returnCode != 0
    requires elapsed' == elapsed + outcome(file, attempt).seconds + BackoffSeconds[attempt - 1]
    requires sleeps' == sleeps + [BackoffSeconds[attempt - 1]]
    ensures LoopAt(target, file, outcome, attempt + 1, elapsed', sleeps')
  {
    RetryStep(file, outcome, attempt, elapsed);
    SleepsRetry(target, file, outcome, attempt, elapsed, sleeps, elapsed', sleeps');
  }

  lemma SleepsRetry(target: StepRun, file: string, outcome: (string, nat) -> Attempt,
                    attempt: nat, elapsed: nat, sleeps: seq<nat>, elapsed': nat, sleeps': seq<nat>)
    requires 1 <= attempt < MaxRetries && SleepsAt(target, file, outcome, attempt, elapsed, sleeps)
    requires outcome(file, attempt).returnCode != 0
    requires elapsed' == elapsed + outcome(file, attempt).seconds + BackoffSeconds[attempt - 1]
    requires sleeps' == sleeps + [BackoffSeconds[attempt - 1]]
    ensures SleepsAt(target, file, outcome, attempt + 1, elapsed', sleeps')
  {
    var sleep := BackoffSeconds[attempt - 1];
    var rest := AttemptsFrom(file, outcome, attempt + 1, elapsed');
    RetryStep(file, outcome, attempt, elapsed);
    assert sleeps + ([sleep] + rest.sleeps) == (sleeps + [sleep]) + rest.sleeps;
  }

  lemma LoopExit(target: StepRun, file: string, outcome: (string, nat) -> Attempt,
                 attempt: nat, elapsed: nat, sleeps: seq<nat>)
    requires 1 <= attempt <= MaxRetries && LoopAt(target, file, outcome, attempt, elapsed, sleeps)
    requires outcome(file, attempt).returnCode == 0 || attempt == MaxRetries
    ensures var a := outcome(file, attempt);
      target == StepRun(
        if a.returnCode == 0 then StepResult(Success, elapsed + a.seconds, attempt - 1, None)
        else StepResult(Failed, elapsed + a.seconds, attempt, Some(Text.Strip(a.stderr))),
        attempt, sleeps)
  {
    FinalStep(file, outcome, attempt, elapsed);
    assert sleeps + [] == sleeps;
  }

  // ---------------------------------------------------------------------
  // main

  ghost predicate AllSucceeded(steps: seq<(string, StepResult)>) {
    forall i :: 0 <= i < |steps| ==> steps[i].1.status == Success
  }

  function SumDurations(steps: seq<(string, StepResult)>): nat {
    if steps == [] then 0 else SumDurations(steps[..|steps| - 1]) + steps[|steps| - 1].1.durationSeconds
  }

  /** `main`: runs the steps in order, records each result under its name,
      and stops after the first step that did not succeed. */
  method RunPipeline(baseDir: string, env: Env) returns (report: RunReport)
    ensures 1 <= |report.stepsExecuted| <= |PipelineSteps|
    ensures forall i :: 0 <= i < |report.stepsExecuted| ==>
      report.stepsExecuted[i].0 == PipelineSteps[i].0
      && report.stepsExecuted[i].1
         == StepSpec(ScriptFile(baseDir, PipelineSteps[i].1), env).result
    ensures forall i :: 0 <= i < |report.stepsExecuted| - 1 ==>
      report.stepsExecuted[i].1.status == Success
    ensures |report.stepsExecuted| < |PipelineSteps| ==>
      report.stepsExecuted[|report.stepsExecuted| - 1].1.status == Failed
    ensures report.status == Success <==> AllSucceeded(report.stepsExecuted)
    ensures report.status == Success <==> report.errors == []
    ensures report.errors == [] || report.errors
      == [report.stepsExecuted[|report.stepsExecuted| - 1].0 + " failed"]
    ensures report.warnings == []
    ensures report.totalDurationSeconds == SumDurations(report.stepsExecuted)
  {
    var steps: seq<(string, StepResult)> := [];
    var errors: seq<string> := [];
    var i := 0;
    while i < |PipelineSteps|
      invariant 0 <= i <= |PipelineSteps|
      invariant |steps| == i
      invariant forall j :: 0 <= j < i ==>
        steps[j].0 == PipelineSteps[j].0
        && steps[j].1 == StepSpec(ScriptFile(baseDir, PipelineSteps[j].1), env).result
      invariant AllSucceeded(steps)
      invariant errors == []
    {
      var (name, path) := PipelineSteps[i];
      var run := RunStep(ScriptFile(baseDir, path), env);
      steps := steps + [(name, run.result)];
      i := i + 1;
      if run.result.status != Success {
        errors := errors + [name + " failed"];
        break;
      }
    }
    assert steps != [];
    var status := if errors == [] then Success else Failed;
    report := RunReport(status, steps, errors, [], SumDurations(steps));
  }
}
