/** The runner's job executor: the steps of an assigned job run one after
    another as `sh -c` subprocesses; the runner reports each step as running
    and then with its outcome, stops at the first step that fails, and
    reports one result for the job. The subprocess is an oracle. */
module Runner {
  import opened Common

  datatype JobAssignment = JobAssignment(jobId: nat, runId: nat, jobSpec: JobSpec)

  /** How `cmd.Run()` ended, with the captured output streams: exit status 0
      (no error), an `*exec.ExitError` carrying the process's exit code, or
      any other error (the shell or the directory could not be used). */
  datatype ProcessOutcome =
    | Exited(stdout: string, stderr: string)
    | ExitError(code: int, message: string, stdout: string, stderr: string)
    | StartError(message: string, stdout: string, stderr: string)

  /** An exit error is only ever reported for an exit code other than 0. */
  predicate ValidOutcome(o: ProcessOutcome) {
    o.ExitError? ==> o.code != 0
  }

  /** The subprocess oracle: the step's id within its job, its command,
      working directory ("" for the runner's own) and the environment the
      process sees. The step's id stands for the state the job's earlier
      steps left behind (files, directories), so the same command may have a
      different outcome at different positions of a job. */
  type Process = (nat, string, string, map<string, string>) -> ProcessOutcome

  datatype StepResult = StepResult(stepId: nat, status: Status, exitCode: int, output: string, error: string)
  datatype JobResult = JobResult(jobId: nat, status: Status, error: string)

  /** What the runner reports, in the order it reports it. */
  datatype Report = StepReport(step: StepResult) | JobReport(job: JobResult)

  const NoCommand: string := "no command specified for step"

  // ---------------------------------------------------------------------
  // The process environment.

  /** The position of the first '=' in an entry. */
  function SplitAt(e: string): (i: nat)
    requires '=' in e
    ensures i < |e| && e[i] == '=' && '=' !in e[..i]
  {
    if e[0] == '=' then 0 else assert e == [e[0]] + e[1..]; SplitAt(e[1..]) + 1
  }

  /** The environment a process sees for a list of "name=value" entries:
      for a name given twice the later entry wins, and an entry without '='
      sets nothing. */
  function Effective(env: seq<string>): map<string, string>
    decreases |env|
  {
    if env == [] then map[]
    else
      var e := env[|env| - 1];
      var m := Effective(env[..|env| - 1]);
      if '=' in e then m[e[..SplitAt(e)] := e[SplitAt(e) + 1..]] else m
  }

  /** The entries appended for the step's variables, in iteration order. */
  function Entries(order: seq<EnvName>, vars: map<EnvName, string>): (entries: seq<string>)
    requires forall i :: 0 <= i < |order| ==> order[i] in vars
    ensures |entries| == |order|
    decreases |order|
  {
    if order == [] then []
    else
      var k := order[|order| - 1];
      Entries(order[..|order| - 1], vars) + [k + "=" + vars[k]]
  }

  /** `order` lists every key of `vars` exactly once. */
  predicate IsOrdering(order: seq<EnvName>, vars: map<EnvName, string>) {
    && (forall i, j :: 0 <= i < j < |order| ==> order[i] != order[j])
    && (forall i :: 0 <= i < |order| ==> order[i] in vars)
    && (forall k :: k in vars ==> k in order)
  }

  /** An entry built from a name without '=' splits back into that name
      and its value. */
  lemma EntryParts(k: EnvName, v: string)
    ensures var e := k + "=" + v; '=' in e && e[..SplitAt(e)] == k && e[SplitAt(e) + 1..] == v
  {
    var e := k + "=" + v;
    assert e[|k|] == '=';
    assert e[..|k|] == k;
    assert SplitAt(e) == |k|;
  }

  /** An entry appended last sets its name, whatever came before. */
  lemma EffectiveSnoc(body: seq<string>, k: EnvName, v: string)
    ensures Effective(body + [k + "=" + v]) == Effective(body)[k := v]
  {
    var env := body + [k + "=" + v];
    assert env[..|env| - 1] == body;
    EntryParts(k, v);
  }

  lemma UnionUpdate(m: map<string, string>, n: map<EnvName, string>, k: EnvName, v: string)
    ensures (m + n)[k := v] == m + n[k := v]
  {
  }

  /** Appending the entries of some keys makes those keys take the step's
      values and leaves every other name as the prefix set it. */
  lemma {:induction false} EffectiveAppend(prefix: seq<string>, order: seq<EnvName>, vars: map<EnvName, string>)
    requires forall i :: 0 <= i < |order| ==> order[i] in vars
    ensures Effective(prefix + Entries(order, vars)) == Effective(prefix) + Chosen(order, vars)
    decreases |order|
  {
    if order == [] {
      assert prefix + Entries(order, vars) == prefix;
    } else {
      var init, k := order[..|order| - 1], order[|order| - 1];
      var body := prefix + Entries(init, vars);
      EntriesSnoc(prefix, order, vars);
      EffectiveSnoc(body, k, vars[k]);
      EffectiveAppend(prefix, init, vars);
      ChosenSnoc(order, vars);
      UnionUpdate(Effective(prefix), Chosen(init, vars), k, vars[k]);
    }
  }

  /** The step's values for the keys listed in `order`. */
  function Chosen(order: seq<EnvName>, vars: map<EnvName, string>): map<EnvName, string> {
    map k | k in vars && k in order :: vars[k]
  }

  /** Listing one more key adds that key's value. */
  lemma ChosenSnoc(order: seq<EnvName>, vars: map<EnvName, string>)
    requires order != [] && order[|order| - 1] in vars
    ensures var k := order[|order| - 1];
      Chosen(order, vars) == Chosen(order[..|order| - 1], vars)[k := vars[k]]
  {
    var init, k := order[..|order| - 1], order[|order| - 1];
    assert forall x :: x in order <==> x in init || x == k;
  }

  /** The entries of one more key end with that key's entry. */
  lemma EntriesSnoc(prefix: seq<string>, order: seq<EnvName>, vars: map<EnvName, string>)
    requires order != []
    requires forall i :: 0 <= i < |order| ==> order[i] in vars
    ensures var k := order[|order| - 1];
      prefix + Entries(order, vars) == (prefix + Entries(order[..|order| - 1], vars)) + [k + "=" + vars[k]]
  {
  }

  /** Whatever order the step's variables are appended in, the process sees
      the runner's environment overridden by the step's variables. */
  lemma EffectiveOverride(environ: seq<string>, order: seq<EnvName>, vars: map<EnvName, string>)
    requires IsOrdering(order, vars)
    ensures Effective(environ + Entries(order, vars)) == Effective(environ) + vars
  {
    EffectiveAppend(environ, order, vars);
    assert Chosen(order, vars) == vars;
  }

  /** `cmd.Env = os.Environ()` followed by one "name=value" entry per step
      variable, in map iteration order (any order). */
  method BuildEnv(environ: seq<string>, vars: map<EnvName, string>)
    returns (env: seq<string>, ghost order: seq<EnvName>)
    ensures IsOrdering(order, vars)
    ensures env == environ + Entries(order, vars)
    ensures Effective(env) == Effective(environ) + vars
  {
    env, order := environ, [];
    var remaining := vars.Keys;
    while remaining != {}
      invariant forall i, j :: 0 <= i < j < |order| ==> order[i] != order[j]
      invariant forall i :: 0 <= i < |order| ==> order[i] in vars && order[i] !in remaining
      invariant remaining <= vars.Keys
      invariant forall k :: k in vars ==> k in remaining || k in order
      invariant env == environ + Entries(order, vars)
      decreases remaining
    {
      var k :| k in remaining;
      ghost var done := order;
      env := env + [k + "=" + vars[k]];
      order := order + [k];
      assert order[..|order| - 1] == done;
      EntriesSnoc(environ, order, vars);
      remaining := remaining - {k};
    }
    EffectiveOverride(environ, order, vars);
  }

  // ---------------------------------------------------------------------
  // One step.

  /** The "running" report sent before the command starts. */
  function Started(stepId: nat): StepResult {
    StepResult(stepId, Running, 0, "", "")
  }

  /** The report sent when the command has finished. */
  function Finished(stepId: nat, o: ProcessOutcome): (r: StepResult)
    ensures r.stepId == stepId && r.output == o.stdout
    ensures r.status == Success <==> o.Exited?
    ensures r.status == Success || r.status == Failed
    ensures o.Exited? ==> r.exitCode == 0 && r.error == ""
    ensures o.ExitError? ==> r.exitCode == o.code && r.error == o.stderr
    ensures o.StartError? ==> r.exitCode == 1 && r.error == o.stderr
  {
    match o
    case Exited(out, _) => StepResult(stepId, Success, 0, out, "")
    case ExitError(code, _, out, errText) => StepResult(stepId, Failed, code, out, errText)
    case StartError(_, out, errText) => StepResult(stepId, Failed, 1, out, errText)
  }

  /** For any outcome the process can have, a finished step reports exit
      code 0 exactly when it reports success. */
  lemma ExitCodeMatchesStatus(stepId: nat, o: ProcessOutcome)
    requires ValidOutcome(o)
    ensures Finished(stepId, o).exitCode == 0 <==> Finished(stepId, o).status == Success
  {
  }

  /** The error `executeStep` returns for a finished command, if any. */
  function StepError(o: ProcessOutcome): (err: Option<string>)
    ensures err.None? <==> o.Exited?
  {
    match o
    case Exited(_, _) => None
    case ExitError(_, message, _, _) => Some(message)
    case StartError(message, _, _) => Some(message)
  }

  /** The outcome of the command of the step with id `stepId` when the
      runner's environment is `environ`. */
  function Outcome(stepId: nat, step: StepSpec, environ: seq<string>, process: Process): ProcessOutcome {
    process(stepId, step.run, step.workingDir, Effective(environ) + step.env)
  }

  /** executeStep: an empty command is an error before anything is reported;
      otherwise the step is reported running, the command runs in the
      runner's environment overridden by the step's variables, and the
      outcome is reported; an error is returned exactly when it failed. */
  method ExecuteStep(stepId: nat, step: StepSpec, environ: seq<string>, process: Process)
    returns (err: Option<string>, reports: seq<Report>)
    ensures step.run == "" ==> err == Some(NoCommand) && reports == []
    ensures step.run != "" ==>
      reports == [StepReport(Started(stepId)), StepReport(Finished(stepId, Outcome(stepId, step, environ, process)))]
    ensures step.run != "" ==> (err.Some? <==> reports[1].step.status == Failed)
    ensures step.run != "" ==> err == StepError(Outcome(stepId, step, environ, process))
  {
    if step.run == "" {
      return Some(NoCommand), [];
    }
    var env, order := BuildEnv(environ, step.env);
    reports := [StepReport(Started(stepId))];
    var outcome := process(stepId, step.run, step.workingDir, Effective(env));
    var result := StepResult(stepId, Success, 0, outcome.stdout, "");
    if !outcome.Exited? {
      result := result.(status := Failed, error := outcome.stderr);
      if outcome.ExitError? {
        result := result.(exitCode := outcome.code);
      } else {
        result := result.(exitCode := 1);
      }
    }
    reports := reports + [StepReport(result)];
    err := StepError(outcome);
  }

  // ---------------------------------------------------------------------
  // One job.

  /** A step stops its job: its command is empty or did not exit with 0. */
  predicate StepFails(stepId: nat, step: StepSpec, environ: seq<string>, process: Process) {
    step.run == "" || !Outcome(stepId, step, environ, process).Exited?
  }

  /** The error message the job reports for a failing step. */
  function FailureMessage(stepId: nat, step: StepSpec, environ: seq<string>, process: Process): string
    requires StepFails(stepId, step, environ, process)
  {
    if step.run == "" then NoCommand else StepError(Outcome(stepId, step, environ, process)).value
  }

  /** The reports of a job from step i on (step i has id i + 1). */
  function JobTrace(jobId: nat, steps: seq<StepSpec>, i: nat, environ: seq<string>, process: Process): seq<Report>
    requires i <= |steps|
    decreases |steps| - i
  {
    if i == |steps| then [JobReport(JobResult(jobId, Success, ""))]
    else if steps[i].run == "" then [JobReport(JobResult(jobId, Failed, NoCommand))]
    else
      var o := Outcome(i + 1, steps[i], environ, process);
      if o.Exited? then Pair(steps, i, environ, process) + JobTrace(jobId, steps, i + 1, environ, process)
      else Pair(steps, i, environ, process) + [JobReport(JobResult(jobId, Failed, StepError(o).value))]
  }

  /** The first step at or after i that fails, or |steps| when none does. */
  function FirstFailure(steps: seq<StepSpec>, i: nat, environ: seq<string>, process: Process): (k: nat)
    requires i <= |steps|
    ensures i <= k <= |steps|
    ensures forall j :: i <= j < k ==> !StepFails(j + 1, steps[j], environ, process)
    ensures k < |steps| ==> StepFails(k + 1, steps[k], environ, process)
    decreases |steps| - i
  {
    if i == |steps| then i
    else if StepFails(i + 1, steps[i], environ, process) then i
    else FirstFailure(steps, i + 1, environ, process)
  }

  /** The running/finished pair reported for step j (id j + 1). */
  function Pair(steps: seq<StepSpec>, j: nat, environ: seq<string>, process: Process): seq<Report>
    requires j < |steps|
  {
    [StepReport(Started(j + 1)), StepReport(Finished(j + 1, Outcome(j + 1, steps[j], environ, process)))]
  }

  /** The pairs of steps i to k - 1, in step order. */
  function Pairs(steps: seq<StepSpec>, i: nat, k: nat, environ: seq<string>, process: Process): seq<Report>
    requires i <= k <= |steps|
    decreases k - i
  {
    if i == k then [] else Pair(steps, i, environ, process) + Pairs(steps, i + 1, k, environ, process)
  }

  /** What a job reports from its first failing step k on (k == |steps| when
      none fails). */
  function Tail(jobId: nat, steps: seq<StepSpec>, k: nat, environ: seq<string>, process: Process): seq<Report>
    requires k <= |steps|
    requires k < |steps| ==> StepFails(k + 1, steps[k], environ, process)
  {
    if k == |steps| then [JobReport(JobResult(jobId, Success, ""))]
    else if steps[k].run == "" then [JobReport(JobResult(jobId, Failed, NoCommand))]
    else Pair(steps, k, environ, process) + [JobReport(JobResult(jobId, Failed, FailureMessage(k + 1, steps[k], environ, process)))]
  }

  /** A job reports the pairs of the steps before the first failure, then
      its tail. */
  lemma {:induction false} JobTraceSplit(jobId: nat, steps: seq<StepSpec>, i: nat, environ: seq<string>, process: Process)
    requires i <= |steps|
    ensures var k := FirstFailure(steps, i, environ, process);
      JobTrace(jobId, steps, i, environ, process) == Pairs(steps, i, k, environ, process) + Tail(jobId, steps, k, environ, process)
    decreases |steps| - i
  {
    if i < |steps| && !StepFails(i + 1, steps[i], environ, process) {
      JobTraceSplit(jobId, steps, i + 1, environ, process);
      var k := FirstFailure(steps, i, environ, process);
      var pair, rest, tail := Pair(steps, i, environ, process), Pairs(steps, i + 1, k, environ, process), Tail(jobId, steps, k, environ, process);
      assert JobTrace(jobId, steps, i, environ, process) == pair + (rest + tail);
      assert Pairs(steps, i, k, environ, process) == pair + rest;
      AppendAssoc(pair, rest, tail);
    }
  }

  lemma {:induction false} PairsLength(steps: seq<StepSpec>, i: nat, k: nat, environ: seq<string>, process: Process)
    requires i <= k <= |steps|
    ensures |Pairs(steps, i, k, environ, process)| == 2 * (k - i)
    decreases k - i
  {
    if i < k {
      PairsLength(steps, i + 1, k, environ, process);
    }
  }

  /** Step j's pair sits at offset 2 * (j - i) of the pairs from step i. */
  lemma {:induction false} PairsAt(steps: seq<StepSpec>, i: nat, k: nat, j: nat, environ: seq<string>, process: Process)
    requires i <= j < k <= |steps|
    ensures |Pairs(steps, i, k, environ, process)| == 2 * (k - i)
    ensures Pairs(steps, i, k, environ, process)[2 * (j - i)] == StepReport(Started(j + 1))
    ensures Pairs(steps, i, k, environ, process)[2 * (j - i) + 1] == StepReport(Finished(j + 1, Outcome(j + 1, steps[j], environ, process)))
    decreases k - i
  {
    PairsLength(steps, i, k, environ, process);
    var p := Pairs(steps, i, k, environ, process);
    if j > i {
      PairsAt(steps, i + 1, k, j, environ, process);
      var rest := Pairs(steps, i + 1, k, environ, process);
      assert p == Pair(steps, i, environ, process) + rest;
      assert p[2 * (j - i)] == rest[2 * (j - (i + 1))];
      assert p[2 * (j - i) + 1] == rest[2 * (j - (i + 1)) + 1];
    }
  }

  /** The reports of a job, where k is its first failing step
      (`FirstFailure`, |steps| when none fails): a running/finished pair for
      each step before k, in step order and with ids 1 to k, then the pair
      for k when k has a command, then one more report. */
  lemma JobTracePairs(jobId: nat, steps: seq<StepSpec>, environ: seq<string>, process: Process)
    ensures var r := JobTrace(jobId, steps, 0, environ, process);
      var k := FirstFailure(steps, 0, environ, process);
      && |r| == 2 * k + (if k == |steps| || steps[k].run == "" then 1 else 3)
      && (forall j :: 0 <= j < k ==>
            r[2 * j] == StepReport(Started(j + 1)) &&
            r[2 * j + 1] == StepReport(Finished(j + 1, Outcome(j + 1, steps[j], environ, process))))
      && (k < |steps| && steps[k].run != "" ==>
            r[2 * k] == StepReport(Started(k + 1)) &&
            r[2 * k + 1] == StepReport(Finished(k + 1, Outcome(k + 1, steps[k], environ, process))))
  {
    var k := FirstFailure(steps, 0, environ, process);
    JobTraceSplit(jobId, steps, 0, environ, process);
    PairsLength(steps, 0, k, environ, process);
    var r := JobTrace(jobId, steps, 0, environ, process);
    var p := Pairs(steps, 0, k, environ, process);
    assert r == p + Tail(jobId, steps, k, environ, process);
    forall j | 0 <= j < k
      ensures r[2 * j] == StepReport(Started(j + 1))
      ensures r[2 * j + 1] == StepReport(Finished(j + 1, Outcome(j + 1, steps[j], environ, process)))
    {
      PairsAt(steps, 0, k, j, environ, process);
    }
  }

  /** Every report of a job but the last is a step report for one of the
      steps 1 to k + 1, where k is its first failing step, so no step after
      the failure is reported; the last report is the job result: success
      when no step fails, otherwise failure with k's error message. */
  lemma JobTraceEnd(jobId: nat, steps: seq<StepSpec>, environ: seq<string>, process: Process)
    ensures var r := JobTrace(jobId, steps, 0, environ, process);
      var k := FirstFailure(steps, 0, environ, process);
      && |r| >= 1
      && (forall m :: 0 <= m < |r| - 1 ==> r[m].StepReport? && 1 <= r[m].step.stepId <= k + 1)
      && r[|r| - 1] == JobReport(
           if k == |steps| then JobResult(jobId, Success, "")
           else JobResult(jobId, Failed, FailureMessage(k + 1, steps[k], environ, process)))
  {
    var k := FirstFailure(steps, 0, environ, process);
    JobTraceSplit(jobId, steps, 0, environ, process);
    PairsLength(steps, 0, k, environ, process);
    var r := JobTrace(jobId, steps, 0, environ, process);
    var p := Pairs(steps, 0, k, environ, process);
    var t := Tail(jobId, steps, k, environ, process);
    assert r == p + t;
    TailShape(jobId, steps, k, environ, process);
    forall m | 0 <= m < |r| - 1 ensures r[m].StepReport? && 1 <= r[m].step.stepId <= k + 1 {
      if m < |p| {
        var j := m / 2;
        PairsAt(steps, 0, k, j, environ, process);
        assert m == 2 * j || m == 2 * j + 1;
        assert r[m] == p[m];
      } else {
        assert r[m] == t[m - |p|];
      }
    }
    assert r[|r| - 1] == t[|t| - 1];
  }

  /** The tail of a job's reports: the failing step's pair, when it has a
      command, followed by the job result. */
  lemma TailShape(jobId: nat, steps: seq<StepSpec>, k: nat, environ: seq<string>, process: Process)
    requires k <= |steps|
    requires k < |steps| ==> StepFails(k + 1, steps[k], environ, process)
    ensures var t := Tail(jobId, steps, k, environ, process);
      && |t| >= 1
      && (forall m :: 0 <= m < |t| - 1 ==> t[m].StepReport? && t[m].step.stepId == k + 1)
      && t[|t| - 1] == JobReport(
           if k == |steps| then JobResult(jobId, Success, "")
           else JobResult(jobId, Failed, FailureMessage(k + 1, steps[k], environ, process)))
  {
  }

  /** Exactly one job result: a job whose steps all succeed reports success
      once, and a failing step makes the job report failure with that step's
      message as its only job result. */
  lemma OneJobResult(jobId: nat, steps: seq<StepSpec>, environ: seq<string>, process: Process)
    ensures var r := JobTrace(jobId, steps, 0, environ, process);
      && |r| >= 1
      && (forall j :: 0 <= j < |r| ==> (r[j].JobReport? <==> j == |r| - 1))
      && r[|r| - 1].job.jobId == jobId
      && (r[|r| - 1].job.status == Success <==> forall j :: 0 <= j < |steps| ==> !StepFails(j + 1, steps[j], environ, process))
  {
    JobTraceEnd(jobId, steps, environ, process);
    var k := FirstFailure(steps, 0, environ, process);
    if k < |steps| {
      assert StepFails(k + 1, steps[k], environ, process);
    }
  }

  /** A step repeated later in a job may fail where it first succeeded, as
      `mkdir d` does when run twice: the second run is then the job's first
      failure, and the job reports the failure of step 2. */
  lemma RepeatedStepMayFail(jobId: nat, s: StepSpec, environ: seq<string>)
    requires s.run != ""
    ensures var process: Process := (id, c, d, e) => if id == 1 then Exited("", "") else ExitError(1, "exit status 1", "", "");
      && FirstFailure([s, s], 0, environ, process) == 1
      && JobTrace(jobId, [s, s], 0, environ, process)[|JobTrace(jobId, [s, s], 0, environ, process)| - 1]
         == JobReport(JobResult(jobId, Failed, "exit status 1"))
  {
    var process: Process := (id, c, d, e) => if id == 1 then Exited("", "") else ExitError(1, "exit status 1", "", "");
    assert !StepFails(1, s, environ, process);
    assert StepFails(2, s, environ, process);
    assert FirstFailure([s, s], 1, environ, process) == 1;
  }

  /** One step of the job trace, in the terms `ExecuteStep` promises. */
  lemma JobTraceUnfold(jobId: nat, steps: seq<StepSpec>, i: nat, environ: seq<string>, process: Process,
                       err: Option<string>, stepReports: seq<Report>)
    requires i < |steps|
    requires steps[i].run == "" ==> err == Some(NoCommand) && stepReports == []
    requires steps[i].run != "" ==>
      stepReports == [StepReport(Started(i + 1)), StepReport(Finished(i + 1, Outcome(i + 1, steps[i], environ, process)))]
    requires steps[i].run != "" ==> err == StepError(Outcome(i + 1, steps[i], environ, process))
    ensures err.Some? ==> JobTrace(jobId, steps, i, environ, process) == stepReports + [JobReport(JobResult(jobId, Failed, err.value))]
    ensures err.None? ==> JobTrace(jobId, steps, i, environ, process) == stepReports + JobTrace(jobId, steps, i + 1, environ, process)
  {
  }

  /** executeJob: the steps run in order with ids 1, 2, ...; the first error
      is reported as the job's failure and ends the job, otherwise the job
      reports success. */
  method ExecuteJob(assignment: JobAssignment, environ: seq<string>, process: Process)
    returns (reports: seq<Report>)
    ensures reports == JobTrace(assignment.jobId, assignment.jobSpec.steps, 0, environ, process)
  {
    var jobId, steps := assignment.jobId, assignment.jobSpec.steps;
    reports := [];
    var i, failed := 0, false;
    while i < |steps| && !failed
      invariant 0 <= i <= |steps|
      invariant !failed ==> reports + JobTrace(jobId, steps, i, environ, process) == JobTrace(jobId, steps, 0, environ, process)
      invariant failed ==> reports == JobTrace(jobId, steps, 0, environ, process)
      decreases |steps| - i
    {
      var err, stepReports := ExecuteStep(i + 1, steps[i], environ, process);
      JobTraceUnfold(jobId, steps, i, environ, process, err, stepReports);
      if err.Some? {
        var failure := [JobReport(JobResult(jobId, Failed, err.value))];
        AppendAssoc(reports, stepReports, failure);
        reports := reports + stepReports + failure;
        failed := true;
      } else {
        AppendAssoc(reports, stepReports, JobTrace(jobId, steps, i + 1, environ, process));
        reports := reports + stepReports;
      }
      i := i + 1;
    }
    if !failed {
      reports := reports + [JobReport(JobResult(jobId, Success, ""))];
    }
  }
}
