/** The workflow service: workflows owned by users, runs of a workflow, the
    jobs and steps a run is planned into, and the log lines a simulated
    execution writes. The relational store is a set of tables held in
    memory; a record's id is its 1-based position in its table, as an
    auto-increment key is when nothing is deleted. The YAML parser is a
    function the service is created with. */
module Workflow {
  import opened Common

  // ---------------------------------------------------------------------
  // The parsed workflow specification (only the fields the service reads;
  // jobs and steps are Common's).

  datatype WorkflowSpec = WorkflowSpec(jobs: map<string, JobSpec>)

  /** What the YAML parser makes of a text. */
  datatype ParseResult = Parsed(spec: WorkflowSpec) | ParseError(message: string)

  // ---------------------------------------------------------------------
  // Records of the store.

  datatype Workflow = Workflow(userId: nat, name: string, description: string, yaml: string, isActive: bool)

  datatype Run = Run(workflowId: nat, userId: nat, status: Status, startedAt: Option<Time>, finishedAt: Option<Time>)

  datatype Job = Job(runId: nat, name: string, status: Status, startedAt: Option<Time>, finishedAt: Option<Time>)

  datatype Step = Step(jobId: nat, name: string, command: string, status: Status,
                       startedAt: Option<Time>, finishedAt: Option<Time>)

  datatype Log = Log(stepId: nat, content: string, level: string)

  /** The store's error for a lookup that matches no record. */
  const NotFound: string := "record not found"

  // ---------------------------------------------------------------------
  // Updating a workflow.

  /** The partial update applied by UpdateWorkflow: an empty string or an
      absent flag leaves the stored value in place. */
  function Merge(w: Workflow, name: string, description: string, yaml: string, isActive: Option<bool>): (m: Workflow)
    ensures m.userId == w.userId
    ensures m.name == if name == "" then w.name else name
    ensures m.description == if description == "" then w.description else description
    ensures m.yaml == if yaml == "" then w.yaml else yaml
    ensures m.isActive == if isActive.None? then w.isActive else isActive.value
  {
    var w1 := if name != "" then w.(name := name) else w;
    var w2 := if description != "" then w1.(description := description) else w1;
    var w3 := if yaml != "" then w2.(yaml := yaml) else w2;
    if isActive.Some? then w3.(isActive := isActive.value) else w3
  }

  /** The later of two partial values: `b` when it is given, otherwise `a`. */
  function Later(a: string, b: string): string {
    if b != "" then b else a
  }

  function LaterFlag(a: Option<bool>, b: Option<bool>): Option<bool> {
    if b.Some? then b else a
  }

  /** An update that gives nothing changes nothing. */
  lemma MergeNothing(w: Workflow)
    ensures Merge(w, "", "", "", None) == w
  {
  }

  /** Two successive updates are one update with, field by field, the later
      of the two given values; in particular repeating an update changes
      nothing more. */
  lemma MergeTwice(w: Workflow, n1: string, d1: string, y1: string, a1: Option<bool>,
                   n2: string, d2: string, y2: string, a2: Option<bool>)
    ensures Merge(Merge(w, n1, d1, y1, a1), n2, d2, y2, a2) ==
      Merge(w, Later(n1, n2), Later(d1, d2), Later(y1, y2), LaterFlag(a1, a2))
    ensures Merge(Merge(w, n1, d1, y1, a1), n1, d1, y1, a1) == Merge(w, n1, d1, y1, a1)
  {
  }

  // ---------------------------------------------------------------------
  // Cancelling a run.

  predicate Cancellable(s: Status) {
    s == Pending || s == Running
  }

  const CannotCancel: string := "run cannot be cancelled in current status: "

  /** CancelRun's transition: a pending or running run becomes cancelled and
      finished at `now`; any other status is refused with a message naming
      it. */
  function Cancel(r: Run, now: Time): (res: Result<Run>)
    ensures res.Ok? <==> Cancellable(r.status)
    ensures res.Ok? ==> res.value == r.(status := Cancelled, finishedAt := Some(now))
    ensures res.Err? ==> res.msg == CannotCancel + StatusName(r.status)
  {
    if r.status == Running || r.status == Pending then Ok(r.(status := Cancelled, finishedAt := Some(now)))
    else Err(CannotCancel + StatusName(r.status))
  }

  /** A cancelled run cannot be cancelled again, and cancelling leaves the
      owner, the workflow and the start time alone. */
  lemma CancelOnce(r: Run, now: Time, later: Time)
    requires Cancel(r, now).Ok?
    ensures var c := Cancel(r, now).value;
      && c.workflowId == r.workflowId && c.userId == r.userId && c.startedAt == r.startedAt
      && Cancel(c, later) == Err(CannotCancel + "cancelled")
  {
  }

  /** A finished run (success, failed, cancelled) is never cancellable: the
      refusal names its status. */
  lemma FinishedRunsStay(r: Run, now: Time)
    requires r.status in {Success, Failed, Cancelled}
    ensures Cancel(r, now) == Err(CannotCancel + StatusName(r.status))
  {
  }

  // ---------------------------------------------------------------------
  // Planning a run.

  const StepPrefix: string := "Step "

  /** The stored name of the step at 0-based position i: its own name, or
      "Step <i+1>" when it has none. */
  function StepName(name: string, i: nat): string {
    if name == "" then StepPrefix + NatToString(i + 1) else name
  }

  /** A default name is "Step " followed by the step's 1-based position,
      and reading that number back gives the position. */
  lemma DefaultStepName(i: nat)
    ensures var n := StepName("", i);
      && n[..|StepPrefix|] == StepPrefix
      && (forall c :: 0 <= c < |n| - |StepPrefix| ==> IsDigit(n[|StepPrefix|..][c]))
      && StringToNat(n[|StepPrefix|..]) == i + 1
  {
    var n := StepName("", i);
    assert n[|StepPrefix|..] == NatToString(i + 1);
    NatToStringRoundTrip(i + 1);
  }

  /** Unnamed steps at different positions get different names. */
  lemma DefaultStepNamesDistinct(i: nat, j: nat)
    requires i != j
    ensures StepName("", i) != StepName("", j)
  {
    DefaultStepName(i);
    DefaultStepName(j);
  }

  /** The pending step records of one job, one per step spec, in spec order. */
  function StepRecords(jobId: nat, specs: seq<StepSpec>): (r: seq<Step>)
    ensures |r| == |specs|
    decreases |specs|
  {
    if specs == [] then []
    else
      var n := |specs| - 1;
      StepRecords(jobId, specs[..n]) + [StepRecord(jobId, specs[n], n)]
  }

  /** The pending record of the step at 0-based position i of a job. */
  function StepRecord(jobId: nat, spec: StepSpec, i: nat): Step {
    Step(jobId, StepName(spec.name, i), spec.run, Pending, None, None)
  }

  /** The step records of a job hold the spec's steps in spec order: each
      keeps the spec's command, is pending, belongs to the job, and keeps
      the spec's name when it has one. */
  lemma {:induction false} StepRecordsFollowSpec(jobId: nat, specs: seq<StepSpec>, i: nat)
    requires i < |specs|
    ensures var s := StepRecords(jobId, specs)[i];
      && s.jobId == jobId && s.command == specs[i].run && s.status == Pending
      && s.startedAt.None? && s.finishedAt.None?
      && (specs[i].name != "" ==> s.name == specs[i].name)
      && (specs[i].name == "" ==> s.name == StepPrefix + NatToString(i + 1))
    decreases |specs|
  {
    var n := |specs| - 1;
    if i < n {
      StepRecordsFollowSpec(jobId, specs[..n], i);
    }
  }

  /** The pending job records of a run, one per job name, in creation order. */
  function JobRecords(runId: nat, order: seq<string>): (r: seq<Job>)
    ensures |r| == |order|
    ensures forall k :: 0 <= k < |r| ==> r[k] == Job(runId, order[k], Pending, None, None)
  {
    seq(|order|, k requires 0 <= k < |order| => Job(runId, order[k], Pending, None, None))
  }

  /** `order` lists every job name of the spec exactly once. */
  predicate IsJobOrder(order: seq<string>, jobs: map<string, JobSpec>) {
    && (forall a, b :: 0 <= a < b < |order| ==> order[a] != order[b])
    && (forall k :: 0 <= k < |order| ==> order[k] in jobs)
    && (forall name :: name in jobs ==> name in order)
  }

  /** The specs of the jobs named by `order`, in that order. */
  function JobSpecs(jobs: map<string, JobSpec>, order: seq<string>): (r: seq<JobSpec>)
    requires forall k :: 0 <= k < |order| ==> order[k] in jobs
    ensures |r| == |order|
    ensures forall k :: 0 <= k < |order| ==> r[k] == jobs[order[k]]
  {
    seq(|order|, k requires 0 <= k < |order| => jobs[order[k]])
  }

  /** The step records of all jobs, job after job, where the job at
      position k of `specs` has id firstJob + k. */
  function PlannedSteps(specs: seq<JobSpec>, firstJob: nat): seq<Step>
    decreases |specs|
  {
    if specs == [] then []
    else
      var n := |specs| - 1;
      PlannedSteps(specs[..n], firstJob) + StepRecords(firstJob + n, specs[n].steps)
  }

  /** The steps of `steps` that belong to job `jobId`, in order. */
  function StepsOf(steps: seq<Step>, jobId: nat): seq<Step>
    decreases |steps|
  {
    if steps == [] then []
    else
      var n := |steps| - 1;
      StepsOf(steps[..n], jobId) + (if steps[n].jobId == jobId then [steps[n]] else [])
  }

  /** The steps of a job are the steps with its id. */
  lemma {:induction false} StepsOfMembers(steps: seq<Step>, jobId: nat)
    ensures forall s :: s in StepsOf(steps, jobId) <==> s in steps && s.jobId == jobId
    decreases |steps|
  {
    if steps != [] {
      var n := |steps| - 1;
      StepsOfMembers(steps[..n], jobId);
      assert steps == steps[..n] + [steps[n]];
    }
  }

  lemma {:induction false} StepsOfAppend(a: seq<Step>, b: seq<Step>, jobId: nat)
    ensures StepsOf(a + b, jobId) == StepsOf(a, jobId) + StepsOf(b, jobId)
    decreases |b|
  {
    if b == [] {
      assert a + b == a;
    } else {
      var n := |b| - 1;
      assert (a + b)[..|a + b| - 1] == a + b[..n];
      StepsOfAppend(a, b[..n], jobId);
    }
  }

  /** A job's own records all pass the filter for its id. */
  lemma {:induction false} StepsOfOwnRecords(jobId: nat, specs: seq<StepSpec>)
    ensures StepsOf(StepRecords(jobId, specs), jobId) == StepRecords(jobId, specs)
    decreases |specs|
  {
    if specs != [] {
      var n := |specs| - 1;
      var r := StepRecords(jobId, specs);
      assert r[..n] == StepRecords(jobId, specs[..n]);
      StepsOfOwnRecords(jobId, specs[..n]);
    }
  }

  /** None of a job's records passes the filter for another id. */
  lemma {:induction false} StepsOfOtherRecords(jobId: nat, specs: seq<StepSpec>, other: nat)
    requires other != jobId
    ensures StepsOf(StepRecords(jobId, specs), other) == []
    decreases |specs|
  {
    if specs != [] {
      var n := |specs| - 1;
      var r := StepRecords(jobId, specs);
      assert r[..n] == StepRecords(jobId, specs[..n]);
      StepsOfOtherRecords(jobId, specs[..n], other);
    }
  }

  /** The steps stored for the job at position k are exactly that job's
      spec steps, in spec order. */
  lemma {:induction false} PlannedStepsByJob(specs: seq<JobSpec>, firstJob: nat, k: nat)
    requires k < |specs|
    ensures StepsOf(PlannedSteps(specs, firstJob), firstJob + k) == StepRecords(firstJob + k, specs[k].steps)
    decreases |specs|
  {
    var n := |specs| - 1;
    if k < n {
      var init := specs[..n];
      assert init[k] == specs[k];
      PlannedStepsByJob(init, firstJob, k);
      StepsOfEarlierJob(specs, firstJob, k);
    } else {
      StepsOfLastJob(specs, firstJob, k);
    }
  }

  /** Adding a job's steps leaves the steps of the jobs before it alone. */
  lemma {:induction false} StepsOfEarlierJob(specs: seq<JobSpec>, firstJob: nat, k: nat)
    requires k < |specs| - 1
    ensures StepsOf(PlannedSteps(specs, firstJob), firstJob + k) == StepsOf(PlannedSteps(specs[..|specs| - 1], firstJob), firstJob + k)
  {
    var n := |specs| - 1;
    PlannedStepsSnoc(specs, firstJob, n);
    StepsOfOtherRecords(firstJob + n, specs[n].steps, firstJob + k);
    StepsOfJoinFirst(PlannedSteps(specs[..n], firstJob), StepRecords(firstJob + n, specs[n].steps), firstJob + k);
  }

  /** The steps of the job added last are its spec's steps. */
  lemma {:induction false} StepsOfLastJob(specs: seq<JobSpec>, firstJob: nat, k: nat)
    requires k == |specs| - 1
    ensures StepsOf(PlannedSteps(specs, firstJob), firstJob + k) == StepRecords(firstJob + k, specs[k].steps)
  {
    PlannedStepsSnoc(specs, firstJob, k);
    PlannedStepsNone(specs[..k], firstJob, firstJob + k);
    StepsOfJoinRecords(PlannedSteps(specs[..k], firstJob), firstJob + k, specs[k].steps);
  }

  /** Appending a job's records after steps of other jobs: the job's steps
      are its records. */
  lemma StepsOfJoinRecords(init: seq<Step>, jobId: nat, specs: seq<StepSpec>)
    requires StepsOf(init, jobId) == []
    ensures StepsOf(init + StepRecords(jobId, specs), jobId) == StepRecords(jobId, specs)
  {
    StepsOfOwnRecords(jobId, specs);
    StepsOfJoinLast(init, StepRecords(jobId, specs), jobId);
  }

  /** The planned steps end with the records of the job added last. */
  lemma PlannedStepsSnoc(specs: seq<JobSpec>, firstJob: nat, n: nat)
    requires n == |specs| - 1
    ensures PlannedSteps(specs, firstJob) == PlannedSteps(specs[..n], firstJob) + StepRecords(firstJob + n, specs[n].steps)
  {
  }

  /** Filtering a concatenation whose second part contributes nothing. */
  lemma StepsOfJoinFirst(init: seq<Step>, last: seq<Step>, id: nat)
    requires StepsOf(last, id) == []
    ensures StepsOf(init + last, id) == StepsOf(init, id)
  {
    StepsOfAppend(init, last, id);
    assert StepsOf(init, id) + [] == StepsOf(init, id);
  }

  /** Filtering a concatenation whose first part contributes nothing. */
  lemma StepsOfJoinLast(init: seq<Step>, last: seq<Step>, id: nat)
    requires StepsOf(init, id) == []
    ensures StepsOf(init + last, id) == StepsOf(last, id)
  {
    StepsOfAppend(init, last, id);
    assert [] + StepsOf(last, id) == StepsOf(last, id);
  }

  /** Planned steps belong to the planned jobs and are pending. */
  lemma {:induction false} PlannedStepsRange(specs: seq<JobSpec>, firstJob: nat)
    ensures forall s :: s in PlannedSteps(specs, firstJob) ==>
      firstJob <= s.jobId < firstJob + |specs| && s.status == Pending
    decreases |specs|
  {
    if specs != [] {
      var n := |specs| - 1;
      PlannedStepsRange(specs[..n], firstJob);
      StepRecordsRange(firstJob + n, specs[n].steps);
    }
  }

  /** The records of one job carry its id and are pending. */
  lemma {:induction false} StepRecordsRange(jobId: nat, specs: seq<StepSpec>)
    ensures forall s :: s in StepRecords(jobId, specs) ==> s.jobId == jobId && s.status == Pending
    decreases |specs|
  {
    if specs != [] {
      StepRecordsRange(jobId, specs[..|specs| - 1]);
    }
  }

  /** No planned step belongs to a job id past the planned ones. */
  lemma {:induction false} PlannedStepsNone(specs: seq<JobSpec>, firstJob: nat, jobId: nat)
    requires jobId >= firstJob + |specs|
    ensures StepsOf(PlannedSteps(specs, firstJob), jobId) == []
  {
    PlannedStepsRange(specs, firstJob);
    StepsOfNone(PlannedSteps(specs, firstJob), jobId);
  }

  /** No step passes the filter for an id none of them carries. */
  lemma {:induction false} StepsOfNone(steps: seq<Step>, jobId: nat)
    requires forall s :: s in steps ==> s.jobId != jobId
    ensures StepsOf(steps, jobId) == []
    decreases |steps|
  {
    if steps != [] {
      var n := |steps| - 1;
      assert forall s :: s in steps[..n] ==> s in steps;
      StepsOfNone(steps[..n], jobId);
    }
  }

  // ---------------------------------------------------------------------
  // Executing a run.

  const Executing: string := "Executing: "
  const Completed: string := "Step completed successfully"
  const Info: string := "info"

  /** The two log lines written for a step: the command, then completion. */
  function StepLog(stepId: nat, command: string): seq<Log> {
    [Log(stepId, Executing + command, Info), Log(stepId, Completed, Info)]
  }

  /** The log lines written for the steps in `order`, step after step. */
  function StepLogs(order: seq<nat>, steps: seq<Step>): seq<Log>
    requires forall k :: 0 <= k < |order| ==> 1 <= order[k] <= |steps|
    decreases |order|
  {
    if order == [] then []
    else
      var n := |order| - 1;
      StepLogs(order[..n], steps) + StepLog(order[n], steps[order[n] - 1].command)
  }

  /** Two lines per executed step, in execution order: line 2k announces
      the command of the k-th step executed and line 2k + 1 reports that it
      completed, both at level "info". */
  lemma {:induction false} StepLogsLayout(order: seq<nat>, steps: seq<Step>, k: nat)
    requires forall i :: 0 <= i < |order| ==> 1 <= order[i] <= |steps|
    requires k < |order|
    ensures |StepLogs(order, steps)| == 2 * |order|
    ensures StepLogs(order, steps)[2 * k] == Log(order[k], Executing + steps[order[k] - 1].command, Info)
    ensures StepLogs(order, steps)[2 * k + 1] == Log(order[k], Completed, Info)
    decreases |order|
  {
    var n := |order| - 1;
    StepLogsLength(order[..n], steps);
    if k < n {
      StepLogsLayout(order[..n], steps, k);
      assert order[..n][k] == order[k];
    }
  }

  lemma {:induction false} StepLogsLength(order: seq<nat>, steps: seq<Step>)
    requires forall i :: 0 <= i < |order| ==> 1 <= order[i] <= |steps|
    ensures |StepLogs(order, steps)| == 2 * |order|
    decreases |order|
  {
    if order != [] {
      StepLogsLength(order[..|order| - 1], steps);
    }
  }

  /** The record of a step after execution: success, started and finished. */
  function Ran(s: Step, now: Time): Step {
    s.(status := Success, startedAt := Some(now), finishedAt := Some(now))
  }

  /** The record of a job after execution. */
  function JobRan(j: Job, now: Time): Job {
    j.(status := Success, startedAt := Some(now), finishedAt := Some(now))
  }

  /** The record of a run after execution, written from the copy the
      execution started with. */
  function RunRan(snapshot: Run, now: Time): Run {
    snapshot.(status := Success, startedAt := Some(now), finishedAt := Some(now))
  }

  /** The step table after the steps with the ids in `order` were executed
      one after the other. */
  function RanSteps(steps: seq<Step>, order: seq<nat>, now: Time): (r: seq<Step>)
    requires forall i :: 0 <= i < |order| ==> 1 <= order[i] <= |steps|
    ensures |r| == |steps|
    decreases |order|
  {
    if order == [] then steps
    else
      var t, k := RanSteps(steps, order[..|order| - 1], now), order[|order| - 1];
      t[k - 1 := Ran(t[k - 1], now)]
  }

  /** After the execution exactly the listed steps have been run, each from
      its record before the execution; every other step is untouched. */
  lemma {:induction false} RanStepsAt(steps: seq<Step>, order: seq<nat>, now: Time, i: nat)
    requires forall j :: 0 <= j < |order| ==> 1 <= order[j] <= |steps|
    requires i < |steps|
    ensures RanSteps(steps, order, now)[i] == if i + 1 in order then Ran(steps[i], now) else steps[i]
    decreases |order|
  {
    if order != [] {
      var init := order[..|order| - 1];
      RanStepsAt(steps, init, now, i);
      assert order == init + [order[|order| - 1]];
    }
  }

  /** Two executions in a row are one execution of both lists. */
  lemma {:induction false} RanStepsAppend(steps: seq<Step>, a: seq<nat>, b: seq<nat>, now: Time)
    requires forall j :: 0 <= j < |a| ==> 1 <= a[j] <= |steps|
    requires forall j :: 0 <= j < |b| ==> 1 <= b[j] <= |steps|
    ensures RanSteps(RanSteps(steps, a, now), b, now) == RanSteps(steps, a + b, now)
    decreases |b|
  {
    if b == [] {
      assert a + b == a;
    } else {
      var init := b[..|b| - 1];
      var ab := a + b;
      assert ab[..|ab| - 1] == a + init && ab[|ab| - 1] == b[|b| - 1];
      RanStepsAppend(steps, a, init, now);
    }
  }

  /** Executing steps leaves every command and every job link as it was. */
  lemma RanStepsCommands(steps: seq<Step>, order: seq<nat>, now: Time)
    requires forall j :: 0 <= j < |order| ==> 1 <= order[j] <= |steps|
    ensures forall i :: 0 <= i < |steps| ==> RanSteps(steps, order, now)[i].command == steps[i].command
    ensures forall i :: 0 <= i < |steps| ==> RanSteps(steps, order, now)[i].jobId == steps[i].jobId
  {
    forall i | 0 <= i < |steps|
      ensures RanSteps(steps, order, now)[i].command == steps[i].command
      ensures RanSteps(steps, order, now)[i].jobId == steps[i].jobId
    {
      RanStepsAt(steps, order, now, i);
    }
  }

  /** The job table after the jobs with the ids in `order` were executed
      one after the other. */
  function RanJobs(jobs: seq<Job>, order: seq<nat>, now: Time): (r: seq<Job>)
    requires forall i :: 0 <= i < |order| ==> 1 <= order[i] <= |jobs|
    ensures |r| == |jobs|
    decreases |order|
  {
    if order == [] then jobs
    else
      var t, k := RanJobs(jobs, order[..|order| - 1], now), order[|order| - 1];
      t[k - 1 := JobRan(t[k - 1], now)]
  }

  /** After the execution exactly the listed jobs have run; every other job
      is untouched. */
  lemma {:induction false} RanJobsAt(jobs: seq<Job>, order: seq<nat>, now: Time, i: nat)
    requires forall j :: 0 <= j < |order| ==> 1 <= order[j] <= |jobs|
    requires i < |jobs|
    ensures RanJobs(jobs, order, now)[i] == if i + 1 in order then JobRan(jobs[i], now) else jobs[i]
    decreases |order|
  {
    if order != [] {
      var init := order[..|order| - 1];
      RanJobsAt(jobs, init, now, i);
      assert order == init + [order[|order| - 1]];
    }
  }

  /** One more executed job. */
  lemma RanJobsSnoc(jobs: seq<Job>, order: seq<nat>, j: nat, now: Time)
    requires forall i :: 0 <= i < |order| ==> 1 <= order[i] <= |jobs|
    requires 1 <= j <= |jobs|
    ensures var t := RanJobs(jobs, order, now);
      RanJobs(jobs, order + [j], now) == t[j - 1 := JobRan(t[j - 1], now)]
  {
    var o := order + [j];
    assert o[..|o| - 1] == order && o[|o| - 1] == j;
  }

  /** One more executed step. */
  lemma RanStepsSnoc(steps: seq<Step>, order: seq<nat>, k: nat, now: Time)
    requires forall i :: 0 <= i < |order| ==> 1 <= order[i] <= |steps|
    requires 1 <= k <= |steps|
    ensures var t := RanSteps(steps, order, now);
      RanSteps(steps, order + [k], now) == t[k - 1 := Ran(t[k - 1], now)]
  {
    var o := order + [k];
    assert o[..|o| - 1] == order && o[|o| - 1] == k;
  }

  /** One more executed step adds its two log lines at the end. */
  lemma StepLogsSnoc(order: seq<nat>, k: nat, steps: seq<Step>)
    requires forall i :: 0 <= i < |order| ==> 1 <= order[i] <= |steps|
    requires 1 <= k <= |steps|
    ensures StepLogs(order + [k], steps) == StepLogs(order, steps) + StepLog(k, steps[k - 1].command)
  {
    var o := order + [k];
    assert o[..|o| - 1] == order && o[|o| - 1] == k;
  }

  /** The logs of two executions in a row are the logs of the first, then
      those of the second. */
  lemma {:induction false} StepLogsAppend(a: seq<nat>, b: seq<nat>, steps: seq<Step>)
    requires forall i :: 0 <= i < |a| ==> 1 <= a[i] <= |steps|
    requires forall i :: 0 <= i < |b| ==> 1 <= b[i] <= |steps|
    ensures StepLogs(a + b, steps) == StepLogs(a, steps) + StepLogs(b, steps)
    decreases |b|
  {
    if b == [] {
      assert a + b == a;
    } else {
      var init, k := b[..|b| - 1], b[|b| - 1];
      SplitLast(b);
      AppendAssoc(a, init, [k]);
      StepLogsSnoc(a + init, k, steps);
      StepLogsAppend(a, init, steps);
      StepLogsSnoc(init, k, steps);
      AppendAssoc(StepLogs(a, steps), StepLogs(init, steps), StepLog(k, steps[k - 1].command));
    }
  }

  /** The logs depend only on the commands of the executed steps. */
  lemma {:induction false} StepLogsSameCommands(order: seq<nat>, s: seq<Step>, t: seq<Step>)
    requires |s| == |t|
    requires forall i :: 0 <= i < |order| ==> 1 <= order[i] <= |s|
    requires forall k :: 0 <= k < |s| ==> s[k].command == t[k].command
    ensures StepLogs(order, s) == StepLogs(order, t)
    decreases |order|
  {
    if order != [] {
      StepLogsSameCommands(order[..|order| - 1], s, t);
    }
  }

  /** One more job name adds that job's record at the end. */
  lemma JobRecordsSnoc(runId: nat, order: seq<string>, name: string)
    ensures JobRecords(runId, order + [name]) == JobRecords(runId, order) + [Job(runId, name, Pending, None, None)]
  {
  }

  /** One more step spec adds its record at the end. */
  lemma StepRecordsSnoc(jobId: nat, specs: seq<StepSpec>, i: nat)
    requires i < |specs|
    ensures StepRecords(jobId, specs[..i + 1]) == StepRecords(jobId, specs[..i]) + [StepRecord(jobId, specs[i], i)]
  {
    var p := specs[..i + 1];
    assert p[..|p| - 1] == specs[..i] && p[|p| - 1] == specs[i];
  }

  /** One more job adds its step records, with the next job id, at the end. */
  lemma PlannedStepsNext(jobs: map<string, JobSpec>, order: seq<string>, name: string, firstJob: nat, jobId: nat)
    requires forall k :: 0 <= k < |order| ==> order[k] in jobs
    requires name in jobs && jobId == firstJob + |order|
    ensures forall k :: 0 <= k < |order + [name]| ==> (order + [name])[k] in jobs
    ensures PlannedSteps(JobSpecs(jobs, order + [name]), firstJob) ==
      PlannedSteps(JobSpecs(jobs, order), firstJob) + StepRecords(jobId, jobs[name].steps)
  {
    var specs := JobSpecs(jobs, order + [name]);
    assert specs[..|order|] == JobSpecs(jobs, order);
    assert specs[|order|] == jobs[name];
    PlannedStepsSnoc(specs, firstJob, |order|);
  }

  /** The step with this id exists and belongs to the job with this id. */
  predicate StepOfJob(steps: seq<Step>, stepId: nat, jobId: nat) {
    1 <= stepId <= |steps| && steps[stepId - 1].jobId == jobId
  }

  /** The job with this id exists and belongs to the run with this id. */
  predicate InRun(jobs: seq<Job>, jobId: nat, runId: nat) {
    1 <= jobId <= |jobs| && jobs[jobId - 1].runId == runId
  }

  /** The bookkeeping of a loop over the elements of a set in an arbitrary
      order: taking one more element keeps the visited order free of
      repetitions and the visited and remaining elements together the whole
      set. */
  lemma WorklistStep(order: seq<nat>, remaining: set<nat>, all: set<nat>, x: nat)
    requires x in remaining && remaining <= all
    requires forall i :: 0 <= i < |order| ==> order[i] in all && order[i] !in remaining
    requires forall y :: y in all ==> y in remaining || y in order
    requires forall a, b :: 0 <= a < b < |order| ==> order[a] != order[b]
    ensures x !in order
    ensures var o, r := order + [x], remaining - {x};
      && (forall i :: 0 <= i < |o| ==> o[i] in all && o[i] !in r)
      && (forall y :: y in all ==> y in r || y in o)
      && (forall a, b :: 0 <= a < b < |o| ==> o[a] != o[b])
  {
  }

  /** The bookkeeping of one iteration of executeRun's job loop: the steps
      of the job just executed are new to the step order and together with
      it make up the steps of the jobs executed so far. */
  lemma JobOrderStep(steps0: seq<Step>, before: seq<Step>, stepOrder: seq<nat>, jobOrder: seq<nat>, order: seq<nat>, j: nat)
    requires |before| == |steps0|
    requires forall k :: 0 <= k < |steps0| ==> before[k].jobId == steps0[k].jobId
    requires j !in jobOrder
    requires forall k :: k in stepOrder <==> 1 <= k <= |steps0| && steps0[k - 1].jobId in jobOrder
    requires forall a, b :: 0 <= a < b < |stepOrder| ==> stepOrder[a] != stepOrder[b]
    requires forall k :: k in order <==> StepOfJob(before, k, j)
    requires forall a, b :: 0 <= a < b < |order| ==> order[a] != order[b]
    requires forall i :: 0 <= i < |stepOrder| ==> 1 <= stepOrder[i] <= |steps0|
    requires forall i :: 0 <= i < |order| ==> 1 <= order[i] <= |steps0|
    ensures forall i :: 0 <= i < |stepOrder + order| ==> 1 <= (stepOrder + order)[i] <= |steps0|
    ensures forall k :: k in stepOrder + order <==> 1 <= k <= |steps0| && steps0[k - 1].jobId in jobOrder + [j]
    ensures forall a, b :: 0 <= a < b < |stepOrder + order| ==> (stepOrder + order)[a] != (stepOrder + order)[b]
  {
    var all := stepOrder + order;
    forall a, b | 0 <= a < b < |all| ensures all[a] != all[b] {
      if a < |stepOrder| && b >= |stepOrder| {
        assert all[a] in stepOrder && all[b] in order;
      }
    }
  }

  /** What executeRun's job loop has done after the jobs in `jobOrder`
      (taken from the run's jobs `mine`, with `remaining` still to go) have
      been executed: those jobs and exactly their steps have run, each step
      once, and the logs of those steps have been appended in the order the
      steps ran. */
  ghost predicate RunProgress(jobs0: seq<Job>, steps0: seq<Step>, logs0: seq<Log>, runId: nat,
                              mine: set<nat>, remaining: set<nat>, jobOrder: seq<nat>, stepOrder: seq<nat>,
                              perJob: seq<seq<nat>>, jobs: seq<Job>, steps: seq<Step>, logs: seq<Log>, now: Time)
  {
    && JobProgress(jobs0, runId, mine, remaining, jobOrder, jobs, now)
    && StepProgress(steps0, logs0, jobOrder, stepOrder, steps, logs, now)
    && ByJob(steps0, jobOrder, stepOrder, perJob)
  }

  /** The order of the steps is job by job: the steps of the i-th job
      executed, exactly those, followed by the steps of the next one. */
  ghost predicate ByJob(steps0: seq<Step>, jobOrder: seq<nat>, stepOrder: seq<nat>, perJob: seq<seq<nat>>) {
    && |perJob| == |jobOrder|
    && stepOrder == Concat(perJob)
    && (forall i, k :: 0 <= i < |perJob| ==> (k in perJob[i] <==> StepOfJob(steps0, k, jobOrder[i])))
  }

  /** Appending the steps of one more job, on a step table whose job links
      are those of the original, keeps the order job by job. */
  lemma ByJobStep(steps0: seq<Step>, jobOrder: seq<nat>, stepOrder: seq<nat>, perJob: seq<seq<nat>>,
                  steps: seq<Step>, j: nat, order: seq<nat>)
    requires ByJob(steps0, jobOrder, stepOrder, perJob)
    requires |steps| == |steps0| && forall k :: 0 <= k < |steps0| ==> steps[k].jobId == steps0[k].jobId
    requires forall k :: k in order <==> StepOfJob(steps, k, j)
    ensures ByJob(steps0, jobOrder + [j], stepOrder + order, perJob + [order])
  {
    ConcatSnoc(perJob, order);
    var ps, js := perJob + [order], jobOrder + [j];
    forall i, k | 0 <= i < |ps| ensures k in ps[i] <==> StepOfJob(steps0, k, js[i]) {
      if i < |perJob| {
        assert ps[i] == perJob[i] && js[i] == jobOrder[i];
      } else {
        assert ps[i] == order && js[i] == j;
      }
    }
  }

  /** The jobs part of RunProgress: the jobs of the run done so far, each
      once, have run, and they and the remaining ones are all of the run's. */
  ghost predicate JobProgress(jobs0: seq<Job>, runId: nat, mine: set<nat>, remaining: set<nat>,
                              jobOrder: seq<nat>, jobs: seq<Job>, now: Time)
  {
    && remaining <= mine
    && (forall j :: j in mine <==> InRun(jobs0, j, runId))
    && (forall i :: 0 <= i < |jobOrder| ==> 1 <= jobOrder[i] <= |jobs0|)
    && (forall i :: 0 <= i < |jobOrder| ==> jobOrder[i] in mine && jobOrder[i] !in remaining)
    && (forall j :: j in mine ==> j in remaining || j in jobOrder)
    && (forall a, b :: 0 <= a < b < |jobOrder| ==> jobOrder[a] != jobOrder[b])
    && jobs == RanJobs(jobs0, jobOrder, now)
  }

  /** The steps part of RunProgress: exactly the steps of the jobs done so
      far have run, each once, and their logs were appended in that order. */
  ghost predicate StepProgress(steps0: seq<Step>, logs0: seq<Log>, jobOrder: seq<nat>, stepOrder: seq<nat>,
                               steps: seq<Step>, logs: seq<Log>, now: Time)
  {
    && (forall i :: 0 <= i < |stepOrder| ==> 1 <= stepOrder[i] <= |steps0|)
    && (forall k :: k in stepOrder <==> 1 <= k <= |steps0| && steps0[k - 1].jobId in jobOrder)
    && (forall a, b :: 0 <= a < b < |stepOrder| ==> stepOrder[a] != stepOrder[b])
    && steps == RanSteps(steps0, stepOrder, now)
    && logs == logs0 + StepLogs(stepOrder, steps0)
  }

  /** Executing one more job of the run keeps JobProgress. */
  lemma JobProgressStep(jobs0: seq<Job>, runId: nat, mine: set<nat>, remaining: set<nat>,
                        jobOrder: seq<nat>, jobs: seq<Job>, now: Time, j: nat, jobs': seq<Job>)
    requires JobProgress(jobs0, runId, mine, remaining, jobOrder, jobs, now)
    requires j in remaining
    requires jobs' == jobs[j - 1 := JobRan(jobs[j - 1], now)]
    ensures j !in jobOrder
    ensures JobProgress(jobs0, runId, mine, remaining - {j}, jobOrder + [j], jobs', now)
  {
    WorklistStep(jobOrder, remaining, mine, j);
    RanJobsSnoc(jobs0, jobOrder, j, now);
  }

  /** Executing exactly the steps of one more job keeps StepProgress. */
  lemma StepProgressStep(steps0: seq<Step>, logs0: seq<Log>, jobOrder: seq<nat>, stepOrder: seq<nat>,
                         steps: seq<Step>, logs: seq<Log>, now: Time,
                         j: nat, order: seq<nat>, steps': seq<Step>, logs': seq<Log>)
    requires StepProgress(steps0, logs0, jobOrder, stepOrder, steps, logs, now)
    requires j !in jobOrder
    requires forall k :: k in order <==> StepOfJob(steps, k, j)
    requires forall a, b :: 0 <= a < b < |order| ==> order[a] != order[b]
    requires forall i :: 0 <= i < |order| ==> 1 <= order[i] <= |steps|
    requires steps' == RanSteps(steps, order, now)
    requires logs' == logs + StepLogs(order, steps)
    ensures StepProgress(steps0, logs0, jobOrder + [j], stepOrder + order, steps', logs', now)
  {
    RanStepsAppend(steps0, stepOrder, order, now);
    RanStepsCommands(steps0, stepOrder, now);
    StepLogsSameCommands(order, steps, steps0);
    StepLogsAppend(stepOrder, order, steps0);
    AppendAssoc(logs0, StepLogs(stepOrder, steps0), StepLogs(order, steps0));
    JobOrderStep(steps0, steps, stepOrder, jobOrder, order, j);
  }

  /** Executing one more job of the run, as SimulateJob does, keeps
      RunProgress. */
  lemma RunProgressStep(jobs0: seq<Job>, steps0: seq<Step>, logs0: seq<Log>, runId: nat,
                        mine: set<nat>, remaining: set<nat>, jobOrder: seq<nat>, stepOrder: seq<nat>, perJob: seq<seq<nat>>,
                        jobs: seq<Job>, steps: seq<Step>, logs: seq<Log>, now: Time,
                        j: nat, order: seq<nat>, jobs': seq<Job>, steps': seq<Step>, logs': seq<Log>)
    requires RunProgress(jobs0, steps0, logs0, runId, mine, remaining, jobOrder, stepOrder, perJob, jobs, steps, logs, now)
    requires j in remaining
    requires jobs' == jobs[j - 1 := JobRan(jobs[j - 1], now)]
    requires forall k :: k in order <==> StepOfJob(steps, k, j)
    requires forall a, b :: 0 <= a < b < |order| ==> order[a] != order[b]
    requires forall i :: 0 <= i < |order| ==> 1 <= order[i] <= |steps|
    requires steps' == RanSteps(steps, order, now)
    requires logs' == logs + StepLogs(order, steps)
    ensures RunProgress(jobs0, steps0, logs0, runId, mine, remaining - {j}, jobOrder + [j], stepOrder + order,
                        perJob + [order], jobs', steps', logs', now)
  {
    JobProgressStep(jobs0, runId, mine, remaining, jobOrder, jobs, now, j, jobs');
    StepProgressStep(steps0, logs0, jobOrder, stepOrder, steps, logs, now, j, order, steps', logs');
    RanStepsCommands(steps0, stepOrder, now);
    ByJobStep(steps0, jobOrder, stepOrder, perJob, steps, j, order);
  }

  // ---------------------------------------------------------------------
  // The service over its tables.

  const InvalidContent: string := "invalid YAML content: "
  const NotActive: string := "workflow is not active"
  const InvalidWorkflow: string := "invalid workflow YAML: "

  /** The service and the tables of its store. Record k of a table (from 0)
      has id k + 1. */
  class Service {
    var workflows: seq<Workflow>
    var runs: seq<Run>
    var jobs: seq<Job>
    var steps: seq<Step>
    var logs: seq<Log>
    /** The YAML parser. */
    const parse: string -> ParseResult

    constructor(parse: string -> ParseResult)
      ensures this.parse == parse
      ensures workflows == [] && runs == [] && jobs == [] && steps == [] && logs == []
    {
      this.parse := parse;
      workflows, runs, jobs, steps, logs := [], [], [], [], [];
    }

    /** The lookup `id = ? AND user_id = ?` on the workflows. */
    predicate OwnsWorkflow(id: nat, userId: nat)
      reads this
    {
      1 <= id <= |workflows| && workflows[id - 1].userId == userId
    }

    /** The lookup `id = ? AND user_id = ?` on the runs. */
    predicate OwnsRun(id: nat, userId: nat)
      reads this
    {
      1 <= id <= |runs| && runs[id - 1].userId == userId
    }

    /** CreateWorkflow: a text the parser rejects is refused and nothing is
        stored; otherwise the workflow is inserted with the next id. The
        column's default makes every inserted workflow active. */
    method CreateWorkflow(w: Workflow) returns (result: Result<nat>)
      modifies this
      ensures parse(w.yaml).ParseError? ==>
        result == Err(InvalidContent + parse(w.yaml).message) && workflows == old(workflows)
      ensures parse(w.yaml).Parsed? ==>
        result == Ok(|old(workflows)| + 1) && workflows == old(workflows) + [w.(isActive := true)]
      ensures runs == old(runs) && jobs == old(jobs) && steps == old(steps) && logs == old(logs)
    {
      var parsed := parse(w.yaml);
      if parsed.ParseError? {
        return Err(InvalidContent + parsed.message);
      }
      workflows := workflows + [w.(isActive := true)];
      return Ok(|workflows|);
    }

    /** UpdateWorkflow: an unknown or foreign workflow is not found; a new
        text the parser rejects is refused; otherwise the given fields are
        merged into the record, which is saved and returned. */
    method UpdateWorkflow(id: nat, userId: nat, name: string, description: string, yaml: string, isActive: Option<bool>)
      returns (result: Result<Workflow>)
      modifies this
      ensures !old(OwnsWorkflow(id, userId)) ==> result == Err(NotFound) && workflows == old(workflows)
      ensures old(OwnsWorkflow(id, userId)) && yaml != "" && parse(yaml).ParseError? ==>
        result == Err(InvalidContent + parse(yaml).message) && workflows == old(workflows)
      ensures old(OwnsWorkflow(id, userId)) && !(yaml != "" && parse(yaml).ParseError?) ==>
        && result == Ok(Merge(old(workflows[id - 1]), name, description, yaml, isActive))
        && workflows == old(workflows)[id - 1 := result.value]
      ensures runs == old(runs) && jobs == old(jobs) && steps == old(steps) && logs == old(logs)
    {
      if !OwnsWorkflow(id, userId) {
        return Err(NotFound);
      }
      var w := workflows[id - 1];
      if name != "" {
        w := w.(name := name);
      }
      if description != "" {
        w := w.(description := description);
      }
      if yaml != "" {
        var parsed := parse(yaml);
        if parsed.ParseError? {
          return Err(InvalidContent + parsed.message);
        }
        w := w.(yaml := yaml);
      }
      if isActive.Some? {
        w := w.(isActive := isActive.value);
      }
      workflows := workflows[id - 1 := w];
      return Ok(w);
    }

    /** CancelRun: an unknown or foreign run is not found; otherwise the
        run takes Cancel's transition, and a refused transition is
        returned as the error. */
    method CancelRun(id: nat, userId: nat, now: Time) returns (err: Option<string>)
      modifies this
      ensures !old(OwnsRun(id, userId)) ==> err == Some(NotFound) && runs == old(runs)
      ensures old(OwnsRun(id, userId)) ==> match Cancel(old(runs[id - 1]), now)
        case Ok(r) => err.None? && runs == old(runs)[id - 1 := r]
        case Err(m) => err == Some(m) && runs == old(runs)
      ensures workflows == old(workflows) && jobs == old(jobs) && steps == old(steps) && logs == old(logs)
    {
      if !OwnsRun(id, userId) {
        return Some(NotFound);
      }
      var run := runs[id - 1];
      if run.status == Running || run.status == Pending {
        run := run.(status := Cancelled, finishedAt := Some(now));
        runs := runs[id - 1 := run];
        return None;
      }
      return Some(CannotCancel + StatusName(run.status));
    }

    /** CreateRun: an unknown or foreign workflow is not found, an inactive
        one is refused, and one whose text the parser rejects is refused;
        otherwise a pending run is inserted, then one pending job per job
        of the spec (in map iteration order, any order) with the steps of
        each job after it. */
    method CreateRun(workflowId: nat, userId: nat) returns (result: Result<nat>, ghost order: seq<string>)
      modifies this
      ensures !OwnsWorkflow(workflowId, userId) ==> result == Err(NotFound)
      ensures OwnsWorkflow(workflowId, userId) ==> (!workflows[workflowId - 1].isActive ==> result == Err(NotActive))
      ensures OwnsWorkflow(workflowId, userId) ==> (workflows[workflowId - 1].isActive ==>
        var parsed := parse(workflows[workflowId - 1].yaml);
        (parsed.ParseError? ==> result == Err(InvalidWorkflow + parsed.message)))
      ensures result.Err? ==> runs == old(runs) && jobs == old(jobs) && steps == old(steps)
      ensures OwnsWorkflow(workflowId, userId) ==> (workflows[workflowId - 1].isActive ==>
        var parsed := parse(workflows[workflowId - 1].yaml);
        (parsed.Parsed? ==>
          && result == Ok(|old(runs)| + 1)
          && runs == old(runs) + [Run(workflowId, userId, Pending, None, None)]
          && IsJobOrder(order, parsed.spec.jobs)
          && jobs == old(jobs) + JobRecords(|old(runs)| + 1, order)
          && steps == old(steps) + PlannedSteps(JobSpecs(parsed.spec.jobs, order), |old(jobs)| + 1)))
      ensures workflows == old(workflows) && logs == old(logs)
    {
      order := [];
      if !OwnsWorkflow(workflowId, userId) {
        return Err(NotFound), order;
      }
      var w := workflows[workflowId - 1];
      if !w.isActive {
        return Err(NotActive), order;
      }
      var parsed := parse(w.yaml);
      if parsed.ParseError? {
        return Err(InvalidWorkflow + parsed.message), order;
      }
      runs := runs + [Run(workflowId, userId, Pending, None, None)];
      var runId := |runs|;
      order := AddJobs(runId, parsed.spec.jobs);
      return Ok(runId), order;
    }

    /** CreateRun's job loop: one pending job per job of the spec, in map
        iteration order (any order), each followed by its steps. */
    method AddJobs(runId: nat, specs: map<string, JobSpec>) returns (ghost order: seq<string>)
      modifies this
      ensures IsJobOrder(order, specs)
      ensures jobs == old(jobs) + JobRecords(runId, order)
      ensures steps == old(steps) + PlannedSteps(JobSpecs(specs, order), |old(jobs)| + 1)
      ensures workflows == old(workflows) && runs == old(runs) && logs == old(logs)
    {
      order := [];
      ghost var firstJob := |jobs| + 1;
      var remaining := specs.Keys;
      while remaining != {}
        invariant remaining <= specs.Keys
        invariant forall a, b :: 0 <= a < b < |order| ==> order[a] != order[b]
        invariant forall i :: 0 <= i < |order| ==> order[i] in specs && order[i] !in remaining
        invariant forall name :: name in specs ==> name in remaining || name in order
        invariant jobs == old(jobs) + JobRecords(runId, order)
        invariant steps == old(steps) + PlannedSteps(JobSpecs(specs, order), firstJob)
        invariant workflows == old(workflows) && runs == old(runs) && logs == old(logs)
        decreases remaining
      {
        var name :| name in remaining;
        var jobId := |jobs| + 1;
        AddJob(runId, jobId, name, specs[name]);
        JobRecordsSnoc(runId, order, name);
        AppendAssoc(old(jobs), JobRecords(runId, order), [Job(runId, name, Pending, None, None)]);
        PlannedStepsNext(specs, order, name, firstJob, jobId);
        AppendAssoc(old(steps), PlannedSteps(JobSpecs(specs, order), firstJob), StepRecords(jobId, specs[name].steps));
        order := order + [name];
        remaining := remaining - {name};
      }
    }

    /** One iteration of CreateRun's job loop: the pending job, then its
        pending steps in spec order, under the job's new id. */
    method AddJob(runId: nat, jobId: nat, name: string, spec: JobSpec)
      requires jobId == |jobs| + 1
      modifies this
      ensures jobs == old(jobs) + [Job(runId, name, Pending, None, None)]
      ensures steps == old(steps) + StepRecords(jobId, spec.steps)
      ensures workflows == old(workflows) && runs == old(runs) && logs == old(logs)
    {
      jobs := jobs + [Job(runId, name, Pending, None, None)];
      ghost var before := steps;
      for i := 0 to |spec.steps|
        invariant steps == before + StepRecords(jobId, spec.steps[..i])
        invariant jobs == old(jobs) + [Job(runId, name, Pending, None, None)]
        invariant workflows == old(workflows) && runs == old(runs) && logs == old(logs)
      {
        var stepSpec := spec.steps[i];
        var stepName := stepSpec.name;
        if stepName == "" {
          stepName := StepPrefix + NatToString(i + 1);
        }
        steps := steps + [Step(jobId, stepName, stepSpec.run, Pending, None, None)];
        StepRecordsSnoc(jobId, spec.steps, i);
      }
      assert spec.steps[..|spec.steps|] == spec.steps;
    }

    /** executeRun: the run is saved as running from the copy CreateRun
        returned, then every job of the run (in query order, any order) is
        executed, and the run is saved from that copy as succeeded. The
        copy overwrites the stored record, so a cancellation made in the
        meantime does not survive. */
    method ExecuteRun(runId: nat, snapshot: Run, now: Time) returns (ghost jobOrder: seq<nat>, ghost stepOrder: seq<nat>, ghost perJob: seq<seq<nat>>)
      requires 1 <= runId <= |runs|
      modifies this
      ensures runs == old(runs)[runId - 1 := RunRan(snapshot, now)]
      ensures forall j :: j in jobOrder <==> InRun(old(jobs), j, runId)
      ensures forall a, b :: 0 <= a < b < |jobOrder| ==> jobOrder[a] != jobOrder[b]
      ensures forall i :: 0 <= i < |jobOrder| ==> 1 <= jobOrder[i] <= |old(jobs)|
      ensures jobs == RanJobs(old(jobs), jobOrder, now)
      ensures forall k :: k in stepOrder <==> 1 <= k <= |old(steps)| && InRun(old(jobs), old(steps)[k - 1].jobId, runId)
      ensures forall a, b :: 0 <= a < b < |stepOrder| ==> stepOrder[a] != stepOrder[b]
      ensures forall i :: 0 <= i < |stepOrder| ==> 1 <= stepOrder[i] <= |old(steps)|
      ensures |perJob| == |jobOrder| && stepOrder == Concat(perJob)
      ensures forall i, k :: 0 <= i < |perJob| ==> (k in perJob[i] <==> StepOfJob(old(steps), k, jobOrder[i]))
      ensures steps == RanSteps(old(steps), stepOrder, now)
      ensures logs == old(logs) + StepLogs(stepOrder, old(steps))
      ensures workflows == old(workflows)
    {
      var run := snapshot.(status := Running, startedAt := Some(now));
      runs := runs[runId - 1 := run];
      jobOrder, stepOrder, perJob := RunJobs(runId, now);
      run := run.(status := Success, finishedAt := Some(now));
      runs := runs[runId - 1 := run];
    }

    /** executeRun's job loop: every job of the run is executed, in an
        arbitrary order, and with each job exactly its own steps. */
    method RunJobs(runId: nat, now: Time) returns (ghost jobOrder: seq<nat>, ghost stepOrder: seq<nat>, ghost perJob: seq<seq<nat>>)
      modifies this
      ensures forall j :: j in jobOrder <==> InRun(old(jobs), j, runId)
      ensures forall a, b :: 0 <= a < b < |jobOrder| ==> jobOrder[a] != jobOrder[b]
      ensures forall i :: 0 <= i < |jobOrder| ==> 1 <= jobOrder[i] <= |old(jobs)|
      ensures jobs == RanJobs(old(jobs), jobOrder, now)
      ensures forall k :: k in stepOrder <==> 1 <= k <= |old(steps)| && InRun(old(jobs), old(steps)[k - 1].jobId, runId)
      ensures forall a, b :: 0 <= a < b < |stepOrder| ==> stepOrder[a] != stepOrder[b]
      ensures forall i :: 0 <= i < |stepOrder| ==> 1 <= stepOrder[i] <= |old(steps)|
      ensures |perJob| == |jobOrder| && stepOrder == Concat(perJob)
      ensures forall i, k :: 0 <= i < |perJob| ==> (k in perJob[i] <==> StepOfJob(old(steps), k, jobOrder[i]))
      ensures steps == RanSteps(old(steps), stepOrder, now)
      ensures logs == old(logs) + StepLogs(stepOrder, old(steps))
      ensures workflows == old(workflows) && runs == old(runs)
    {
      jobOrder, stepOrder, perJob := [], [], [];
      var remaining := set j | 1 <= j <= |jobs| && InRun(jobs, j, runId);
      ghost var mine := remaining;
      while remaining != {}
        invariant RunProgress(old(jobs), old(steps), old(logs), runId, mine, remaining, jobOrder, stepOrder, perJob,
                              jobs, steps, logs, now)
        invariant runs == old(runs) && workflows == old(workflows)
        decreases remaining
      {
        var j :| j in remaining;
        ghost var jobs1, steps1, logs1 := jobs, steps, logs;
        var order := SimulateJob(j, now);
        RunProgressStep(old(jobs), old(steps), old(logs), runId, mine, remaining, jobOrder, stepOrder, perJob,
                        jobs1, steps1, logs1, now, j, order, jobs, steps, logs);
        jobOrder := jobOrder + [j];
        stepOrder := stepOrder + order;
        perJob := perJob + [order];
        remaining := remaining - {j};
      }
    }

    /** One iteration of executeRun's job loop: the job is saved as running,
        each of its steps (in query order, any order) is executed, and the
        job is saved as succeeded. */
    method SimulateJob(jobId: nat, now: Time) returns (ghost order: seq<nat>)
      requires 1 <= jobId <= |jobs|
      modifies this
      ensures jobs == old(jobs)[jobId - 1 := JobRan(old(jobs)[jobId - 1], now)]
      ensures forall k :: k in order <==> StepOfJob(old(steps), k, jobId)
      ensures forall a, b :: 0 <= a < b < |order| ==> order[a] != order[b]
      ensures forall i :: 0 <= i < |order| ==> 1 <= order[i] <= |old(steps)|
      ensures steps == RanSteps(old(steps), order, now)
      ensures logs == old(logs) + StepLogs(order, old(steps))
      ensures workflows == old(workflows) && runs == old(runs)
    {
      var job := jobs[jobId - 1];
      job := job.(status := Running, startedAt := Some(now));
      jobs := jobs[jobId - 1 := job];
      order := [];
      ghost var steps0 := steps;
      var remaining := set k | 1 <= k <= |steps| && StepOfJob(steps, k, jobId);
      ghost var mine := remaining;
      while remaining != {}
        invariant remaining <= mine
        invariant forall k :: k in mine <==> StepOfJob(steps0, k, jobId)
        invariant forall i :: 0 <= i < |order| ==> order[i] in mine && order[i] !in remaining
        invariant forall k :: k in mine ==> k in remaining || k in order
        invariant forall a, b :: 0 <= a < b < |order| ==> order[a] != order[b]
        invariant steps == RanSteps(steps0, order, now)
        invariant logs == old(logs) + StepLogs(order, steps0)
        invariant jobs == old(jobs)[jobId - 1 := job]
        invariant workflows == old(workflows) && runs == old(runs)
        decreases remaining
      {
        var k :| k in remaining;
        WorklistStep(order, remaining, mine, k);
        RanStepsCommands(steps0, order, now);
        SimulateStep(k, now);
        RanStepsSnoc(steps0, order, k, now);
        StepLogsSnoc(order, k, steps0);
        AppendAssoc(old(logs), StepLogs(order, steps0), StepLog(k, steps0[k - 1].command));
        order := order + [k];
        remaining := remaining - {k};
      }
      job := job.(status := Success, finishedAt := Some(now));
      jobs := jobs[jobId - 1 := job];
    }

    /** One iteration of the step loop: the step is saved as running, its
        command is logged, it is saved as succeeded and its completion is
        logged. */
    method SimulateStep(k: nat, now: Time)
      requires 1 <= k <= |steps|
      modifies this
      ensures steps == old(steps)[k - 1 := Ran(old(steps)[k - 1], now)]
      ensures logs == old(logs) + StepLog(k, old(steps)[k - 1].command)
      ensures workflows == old(workflows) && runs == old(runs) && jobs == old(jobs)
    {
      var step := steps[k - 1];
      step := step.(status := Running, startedAt := Some(now));
      steps := steps[k - 1 := step];
      logs := logs + [Log(k, Executing + step.command, Info)];
      step := step.(status := Success, finishedAt := Some(now));
      steps := steps[k - 1 := step];
      logs := logs + [Log(k, Completed, Info)];
    }
  }
}
