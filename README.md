# relayforge core, modelled in Dafny

This project models three small sequential parts of the relayforge
workflow system and proves what each of them promises.

- **The workflow service** (`Workflow.Service`) works over the store's
  tables: workflows, runs, jobs, steps and logs.
  - Each table is a sequence, and a record's id is its 1-based position, as
    an auto-increment key is when nothing is deleted. No modelled operation
    deletes; `DeleteWorkflow`, which does, is left out.
  - The YAML parser is a function the service is built with.
  - The model covers creating a workflow behind the parse gate, the partial
    update of a workflow, and cancelling a run, a guarded transition from
    pending or running to cancelled.
  - It covers creating a run: a pending run, then one pending job per job of
    the spec, each followed by its pending steps in spec order, with
    "Step k" for an unnamed step.
  - It covers the simulated execution `executeRun`. It saves the run as
    running, then runs every job of the run and every step of each job.
    Each step is saved as running, then as succeeded, with two log lines.
    Each job, then the run, is saved as succeeded.
  - Jobs come from a Go map and from an unordered query, so the model picks
    them in any order. Ghost out-parameters name the order taken, and every
    contract holds for all orders.
  - `executeRun` writes back the copy of the run that `CreateRun` loaded. A
    cancellation made in the meantime is therefore overwritten, and the run
    always ends `success`.
  - Every inserted workflow is active, because the column has default `true`
    and the store does not insert a zero-valued field.
- **The runner** (`Runner`) executes an assigned job.
  - The steps run in order with ids 1, 2, …, and the first failing step ends
    the job. A step without a command fails before anything is reported.
  - The job reports exactly one result: success, or failure with the step's
    error.
  - The step's process sees the runner's environment, overridden by the
    step's own variables, whatever order those variables are appended in.
  - The subprocess is an oracle from (step id, command, directory,
    environment) to an outcome: exit status 0, an exit error with a code, or
    a start error. The step id stands for what earlier steps of the job left
    in the shared file system, so a repeated command may fail where it first
    succeeded.
- **The API server** (`Api`) covers two things.
  - The authorization gate rejects an empty header before any validation. It
    strips one `"Bearer "` prefix only when something follows it, and
    validates the rest.
  - The WebSocket log stream keeps a `lastLogID` cursor. The stream only
    ever delivers rows of the run's log table, in strictly increasing id
    order. The cursor is the id of the last row written, and a refused write
    ends the stream. When the table only grows, nothing is skipped and nothing
    is sent twice. A stream that stays open delivers exactly the last table
    fetched; one that a refused write ends delivers a prefix of it.
  - The ticker is a finite list of polls, each of them a failed fetch or the
    table as it then was.
- **Shared values** (`Common`): optional values and results, the status
  vocabulary, decimal rendering with its round trip, and environment lookup
  with a default.

Methods are proved against specification functions. For example,
`ExecuteRun` leaves `steps == RanSteps(old(steps), stepOrder, now)` and
`logs == old(logs) + StepLogs(stepOrder, old(steps))`. The lemmas about
those functions state what the source promises: the layout of the log lines,
which records change and how, and that the plan of each job follows its spec.

## Model

| member | source | states |
|---|---|---|
| Common.GetEnv | cmd/runner/main.go:219-224 | `getEnv`, identical in the runner and in the server (internal/api/server.go lines 139-144): the variable's value when it is set and non-empty, otherwise the default |
| Common.GetEnvProperties | internal/api/server.go:139-144 | a non-empty default gives a non-empty result; a variable set to "" behaves as unset; applying the default twice changes nothing |
| Common.NatToStringRoundTrip | internal/workflow/service.go:133 | the `%d` rendering of a step number reads back as that number |
| Common.NatToStringInjective | internal/workflow/service.go:133 | different numbers are rendered differently |
| Common.StatusNameInjective | internal/models/models.go:38 | distinct statuses are stored as distinct strings, so a status read back is the one written |
| Workflow.Service.CreateWorkflow | internal/workflow/service.go:29-37 | a text the parser rejects gives "invalid YAML content: <error>" and stores nothing; otherwise the workflow is appended with the next id, active, and no other table changes |
| Workflow.Merge | internal/workflow/service.go:53-70 | field by field: an empty name, description or YAML and an absent flag keep the stored value, and a given value replaces it; the owner never changes |
| Workflow.MergeNothing | internal/workflow/service.go:53-70 | an update that gives nothing leaves the workflow as it was |
| Workflow.MergeTwice | internal/workflow/service.go:53-70 | two updates in a row are one update with the later given value of each field, and repeating an update is idempotent |
| Workflow.Service.UpdateWorkflow | internal/workflow/service.go:47-73 | an unknown or foreign id gives "record not found"; a new text the parser rejects is refused before any save; otherwise the record becomes `Merge` of the old one and is returned; no other table changes |
| Workflow.Cancel | internal/workflow/service.go:175-182 | succeeds exactly for a pending or running run and then sets cancelled and the finish time; any other status is refused with "run cannot be cancelled in current status: <status>" |
| Workflow.CancelOnce | internal/workflow/service.go:175-182 | cancelling keeps the workflow, the owner and the start time, and a cancelled run cannot be cancelled again |
| Workflow.FinishedRunsStay | internal/workflow/service.go:175-182 | a succeeded, failed or cancelled run is never cancellable, and the refusal is "run cannot be cancelled in current status: " followed by the stored status name |
| Workflow.Service.CancelRun | internal/workflow/service.go:169-183 | an unknown or foreign run gives "record not found"; otherwise the stored run takes `Cancel`'s transition, or stays unchanged with `Cancel`'s error; no other table changes |
| Workflow.Service.CreateRun | internal/workflow/service.go:89-158 | not found, inactive and unparsable workflows are refused in that order, and nothing is written; otherwise a pending run with the next id is appended, then one pending job per job name (each exactly once), then the steps planned for those jobs |
| Workflow.Service.AddJobs | internal/workflow/service.go:117-147 | the job loop: the jobs appended are one pending record per job name of the spec, in the order taken, and the steps appended are the planned steps of those jobs under consecutive new job ids |
| Workflow.Service.AddJob | internal/workflow/service.go:118-146 | one iteration: the pending job, then exactly its step records, in spec order, under the job's id |
| Workflow.JobRecords | internal/workflow/service.go:119-123 | one pending job per name, with the run's id and no timestamps |
| Workflow.StepRecordsFollowSpec | internal/workflow/service.go:130-146 | the k-th step record of a job belongs to the job, is pending without timestamps, carries the spec's command, and keeps its given name or is named "Step k+1" |
| Workflow.DefaultStepName | internal/workflow/service.go:131-134 | a default name is "Step " followed by digits that read back as the step's 1-based position |
| Workflow.DefaultStepNamesDistinct | internal/workflow/service.go:131-134 | unnamed steps at different positions get different names |
| Workflow.PlannedStepsByJob | internal/workflow/service.go:117-147 | among all steps CreateRun appends, those of the k-th created job are exactly that job's spec steps as records, in spec order |
| Workflow.PlannedStepsRange | internal/workflow/service.go:136-141 | every step appended belongs to one of the jobs just created and is pending |
| Workflow.StepRecordsRange | internal/workflow/service.go:136-141 | every step record of a job carries the job's id and is pending |
| Workflow.Service.ExecuteRun | internal/workflow/service.go:186-258 | the run becomes the loaded copy with status success and both times set, whatever was stored; each job of the run runs exactly once and no other job changes; exactly the steps of those jobs run, each once, job by job: the step order is the concatenation of one block per job, in job order, and each block holds exactly that job's steps; two log lines per executed step are appended in execution order |
| Workflow.Service.RunJobs | internal/workflow/service.go:193-248 | the job loop: exactly the jobs of the run, each once, and exactly their steps, each once, with the steps of each job in one block in job order; the jobs and steps become `RanJobs`/`RanSteps` of the old tables and the logs grow by `StepLogs` of the executed steps |
| Workflow.Service.SimulateJob | internal/workflow/service.go:198-247 | one job: it ends success with both times set; exactly its own steps run, each once; the logs grow by the two lines of each of those steps, in order; runs and workflows are untouched |
| Workflow.Service.SimulateStep | internal/workflow/service.go:206-235 | one step: it ends success with both times set, and exactly "Executing: <command>" then "Step completed successfully", both at level info, are appended for it |
| Workflow.StepLogsLayout | internal/workflow/service.go:215-235 | the logs of an execution have two lines per executed step: line 2k is "Executing: <command of the k-th step>" and line 2k+1 is "Step completed successfully", both for that step's id at level info |
| Workflow.StepLogsAppend | internal/workflow/service.go:206-236 | the logs of executing one list of steps and then another are the logs of the first followed by those of the second |
| Workflow.StepLogsSameCommands | internal/workflow/service.go:218 | the log lines depend only on the steps' commands, so running earlier steps does not change the lines of later ones |
| Workflow.RanStepsAt | internal/workflow/service.go:206-227 | after an execution each step listed is success with both times set and otherwise as before, and every other step is unchanged |
| Workflow.RanStepsAppend | internal/workflow/service.go:206-236 | executing one list of steps and then another is one execution of both lists |
| Workflow.RanStepsCommands | internal/workflow/service.go:206-227 | execution keeps every step's command and job |
| Workflow.RanJobsAt | internal/workflow/service.go:198-247 | after an execution each job listed is success with both times set and otherwise as before, and every other job is unchanged |
| Workflow.RunProgressStep | internal/workflow/service.go:198-248 | executing one more job of the run keeps the loop's bookkeeping: jobs and steps done each once, exactly the steps of the jobs done, job by job, logs in execution order |
| Workflow.ByJobStep | internal/workflow/service.go:198-247 | appending the steps of one more job as a new block keeps the step order job by job, because execution does not change which job a step belongs to |
| Runner.BuildEnv | cmd/runner/main.go:158-162 | the process environment is the runner's entries followed by one "name=value" entry per step variable, each exactly once, in any order |
| Runner.EffectiveOverride | cmd/runner/main.go:158-162 | whatever the order of the appended entries, the process sees the runner's environment overridden by the step's variables |
| Runner.EntryParts | cmd/runner/main.go:161 | an entry "name=value" splits back into its name and its value |
| Runner.Finished | cmd/runner/main.go:181-199 | the final report: success with exit code 0 and no error exactly when the process exited with 0; otherwise failed, with the process's exit code for an exit error and 1 for any other error, the error text being stderr; the output is stdout |
| Runner.ExitCodeMatchesStatus | cmd/runner/main.go:188-199 | for every outcome a process can have, the exit code reported is 0 exactly when the status is success |
| Runner.StepError | cmd/runner/main.go:178-204 | the step returns an error exactly when the process did not exit with 0 |
| Runner.ExecuteStep | cmd/runner/main.go:143-205 | an empty command returns "no command specified for step" and reports nothing; otherwise "running" is reported, then the final result of the command run in the step's environment, and an error is returned exactly when that result is failed |
| Runner.FirstFailure | cmd/runner/main.go:124-134 | the first step that has no command or does not exit with 0, or the number of steps when none fails |
| Runner.JobTraceSplit | cmd/runner/main.go:124-140 | a job reports the pairs of the steps before the first failure, then the tail that that failure, or success, determines |
| Runner.JobTracePairs | cmd/runner/main.go:124-134 | steps run in order: step j is reported running and then finished with id j+1, for every step before the first failure and for the failing step itself when it has a command |
| Runner.JobTraceEnd | cmd/runner/main.go:124-140 | no step after the first failure is reported; the last report is the job result: success when no step fails, otherwise failed with that step's error |
| Runner.OneJobResult | cmd/runner/main.go:126-140 | exactly one job result, the last report, for the job's id; it is success exactly when every step succeeds |
| Runner.RepeatedStepMayFail | cmd/runner/main.go:124-133 | a step repeated in a job may fail where its first run succeeded (as `mkdir d` does twice): the repeat is then the first failure and the job reports its error |
| Runner.ExecuteJob | cmd/runner/main.go:117-141 | the reports of the job are exactly `JobTrace`, so all of the lemmas above hold for them |
| Api.StripBearer | internal/api/server.go:185-188 | the token is the header, or the header is "Bearer " followed by a non-empty token; the token is empty exactly when the header is |
| Api.StripBearerCases | internal/api/server.go:186-188 | "Bearer t" gives t for non-empty t; exactly "Bearer " and a header without the prefix pass through unchanged; only one prefix is removed |
| Api.Rejection | internal/api/server.go:179-195 | a request proceeds exactly when it was authorized; the two refusals carry "Missing authorization token" and "Invalid token" |
| Api.AuthMiddleware | internal/api/server.go:176-199 | an empty header is refused before any validation; otherwise the stripped token is the one validated, and the request is authorized exactly when validation accepts it, as the user validation returned |
| Api.Fetch | internal/api/server.go:411-415 | the query returns rows of the table above the cursor, ascending when the table is |
| Api.FetchMembers | internal/api/server.go:411-415 | the query returns exactly the rows of the table whose id is above the cursor |
| Api.FetchExtends | internal/api/server.go:411-415 | resuming from the cursor left by a complete read of a shorter table delivers exactly the rows that the longer table adds |
| Api.StreamLogs | internal/api/server.go:405-437 | delivered rows have strictly increasing ids and come from fetched tables; the cursor is the id of the last row written (0 before any); only a refused write ends the stream, and nothing after it is written; with an append-only table there are no gaps and no duplicates: a stream that stays open delivers exactly the last table fetched, and a stream that a refused write ends delivers a prefix of it |
| Api.OnTick | internal/api/server.go:409-436 | a failed fetch changes nothing and the stream goes on; otherwise the rows above the cursor are written in order until a write is refused, and the cursor moves to the last one written |
| Api.WriteBatch | internal/api/server.go:422-436 | the rows are written in order, each moving the cursor to its id; a refused write stops the batch with the cursor at the last row written |
| Api.AscendingBatch | internal/api/server.go:422-436 | rows above the cursor written after an ascending delivery keep it ascending, and the cursor ends at the last row written |
| Api.CompleteStep | internal/api/server.go:409-436 | after a complete read of the previous table, a tick on a table that extends it delivers a prefix of a complete read of the new table, and the whole of it when every row above the cursor is written: no row skipped, none sent twice |
| Api.FetchPrefix | internal/api/server.go:411-415 | the query on a prefix of a table returns a prefix of the query on the whole table |
| Api.LastTableGrows | internal/api/server.go:409-416 | with an append-only table, the table of the last successful fetch so far is a prefix of the table of the last successful fetch of the stream |
| Api.LastTableAfter | internal/api/server.go:409-416 | the last table of the stream was fetched at or after any successful fetch |

## Left out

- The relational store is a set of in-memory tables. Joins, `Preload`
  reloads and query plans are not modelled, and the queries are stated as
  filters over the tables.
- Write errors of `Create` and `Save` are not modelled; every write is taken to succeed. The lookup error "record not found" is modelled.
- A `Save` also upserts the preloaded associations, which changes nothing
  when those records exist, so it is not modelled.
- The goroutine `go s.executeRun(run)` and its race with `CancelRun` are
  concurrency. `Workflow.Service.ExecuteRun` is a separate sequential call
  that takes the run copy `CreateRun` loaded as its `snapshot` parameter.
- Workflow.Service.ExecuteRun: `runSuccess` and `jobSuccess` are never set to false, so the branches that would mark a job or a run failed are dead code and are not modelled.
- Timestamps: `time.Now()` is one opaque `now` per call, `time.Sleep` is left out, and so is RFC 3339 formatting. The runner's results carry no timestamps.
- The YAML parser is a function parameter of the service, and only the fields the code reads are modelled.
- The `sh -c` subprocess is an oracle parameter. The runner's own environment (`os.Environ()`) is an input list of entries.
- Runner.ExecuteJob: the file system the steps share is not modelled as state. Its effect on a step is folded into the oracle through the step's id, so the oracle cannot see what earlier steps actually wrote, and the same job run twice is taken to behave the same way.
- Runner.BuildEnv: the names of step variables contain no '='; an `exec` environment entry is split at its first '=', so a name containing '=' would not round-trip.
- Go map iteration order (job names in `CreateRun`, step variables in `executeStep`) and the unspecified row order of `executeRun`'s job and step queries are arbitrary choices. Contracts hold for every order, and no particular order is asserted.
- The `inputs` argument of `CreateRun` is never read, and is omitted.
- `pollForJobs` is a stub, and result reporting only writes a log line. The runner's reports are returned as a list instead of being sent.
- The spec fields `Needs`, `If`, `Continue` and `Timeout` are never read, and are not modelled.
- The WebSocket upgrade, JSON encoding of log entries and the ticker's timing: the stream is a finite list of ticks, each a failed fetch or the run's log table at that moment, and a refused write is given as the index of the first write the connection refuses.
- The ownership lookup of `streamLogs` that answers "Run not found" before the WebSocket opens (internal/api/server.go:387-392) is not modelled. `Api.StreamLogs` starts after the connection is open.
- The `log.Printf` lines of the runner (cmd/runner/main.go:118,126,144) and of the stream (internal/api/server.go:396,418,431) are diagnostics with no effect on the state, and are not modelled.
- Token validation (JWT, OAuth with GitHub) is foreign code. It is a function parameter of `Api.AuthMiddleware`.
- `GetUserWorkflows`, `GetWorkflow`, `GetWorkflowRuns` and `GetRun` are plain queries. They are outside the modelled core, as are the HTTP handlers, routing and CORS of the server.
- `DeleteWorkflow` (internal/workflow/service.go:75-77) is a hard delete of the owner's workflow, since the record has no soft-delete column. It is not modelled, and ids equal table positions only because of that.
- Each service call is taken as atomic. The server handles every request in its own goroutine, so concurrent requests can interleave their inserts, and the job ids of one run need not then be consecutive as the `Workflow.Service.CreateRun` contract states.
