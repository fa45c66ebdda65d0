# A verified model of OnlyAgents

OnlyAgents runs a set of language-model agents behind one kernel. This project models the parts of it
that carry state from step to step, and proves what they guarantee over whole runs. It is written for
Dafny 4.11; `dafny verify dfyconfig.toml` checks all of it.

**Workflows.** A workflow is a list of tasks with dependencies. `TaskGraph` and `WorkflowTypes` hold the
graph, the depth-first cycle test and validation. `WorkflowStore` and `WorkflowEngine` are the tables, the
bus and the engine as classes, proved step by step against the functions of `WorkflowState`; a step is
one submission or one completion report, run by the kernel's single router goroutine. `WorkflowSteps`,
`WorkflowRuns` and `WorkflowProgress` prove safety, exactly-once and progress for runs: any sequence of
such steps with any store failures. `WorkflowResults` proves what runs deliver: which results, errors and
statuses the tables hold, what assignments tell the agents, and what announcements carry and to whom.
`DependencyText` settles which task IDs the SQL prefilter finds, and `DependencyDecoding` that decoding a
stored list undoes encoding it. `GraphRenaming` and `WorkflowRemap` cover the two places that give tasks
fresh IDs, and `WorkflowExample` is a run that gets stuck.

**Conversations.** `ToolProtocol` defines when a message list is well formed (every call is followed at
once by its results, and there is no other tool message) and proves the sanitizer exact. `History`
rebuilds a conversation from the stored log, and `HistoryContents` says row by row what it shows.
`ExecutionLoop` is the alternation of model and tool calls; `LoopAnswers` says which reply is the answer of
a run and what is sent, run and stored to get it, and `LoopGuarantees` proves the shape of all that is
sent, the limits, and what the next turn sees of it. `StreamAssembly` and `TokenBudget` are the streamed
calls and the token limits.

**Memory.** `SessionGrouping` cuts messages into sessions, `SessionWatermark` is the incremental
summarizer, `WatermarkRuns` says, for every run, which times the episodes span, and `WatermarkContents`
which messages the stored summaries were made from.

**Smaller state machines.** `PhaseTimer` is the phase stack of a timed request and its summary;
`SecretCache` is the cache in front of a vault.

## What the proofs showed

- A dependency that names no task is accepted by validation, and a task that has one never starts
  (`DanglingNeverStarts`).
- As long as each task is reported at most once, a task that is no root does not start either if its
  dependencies were all completed before its workflow was submitted (`SatisfiedAtLaunchNeverStarts`, with
  a run in `WorkflowExample`). This can happen: pkg/kernel/handlers_workflow.go:90-97 shows the executive
  the IDs of finished tasks, and pkg/agents/executive_tools.go:219-225 passes a dependency that names no
  step through unchanged. Under the same assumption, and if the reads that find dependents succeed,
  `AssignedIffBecameReady` says exactly which tasks start.
- The dependents of a task are found by a `LIKE` over JSON text. The encoder writes `<`, `>`, `&`,
  control characters and two line separators as escapes, so a task whose ID has one of them is never
  found (`PrefilterExact`), and what depends only on such tasks never starts (`UnfindableNeverStarts`).
  Both callers of submission draw UUIDs for task IDs, so no such ID reaches the store through them.
- The "failed" outcome of a workflow is unreachable: a failed task returns before the completion test,
  and the test is negative while any task is failed (`AnnouncedWhenComplete`).
- Submission is not all-or-nothing. If the workflow row is inserted and a task insert fails, a running
  workflow stays behind and nothing is fired; `SubmitExact` says exactly when, and a root left behind
  never starts (`LeftRootNeverStarts`). Two generated steps with the same ID do this
  (`DuplicateStepsFail`, `TwinsLeftBehind`).
- A generated step without an ID becomes a task without one (`FreshIDs`): the ID drawn for it is written
  to a copy of the step.
- Roots are assigned with the original message of their task, dependents without one, since the tables do
  not hold it (`AssignmentOf`).
- A synthesis without text returns a fixed one, but a task still reports the empty text (`RunEnds`).
- docs/ARCHITECTURE.md:150-157 says that a tool which asks to halt stops the loop.
  pkg/agents/tool_calls.go:147 always returns `false`, so the loop goes on; the model follows the code
  (`ProcessToolCalls`, `HandleReply`).
- The sanitizer keeps stray results that follow a complete block (`ResultsAloneJoinBlock`) and drops a
  block with another message in between (`InterleavedBlockLost`).
- A result budget of zero means no truncation. It is zero without an output ceiling, and with one when
  almost no room is left (`NoResultBudget`). Error and halt texts are never truncated (`OthersEscape`).
- A message that arrives behind the watermark is never summarized (`LateNeverRead`, `MessageSummarized`),
  even where an episode spans its time (`SpannedButLost`). Any other message is in a summary once the
  watermark has moved on to its time. `MessageFate` says which times are spanned.
- Ending a phase that is not on top of the stack leaves records running; a later phase of the same name
  may then be given the wrong start (`EndPhase`, `NewestIsOwn`, with an example in `StrayMisleads`).
- The cache can exceed its size limit exactly when it is full, the empty key is in it and to expire
  before all others, and another key is stored (`LimitExceeded`).

## How to read it

What is outside a step is an argument of it: `Faults` says which store calls fail, `Environment` says what
the model, the tools and cancellation do, UUIDs come from a sequence. The classes have the fields the
program updates; each method's contract gives the whole new state as a function of the old one, and the
lemmas are about those functions. `Run` in `WorkflowRuns` and `WatermarkRuns` is the state after a
sequence of actions.

The announcement results assume what they name: that the reads which find dependents succeed
(`DependentsRead`, `CompletionRead`), that each task is reported at most once (`OncePerTask`), and that
reports answer assignments (`Truthful`). The last two follow if every assignment is answered at most once
(`AnswersOnceSuffices`). Progress assumes only `DependentsRead`. It asks nothing of the graph or the IDs:
a task that does not proceed counts as stuck, and `Stuck` lists the three causes: it failed; it was
missed, that is, its dependencies are completed but no report the prefilter shows completed the last of
them after the launch; or it waits for a task outside the workflow. For a workflow whose dependencies all
name its own tasks, under IDs that match their own JSON text, failure is the only cause
(`OnlyFailureSticks`). Safety assumes nothing.

## Model

| member | source | states |
|---|---|---|
| `TaskGraph.TopologicalIsAcyclic` | pkg/workflow/types.go:97-100 | an order in which every task comes after everything it depends on rules out cycles |
| `TaskGraph.MinimalTask` | pkg/workflow/types.go:117-154 | in an acyclic graph every nonempty set of tasks has a member that depends on no member of the set |
| `TaskGraph.BuildOrder` | pkg/workflow/types.go:117-154 | an acyclic graph, dangling dependencies included, has a topological order of all its nodes |
| `TaskGraph.AcyclicIffTopological` | pkg/workflow/types.go:97-100 | a graph has no cycle exactly when it has a topological order |
| `TaskGraph.CycleSearch.Dfs` | pkg/workflow/types.go:127-145 | the recursive search terminates; `true` means there is a cycle, `false` that the task and all below it were finished in dependency order and the search state is intact |
| `TaskGraph.ClosingEdge` | pkg/workflow/types.go:134-141 | an edge to a task on the recursion stack closes a walk from that task to itself |
| `WorkflowTypes.HasCycle` | pkg/workflow/types.go:117-154 | true exactly when some task reaches itself through one or more dependency edges, for any graph and any order of map iteration; `false` comes with a topological order |
| `WorkflowTypes.Roots` | pkg/workflow/types.go:106-114 | a task is a root exactly when it is in the list and depends on nothing |
| `WorkflowTypes.GraphOfTasks` | pkg/workflow/types.go:118-122 | the graph's nodes are the listed IDs; with distinct IDs each has its own dependencies |
| `WorkflowTypes.LastWins` | pkg/workflow/types.go:118-122 | of tasks with the same ID the dependencies of the last one count |
| `WorkflowTypes.RootsInOrder` | pkg/workflow/types.go:106-114 | roots come in the order of the list |
| `WorkflowTypes.Validate` | pkg/workflow/types.go:89-103 | accepted exactly when the list is nonempty and acyclic; only a missing ID is changed; which of the two errors is reported |
| `WorkflowTypes.AcceptedHasRoot` | pkg/workflow/types.go:89-114 | an accepted workflow whose dependencies all name its tasks has a task that can start |
| `DependencyText.PrefilterKeeps` | internal/storage/sqlite/workflows.go:135-149 | the LIKE prefilter never loses a dependent of a task whose ID, as a pattern, matches its own JSON text |
| `DependencyText.PrefilterExact` | internal/storage/sqlite/workflows.go:135-161 | for every ID: one that matches its own JSON text, so any that the encoder leaves alone, is found wherever it is listed; one with a character JSON hides is found nowhere; without quotes and backslashes every ID is one or the other |
| `DependencyText.HiddenNeverMatches` | internal/storage/sqlite/workflows.go:135-149 | a pattern with a character that JSON text never shows matches no text |
| `DependencyText.AngleBracketLost` | internal/storage/sqlite/workflows.go:135-149 | concretely: no task is ever found to depend on one called `a<b` |
| `DependencyText.HiddenMeans` | pkg/workflow/engine.go:355-395 | the hidden characters are those that their own escape does not contain: the control characters, `<`, `>`, `&` and two line separators |
| `DependencyText.LikeIsSearch` | internal/storage/sqlite/workflows.go:135-149 | an ID without `%` is shown exactly if it occurs in the list's text, letter case aside, with `_` standing for any character |
| `DependencyDecoding.DecodeEncode` | internal/storage/sqlite/workflows.go:150-161 | a dependency list read back from its JSON text is the list that was stored, for any IDs |
| `DependencyDecoding.EncodeInjective` | internal/storage/sqlite/workflows.go:150-161 | two lists have the same text exactly if they are the same list |
| `WorkflowState.StorageRoundTrip` | pkg/workflow/engine.go:357-465 | storing and reloading a task keeps all but zero retries (which become three), fractions of a second and the original message; exactly when each is kept; a second round trip changes nothing |
| `WorkflowState.PickNoDup` | internal/storage/sqlite/workflows.go:106-117 | a table scan returns each matching row once |
| `WorkflowStore.Store.GetWFTasks` | internal/storage/sqlite/workflows.go:106-117 | all rows of a workflow, in table order |
| `WorkflowStore.Store.GetDependentWFTasks` | internal/storage/sqlite/workflows.go:135-161 | prefilter then exact filter return exactly the tasks that list the ID and that the prefilter shows, each once, in table order |
| `WorkflowStore.Store.AllDependenciesSatisfied` | internal/storage/sqlite/workflows.go:164-192 | true exactly when every listed dependency is stored and completed; an absent one makes it false |
| `WorkflowEngine.Engine.SubmitWorkflow` | pkg/workflow/engine.go:50-122 | succeeds exactly if the workflow is accepted, its row can be inserted and no task insert fails; tables, bus and outcome are those of the submission function, whichever insert fails |
| `WorkflowEngine.Engine.HandleTaskCompleted` | pkg/workflow/engine.go:126-237 | tables, bus and outcome are those of the completion function, on success, failure and every store fault; what that function leaves in rows and events is stated by `ReportStored`, `FiresExactly`, `AnnouncesExactly`, `AnnouncedResult`, `AssignmentOf` and `CompleteOutcome` |
| `WorkflowEngine.Engine.RecordSuccess` | pkg/workflow/engine.go:155-176 | result first, then status; either write may fail and the handler goes on; field by field in `StepRow` |
| `WorkflowEngine.Engine.FireReady` | pkg/workflow/engine.go:187-227 | exactly the dependents whose dependencies are all completed are fired, in order |
| `WorkflowEngine.Engine.CheckWorkflowCompletion` | pkg/workflow/engine.go:240-332 | announces exactly when every task of the workflow is completed, and then marks it done |
| `WorkflowEngine.Engine.Tally` | pkg/workflow/engine.go:251-284 | whether all rows are completed; if so none is failed and the results are those of the rows that have one |
| `WorkflowEngine.TallyMatches` | pkg/workflow/engine.go:251-284 | the tally over the rows read is the completion test and result map of the tables |
| `WorkflowSteps.InsertedAll` | pkg/workflow/engine.go:93-106 | if all inserts succeed the task IDs were new and distinct, and every task has its pending row |
| `WorkflowSteps.InsertExact` | pkg/workflow/engine.go:93-106 | all inserts succeed exactly if the IDs are distinct and not taken and no insert fails in the driver |
| `WorkflowSteps.SubmitExact` | pkg/workflow/engine.go:50-122 | exactly when a submission succeeds, and exactly when it fails and leaves rows behind: then the workflow is stored as running and nothing is fired |
| `WorkflowProgress.LeftRootNeverStarts` | pkg/workflow/engine.go:93-119 | a root left behind by a failed submission is never assigned, in any run |
| `WorkflowSteps.StepKeeps` | pkg/workflow/engine.go:50-237 | every step keeps the tables consistent, never removes a row, never changes more of a row than status, result and error, and only appends to the bus |
| `WorkflowSteps.StepStatus` | pkg/workflow/engine.go:126-176 | a status changes only by a report about that very task, to completed or failed as it says; new rows are pending |
| `WorkflowSteps.SubmitAssigns` | pkg/workflow/engine.go:107-119 | what a submission fires are its roots, new to the store, and only if its IDs are distinct |
| `WorkflowSteps.CompleteBus` | pkg/workflow/engine.go:178-232 | a completion appends its ready dependents and then at most one announcement |
| `WorkflowSteps.CompleteAnnounces` | pkg/workflow/engine.go:251-317 | an announcement is the last event of a successful completion, for a stored workflow all of whose tasks are completed |
| `WorkflowSteps.AssignmentSafe` | pkg/workflow/engine.go:107-119 | whenever a step assigns a task, every dependency is completed in the store at that moment |
| `WorkflowSteps.StepAssignsOnce` | pkg/workflow/engine.go:187-227 | no step assigns a task twice |
| `WorkflowRuns.RunExtends` | pkg/workflow/engine.go:50-237 | over any run rows and events are never taken back |
| `WorkflowRuns.CompletedSucceeded` | pkg/workflow/engine.go:155-176 | in any run a stored `completed` comes from a successful report of that task |
| `WorkflowRuns.StatusRange` | pkg/workflow/engine.go:140-176 | no run ever stores any status but pending, completed and failed |
| `WorkflowRuns.AssignedDeps` | pkg/workflow/engine.go:187-227 | safety of every run, duplicate reports and failed writes included: an assigned task is stored under its workflow and each of its dependencies had been reported successful |
| `WorkflowRuns.AssignedWhenSatisfied` | internal/storage/sqlite/workflows.go:164-192 | at the step that assigns it, all of a task's dependencies are completed in the store |
| `WorkflowRuns.DanglingNeverStarts` | internal/storage/sqlite/workflows.go:183-189 | a task with a dependency that names no stored task is never assigned, in any run |
| `WorkflowRuns.UnfindableNeverStarts` | internal/storage/sqlite/workflows.go:135-161 | a task none of whose dependencies the prefilter shows is never assigned, even after all are completed |
| `WorkflowRuns.AnswersOnceSuffices` | pkg/kernel/handlers_workflow.go:177-201 | if every report answers an assignment and no assignment is answered twice, reports are truthful and each task is reported at most once |
| `WorkflowRuns.AssignedAtMostOnce` | pkg/workflow/engine.go:187-227 | with at most one report per task, no run assigns a task twice |
| `WorkflowRuns.AnnouncedMembers` | pkg/workflow/engine.go:251-284 | every task of an announced workflow had been reported successful, at any later point of the run too |
| `WorkflowRuns.AnnouncedAtMostOnce` | pkg/workflow/engine.go:240-317 | with at most one report per task, each answering an assignment, no workflow is announced twice |
| `WorkflowRuns.AnnouncedWhenComplete` | pkg/workflow/engine.go:286-317 | an announcement always says `completed`, is made when all tasks are, and carries exactly the stored results |
| `WorkflowRuns.TopologicalAssignment` | pkg/workflow/engine.go:187-227 | the bus lists assignments in a topological order: each dependency was assigned earlier |
| `WorkflowRuns.NothingAfterFailure` | pkg/workflow/engine.go:140-153 | no task from which a dependency path of any length leads to a failed task is ever assigned |
| `WorkflowProgress.LaunchState` | pkg/workflow/engine.go:50-122 | right after a successful submission the workflow's rows are exactly its tasks, all pending, and its roots are on the bus |
| `WorkflowProgress.RowsKeepTasks` | pkg/workflow/engine.go:357-465 | at any later point of a run a task's row, read back, is the submitted task after one round trip |
| `WorkflowProgress.SatisfiedIsFired` | pkg/workflow/engine.go:187-227 | the completion of a task's last open dependency assigns it exactly if the prefilter shows that dependency |
| `WorkflowProgress.SatisfiedIsAssigned` | pkg/workflow/engine.go:187-227 | in every later state a task whose dependencies are all completed, and all shown by the prefilter, has been assigned, unless it is no root and they all were completed at the launch |
| `WorkflowProgress.SatisfiedAtLaunchNeverStarts` | pkg/workflow/engine.go:107-119 | with one report per task, a task that is no root and whose dependencies were all completed at the launch is never assigned |
| `WorkflowExample.LateRunHappens` | pkg/workflow/engine.go:107-119 | a concrete run, by reports that answer assignments once, that launches such a task |
| `WorkflowExample.LateNeverStarts` | pkg/workflow/engine.go:107-119 | in no continuation of that run is the task assigned, if each task is reported at most once |
| `WorkflowProgress.AssignedIffBecameReady` | pkg/workflow/engine.go:107-227 | with one report per task and reads that do not fail, exactly which tasks have been assigned: the roots, and those whose last open dependency was completed after the launch by a report the prefilter shows; where it shows them all, those whose dependencies are completed now and were not at the launch |
| `WorkflowProgress.BlockedSpreads` | pkg/workflow/engine.go:140-153 | what depends on a blocked task is blocked |
| `WorkflowProgress.Progress` | pkg/workflow/engine.go:107-227 | for every launched workflow: while some task is neither completed nor blocked, one such task is assigned and pending, and still unreported if reports are recorded; blocked means downstream of a task that failed, that was missed although its dependencies are completed, or that waits for a task outside the workflow |
| `WorkflowProgress.StuckIsIdle` | pkg/workflow/engine.go:107-227 | with one report per task, a stuck task that did not fail was never assigned |
| `WorkflowProgress.OnlyFailureSticks` | pkg/workflow/engine.go:140-153 | if all dependencies name the workflow's own tasks, under IDs that match their JSON text, a task is stuck exactly if it failed |
| `WorkflowProgress.ReportedSettled` | pkg/workflow/engine.go:140-176 | a recorded report takes its task out of pending for good |
| `WorkflowProgress.AnnouncedIffCompleted` | pkg/workflow/engine.go:251-317 | in every state of a run, a launched workflow has been announced exactly when all its tasks are completed |
| `WorkflowProgress.ReportCount` | pkg/kernel/handlers_workflow.go:177-201 | with at most one report per task the number of reports is the number of reported tasks |
| `WorkflowProgress.LastReportAnnounces` | pkg/workflow/engine.go:178-317 | if all reports succeed, the workflow has been announced exactly when as many reports arrived as it has tasks |
| `WorkflowResults.StepRow` | pkg/workflow/engine.go:126-176 | field by field, what any step does to a stored row: the reported result unless it cannot be encoded (then none) or its write fails (then the old one); status and error unless their write fails; nothing else changes it |
| `WorkflowResults.ReportStored` | pkg/workflow/engine.go:126-176 | with one report per task: at every later point the row holds the result, error and status its report brought, for every fault |
| `WorkflowResults.CompletedBy` | pkg/workflow/engine.go:155-176 | a stored `completed` comes from a successful report that found the stored task and whose status write succeeded |
| `WorkflowResults.AnnouncedResult` | pkg/workflow/engine.go:251-317 | with one report per task: an announcement carries for each task of its workflow the text that task's report carried, exactly if it was encoded and stored, and nothing else |
| `WorkflowResults.WorkflowRowKept` | pkg/workflow/engine.go:71-91 | the stored workflow keeps the name, creator and message it was submitted with, even after a submission that failed half-way |
| `WorkflowResults.AnnouncedTo` | pkg/workflow/engine.go:286-317 | an announcement names the creator and the original message of the submitted workflow |
| `WorkflowResults.DoneIffAnnounced` | pkg/workflow/engine.go:319-329 | a workflow is stored as running or completed, completed only if it was announced, and exactly if it was when status writes succeed |
| `WorkflowResults.CompleteOutcome` | pkg/workflow/engine.go:126-237 | exactly when a report is handled without an error |
| `WorkflowResults.AssignmentOf` | pkg/workflow/engine.go:107-227 | every assignment of a submitted task, root or dependent, in any run, has its workflow, agent, name and description; roots come with the original message, dependents without |
| `WorkflowResults.FiresExactly` | pkg/workflow/engine.go:178-227 | a report assigns a stored task exactly if it is a success that is read, the task lists the reported one and the prefilter shows that, no read of the two fails, and all its dependencies are now completed |
| `WorkflowResults.AnnouncesExactly` | pkg/workflow/engine.go:229-317 | a report announces a workflow exactly if it is a success that is read and names it, no read on the way fails, and all its tasks are now completed |
| `WorkflowResults.SubmitFires` | pkg/workflow/engine.go:107-119 | submitting a template fires nothing; any other successful submission fires as many tasks as it has roots |
| `WorkflowResults.TemplateNeverStarts` | pkg/workflow/engine.go:110-114 | in any run whose reports answer assignments, no task of a stored template whose dependencies all name its own tasks is ever assigned |
| `WorkflowResults.TaskStored` | pkg/workflow/engine.go:357-411 | at any later point the columns of a submitted task are its own |
| `WorkflowResults.OrderKept` | internal/storage/sqlite/workflows.go:106-117 | rows stay in the order in which they were inserted |
| `WorkflowResults.InsertedInOrder` | pkg/workflow/engine.go:93-106 | a submission inserts its tasks in their order, all of them if it succeeds |
| `GraphRenaming.RenamingExact` | pkg/agents/executive_tools.go:205-238 | renaming without merging keeps cyclicity and closedness, both ways |
| `GraphRenaming.RenamedTasks` | pkg/kernel/handlers_workflow.go:222-252 | a renamed task list is accepted, closed and rooted exactly where the original is, and its IDs stay distinct |
| `WorkflowRemap.ParseWorkflow` | pkg/agents/executive_tools.go:195-257 | each step becomes a task with the step's name, work and agent, three retries and no timeout, under a renamed ID and dependencies; unknown dependencies pass through; a scheduled workflow is a template |
| `WorkflowRemap.GeneratedAssignment` | pkg/agents/executive_tools.go:227-237 | in any run, what is assigned of a generated workflow goes to the agent its step names, under the step's name, with the step's work |
| `WorkflowRemap.IDMapInjective` | pkg/agents/executive_tools.go:205-214 | no two steps' IDs are sent to the same new ID, steps without an ID included |
| `WorkflowRemap.ParsingKeepsGraph` | pkg/agents/executive_tools.go:205-238 | tasks have distinct IDs exactly when the steps have; then they are accepted, closed and rooted exactly where the steps are |
| `WorkflowRemap.FreshIDs` | pkg/agents/executive_tools.go:207-229 | a task gets a fresh ID exactly if its step has an ID; a step without one becomes a task without one |
| `WorkflowRemap.DuplicateStepsFail` | pkg/agents/executive_tools.go:205-238 | two steps with the same ID, or two without, make the submission fail, and leave rows behind exactly if the workflow row can be inserted |
| `WorkflowRemap.TwinsLeftBehind` | pkg/agents/executive_tools.go:205-238 | concretely: two equal steps submitted to an empty store that never fails leave a running workflow with one task and nothing assigned |
| `WorkflowRemap.Instantiate` | pkg/kernel/handlers_workflow.go:203-257 | each stored row becomes a task that differs only in the renamed ID and dependencies; the copy is not a template |
| `WorkflowRemap.StoredGraph` | pkg/workflow/engine.go:357-465 | at any later point the stored rows, read back as tasks, form the submitted graph again |
| `WorkflowRemap.InstanceAccepted` | pkg/kernel/handlers_workflow.go:222-256 | instantiating a stored template always gives a workflow that submission accepts, under fresh distinct IDs, closed exactly when the template is, with its roots |
| `WorkflowRemap.InstanceCopies` | pkg/kernel/handlers_workflow.go:222-252 | at any later point of a run, each submitted task has its copy in the instance, and there are no others: equal up to the new names and what the store's round trip changes, a root exactly if it is one |
| `ToolProtocol.SanitizeToolCallSequence` | pkg/message/utils.go:89-153 | computes the piecewise sanitizer; the last kept message is never an unanswered call, so the branch that would keep a stray result is dead |
| `ToolProtocol.PassThrough` | pkg/message/utils.go:97-111 | any message but a call is kept, unless it is a tool result |
| `ToolProtocol.TakeBlock` | pkg/message/utils.go:113-150 | a call with the results after it is kept as a whole exactly if every call ID is answered |
| `ToolProtocol.AllFound` | pkg/message/utils.go:119-142 | true exactly when every call ID is answered; an empty ID never is |
| `ToolProtocol.WellFormedMeans` | pkg/message/utils.go:89-153 | a list is well formed exactly when every call is covered by the tool messages right after it and every tool message follows a call with only tool messages in between |
| `ToolProtocol.SanitizeWellFormed` | pkg/message/utils.go:89-153 | for every list the output is well formed |
| `ToolProtocol.SanitizeFixpoint` | pkg/message/utils.go:89-153 | a list is left alone exactly when it is well formed |
| `ToolProtocol.SanitizeIdempotent` | pkg/message/utils.go:89-153 | sanitizing twice is sanitizing once |
| `ToolProtocol.SanitizeSubsequence` | pkg/message/utils.go:89-153 | the output sits in the input at increasing positions: nothing invented, altered or reordered |
| `ToolProtocol.SanitizeConcat` | pkg/message/utils.go:89-153 | sanitizing distributes over a cut anywhere but before a tool message |
| `ToolProtocol.ContiguousBlock` | pkg/message/utils.go:113-150 | a contiguous block survives verbatim if all calls are answered and vanishes otherwise, whatever surrounds it |
| `ToolProtocol.WellFormedConcat` | pkg/message/utils.go:89-153 | appending to a well-formed list gives one exactly when what is appended is well formed |
| `History.GetHistory` | pkg/message/manager.go:168-217 | converts and sanitizes the rows of the last turns, skipping malformed rows; what it shows of them is stated by `HistoryShows` |
| `History.GetFullHistory` | pkg/message/manager.go:222-249 | leaves out other agents' tool results and takes the history of the rest; which rows these are is stated by `FullViewExact` |
| `History.TurnsPartition` | pkg/message/manager.go:171-184 | the turns concatenate back to the log; each but the first starts with its one user message |
| `History.WindowIsSuffix` | pkg/message/manager.go:186-190 | the window is a suffix with at most ten user messages; if anything is cut it starts with one and has exactly that many |
| `History.WindowKeepsStretches` | pkg/message/manager.go:186-190 | a stretch of rows without a user message after its first row is kept whole or dropped whole |
| `History.HistoryWellFormed` | pkg/message/manager.go:168-201 | history is well formed for every stored log, whichever rows are missing or malformed |
| `History.SurvivorsAnswered` | pkg/message/utils.go:113-150 | a call that survives has a result with its ID, and its ID is not empty |
| `History.ForeignCallsStripped` | pkg/message/manager.go:235-247 | the executive never sees another agent's tool calls, unless one of its own results bears such a call's ID |
| `History.InterleavedBlockLost` | pkg/message/manager.go:235-247 | a call with any other messages stored before its results vanishes, and so do its results unless the last message in between is a call they answer |
| `HistoryContents.HistoryShows` | pkg/message/manager.go:168-217 | row by row and in order: user texts unchanged, notifications in their frame, replies with content, reasoning and the other agent's name exactly if it is another's, results under their call and tool, whole up to 500 characters and abridged beyond; no user text, notification or plain reply is ever left out |
| `HistoryContents.FullViewExact` | pkg/message/manager.go:226-247 | the executive's view has, in order, all rows but other agents' tool results and rows of unknown roles |
| `HistoryContents.UnchangedExactly` | pkg/message/utils.go:71-80 | a result is shown unchanged exactly if it is at most 500 characters long, or repeats the header of its own length over and over |
| `HistoryContents.SelfDescribing` | pkg/message/utils.go:71-80 | concretely: a result of 556 characters that is shown unchanged |
| `HistoryContents.DecimalValue` | pkg/message/utils.go:71-80 | the header of an abridged result gives its full length in decimal |
| `TokenBudget.RoundFits` | pkg/llm/budget.go:13-71 | input, output budget, all result budgets and margin fit the window exactly when input plus margin leave room |
| `TokenBudget.NoResultBudget` | pkg/llm/budget.go:13-71 | the result budget is zero, which the loop reads as no limit, exactly if there is no output ceiling or what it leaves does not give every call a token |
| `TokenBudget.LimitsLargest` | pkg/llm/budget.go:13-71 | with room left, the output limit is the largest that the window and the ceiling allow, and the result limit the largest share of the rest that its own ceiling allows |
| `TokenBudget.LimitWithoutRoom` | pkg/llm/budget.go:13-30 | without room, the output limit is the margin, or the ceiling if that is less |
| `TokenBudget.MarginIsTenth` | pkg/llm/budget.go:5-11 | the margin is a tenth of the window, rounded down |
| `TokenBudget.EstimateTokens` | pkg/llm/budget.go:77-103 | computes the estimate: a quarter of the length, a tenth off for structured text, at least one |
| `TokenBudget.EstimateExact` | pkg/llm/budget.go:77-103 | which texts get the discount, and how large estimate and discount are; only the empty text is free |
| `TokenBudget.StructuralCounts` | pkg/llm/budget.go:88-94 | structural characters are counted one by one |
| `TokenBudget.TruncateToTokens` | pkg/llm/budget.go:107-126 | a prefix estimated within the limit; the text itself exactly when it is within already; else cut at the last word boundary before four characters per token |
| `TokenBudget.TruncateTwice` | pkg/llm/budget.go:107-126 | truncating again changes nothing |
| `ExecutionLoop.Agent.PrepareExecution` | pkg/agents/execution.go:184-230 | system prompt, history (empty if it cannot be read) and the new message, in this order |
| `ExecutionLoop.Agent.RunExecutionLoop` | pkg/agents/execution.go:38-135 | result, every request sent, every row saved and every completion reported are those of the run function; the tool list is as before |
| `ExecutionLoop.Agent.Iterate` | pkg/agents/execution.go:66-134 | one pass ends the run or goes on with one call more, below the iteration limit |
| `ExecutionLoop.Agent.HandleReply` | pkg/agents/execution.go:89-133 | no calls: final answer; too many: synthesis; else one round more; the halt return is dead |
| `ExecutionLoop.Agent.ProcessToolCalls` | pkg/agents/tool_calls.go:21-148 | exactly one result per call in call order on the error, halt and default branches; the rows whose save succeeded; stops at a result that cannot be encoded; never halts |
| `ExecutionLoop.Agent.SynthesizeFromContext` | pkg/agents/execution.go:248-281 | one request without tools; the tool list is put back on every path; an empty answer is replaced |
| `LoopGuarantees.RoundKeepsShape` | pkg/agents/tool_calls.go:35-147 | a round added to a well-formed list keeps it well formed exactly when all its calls have IDs |
| `LoopGuarantees.BaseWellFormed` | pkg/agents/execution.go:209-229 | the list a run starts from is well formed, whatever is stored |
| `LoopGuarantees.RunSendsWellFormed` | pkg/agents/execution.go:55-134 | every list sent to the model in a run, synthesis included, is well formed, for any tools and failures and any model that names its calls |
| `LoopGuarantees.RoundTextsFit` | pkg/agents/tool_calls.go:131-139 | with a positive result budget, input, next output, all result texts of the round and margin fit the window, unless an error or halt text alone exceeds the budget |
| `LoopGuarantees.OthersEscape` | pkg/agents/tool_calls.go:98-139 | a result text is within the budget exactly if the call ran or the text is that short anyway; error and halt texts are the same under every budget |
| `LoopGuarantees.RunBounded` | pkg/agents/execution.go:66-134 | at most the configured iterations plus one synthesis call, and at most the configured number of tool calls processed |
| `LoopGuarantees.RunReturns` | pkg/agents/execution.go:66-134 | a run returns an error or a response, never both or neither; a task is reported once if and only if there is a response |
| `LoopGuarantees.RoundSurvives` | pkg/agents/tool_calls.go:31-33 | once its call row is saved, a round shows in later history completely, if every call has a saved answer, or not at all |
| `LoopGuarantees.ResultsAloneVanish` | pkg/agents/tool_calls.go:31-33 | results whose call row was not saved vanish after an ordinary message |
| `LoopGuarantees.ResultsAloneJoinBlock` | pkg/message/utils.go:113-150 | right after a complete block they are taken for further results of that block |
| `LoopGuarantees.CleanHistory` | pkg/message/manager.go:168-201 | from a log that converts to a well-formed list, history is the last turns verbatim |
| `LoopGuarantees.RunRows` | pkg/agents/tool_calls.go:21-148 | a run stores the rows of its rounds; only a failing run stores a part of one more |
| `LoopGuarantees.NextTurnRemembers` | pkg/message/manager.go:168-201 | when a run answers and all saves succeed, the next turn's history holds its calls and results with nothing dropped |
| `LoopAnswers.RunEnds` | pkg/agents/execution.go:55-134 | of every run, with k the call after its rounds: each round is the reply to its call with each tool call executed once, in order; the answer is the very reply to call k, or a synthesis exactly if no iteration or not enough calls are left, or nothing exactly if the run was cancelled, a model call failed or a result could not be encoded; a task reports the content of that reply; each request is the starting list with the rounds before it, under the limit the last reply leaves, with all tools, and the synthesis request has none |
| `LoopAnswers.RoundShown` | pkg/agents/tool_calls.go:21-148 | a round shows the reply, and for each call, under its ID and tool name, the error, the halt text or the result, whole exactly if it fits the budget and its front otherwise |
| `LoopAnswers.RowsExact` | pkg/agents/tool_calls.go:21-148 | a run stores the rows of its rounds and, if it breaks at a result that cannot be encoded, the call and the results before it |
| `LoopAnswers.RowsOwn` | pkg/agents/tool_calls.go:21-148 | all rows a run stores are the agent's own |
| `LoopAnswers.ResultRemembered` | pkg/message/utils.go:46-61 | a later turn shows a stored result as the run saw it, if it is at most 500 characters long and no error; of an error it shows the stored quote |
| `LoopAnswers.BaseParts` | pkg/agents/execution.go:209-229 | a run starts with the system prompt, then the history, and the new message last |
| `StreamAssembly.CollectToolCalls` | pkg/agents/execution_stream.go:116-160 | usage is that of the first done chunk, or none; an error comes out exactly if an error chunk comes before any done one, and then without text, calls or usage; the callbacks are those of what was read |
| `StreamAssembly.TextLaws` | pkg/agents/execution_stream.go:122-158 | no chunks give no text; each chunk before the end adds its content and its fragments; what follows the end or an error adds nothing |
| `StreamAssembly.TokensRun` | pkg/agents/execution_stream.go:125-130 | the callbacks bring the text piece by piece, each with all text so far |
| `StreamAssembly.OrderGrows` | pkg/agents/execution_stream.go:131-141 | more fragments never reorder or remove a call; a new one comes last |
| `StreamAssembly.Consumed` | pkg/agents/execution_stream.go:122-148 | what is read is the longest prefix without an error that stops after the first done chunk |
| `StreamAssembly.Order` | pkg/agents/execution_stream.go:131-141 | the call IDs are exactly those of the fragments |
| `StreamAssembly.OrderDistinct` | pkg/agents/execution_stream.go:131-141 | the assembled calls have distinct IDs |
| `StreamAssembly.FragmentAfter` | pkg/agents/execution_stream.go:131-141 | a fragment adds its text to its own call only, and names it only if it is the first |
| `StreamAssembly.SplitInvariant` | pkg/agents/execution_stream.go:131-155 | cutting a fragment into two consecutive pieces changes no assembled call, whatever name the second piece has |
| `SessionGrouping.GroupIntoSessions` | pkg/memory/summarize_utils.go:26-70 | computes the left-to-right grouping |
| `SessionGrouping.FoldFaithful` | pkg/memory/summarize_utils.go:26-70 | each session is a run with inner gaps below the limit, its first and last time, and its distinct non-empty agents in first-seen order |
| `SessionGrouping.AgentsOf` | pkg/memory/summarize_utils.go:33-66 | the agents are exactly the non-empty IDs of the run, each once |
| `SessionGrouping.CutExact` | pkg/memory/summarize_utils.go:26-70 | there is exactly one partition into runs with inner gaps below and boundary gaps at least the limit, and the sessions are it |
| `SessionGrouping.SessionsApart` | pkg/memory/summarize_utils.go:47-57 | on ordered messages any two sessions are at least the gap apart |
| `SessionGrouping.GroupCovers` | pkg/memory/summarize_utils.go:26-70 | the sessions cover exactly the instants between two messages less than the gap apart |
| `SessionGrouping.GroupPrefix` | pkg/memory/summarize_utils.go:26-70 | the first k sessions are those of a prefix of the messages, and what follows comes a gap later |
| `SessionWatermark.Summarizer.LastSessionEpisodeEndedAt` | internal/storage/sqlite/episode.go:186-202 | the latest end stored, or the epoch |
| `SessionWatermark.Summarizer.LastMessageBefore` | internal/storage/sqlite/messages.go:106-131 | a latest user or assistant message before the time, if there is any |
| `SessionWatermark.Summarizer.GetMessagesBetween` | internal/storage/sqlite/messages.go:60-98 | the user and assistant messages of the window, in time order |
| `SessionWatermark.SelectExact` | internal/storage/sqlite/messages.go:60-98 | the window read is ordered and holds exactly the messages from the start, inclusive, to the end, exclusive |
| `SessionWatermark.Summarizer.DetectUnprocessedWindow` | pkg/memory/summarize.go:81-104 | a window, from the watermark to a gap ago, exactly when a newer message lies in it |
| `SessionWatermark.Summarizer.SummarizeSessions` | pkg/memory/summarize_session.go:53-91 | stores the window's sessions in order up to the first failure |
| `SessionWatermark.Summarizer.DetectAndSummarizeSessions` | pkg/memory/summarize.go:107-122 | the whole effect of one run on the episodes, whatever fails |
| `WatermarkRuns.RunTidy` | pkg/memory/summarize_session.go:112-139 | in every run episodes are keyed by their start, run forward and follow one another |
| `WatermarkRuns.EpisodesApart` | pkg/memory/summarize_session.go:112-139 | in every run two distinct episodes share at most one instant |
| `WatermarkRuns.Advanced` | pkg/memory/summarize_session.go:53-91 | what a run that stores anything does to watermark and covered instants |
| `WatermarkRuns.WatermarkMoves` | pkg/memory/summarize.go:81-104 | the watermark never falls, and rises when two sessions are stored |
| `WatermarkRuns.PastIsFrozen` | pkg/memory/summarize.go:88-103 | no run changes what is covered before the watermark |
| `WatermarkRuns.MessageFate` | pkg/memory/summarize.go:81-122 | whatever fails and whenever messages arrive, the time of a message up to the watermark is spanned by an episode exactly when it did not arrive behind the watermark or was spanned already |
| `WatermarkRuns.LateMessageLost` | pkg/memory/summarize.go:88-103 | a concrete late message that no continuation ever covers |
| `WatermarkContents.ReadExact` | pkg/memory/summarize_session.go:53-91 | a run summarizes exactly the messages from the old watermark, inclusive, to the new one, if it advances, and none otherwise |
| `WatermarkContents.HeldAfter` | internal/storage/sqlite/episode.go:57-69 | after a run the stored summaries hold what they held and what the run read: an episode that is overwritten loses no message |
| `WatermarkContents.LateNeverRead` | pkg/memory/summarize.go:81-104 | no later run, whatever fails, summarizes a message behind the watermark |
| `WatermarkContents.MessageSummarized` | pkg/memory/summarize.go:81-122 | in every run and continuation: a message that arrives behind the watermark is in no summary unless an equal one was; any other is in a summary once the watermark has moved on to its time |
| `WatermarkContents.SpannedButLost` | pkg/memory/summarize.go:88-103 | a concrete late message that an episode spans for ever and no summary ever holds |
| `WatermarkRuns.EpisodesExact` | pkg/memory/summarize.go:81-122 | with messages on time, an instant is covered exactly when two messages up to the watermark, less than a gap apart, have it between them |
| `WatermarkRuns.PromptIsOnTime` | pkg/memory/summarize.go:88-92 | messages saved within a gap of their timestamp always arrive on time |
| `WatermarkRuns.FoundWindowNotEmpty` | pkg/memory/summarize_session.go:54-62 | a found window always gives a session |
| `WatermarkRuns.SuccessCatchesUp` | pkg/memory/summarize.go:88-103 | after a fully successful run nothing before the cutoff is newer than the watermark, which is a message's time if anything was found; running again at once does nothing |
| `PhaseTimer.NewestIsOwn` | pkg/logger/logger.go:176-189 | a phase on the stack has a running record; the newest is its own exactly if it is not a stray, and always when nothing strays |
| `PhaseTimer.RequestTiming.EndPhase` | pkg/logger/logger.go:146-207 | closes the newest running record, which always exists, so the fallback is dead; drops the entries above; the duration is the phase's own when nothing strays, and nothing strays afterwards exactly if it was on top |
| `PhaseTimer.StrayMisleads` | pkg/logger/logger.go:163-189 | a concrete run in which a phase is given the duration of another that was dropped from the stack |
| `PhaseTimer.AggregatePhases` | pkg/logger/logger.go:401-432 | phases of no category stay, in order; every category becomes one record with total duration, first start and latest end |
| `PhaseTimer.SummaryConserves` | pkg/logger/logger.go:401-442 | the summary's total duration is that of the phases |
| `SecretCache.CachedVault.GetSecret` | pkg/asec/vault/vault.go:74-111 | a found secret is one the vault held since the last write through the cache and less than the time to live ago, even if it changed behind the cache; what is stored and dropped on a miss |
| `SecretCache.CachedVault.EvictOldest` | pkg/asec/vault/vault.go:167-181 | drops one entry of those that expire first, for any order of map iteration, unless the empty key is to expire before all others; then any other entry may go, or none |
| `SecretCache.CachedVault.SetSecret` | pkg/asec/vault/vault.go:119-131 | a successful write drops the cached value; a failed one changes nothing |
| `SecretCache.CachedVault.DeleteSecret` | pkg/asec/vault/vault.go:134-146 | a successful delete drops the cached value; a failed one changes nothing |
| `SecretCache.StoreWithin` | pkg/asec/vault/vault.go:92-101 | storing keeps the cache within its limit as long as the empty key was never stored |
| `SecretCache.LimitExceeded` | pkg/asec/vault/vault.go:92-101 | a store can exceed the limit exactly if the cache is full, the empty key is in it and to expire before all others, and another key is stored |

## Left out

- WorkflowStore.Store.GetDependentWFTasks: its result is that of the exact relation only for IDs the prefilter shows.
- DependencyText.PrefilterExact: an ID with a quote or a backslash that does not match its own JSON text may be found in one list and not in another, because its escapes and the text around it can match by accident; what happens is stated per list (`Shows`, `SatisfiedIsFired`).
- WorkflowState.StorageRoundTrip: the channel, attachment, payload and metadata columns are not modelled, because no branch reads them.
- SessionWatermark.Summarizer.SaveEpisode: of a summary only the messages it was made from are modelled, not its text, embedding and importance; a failing save is the run's `stopAt`.
- SessionWatermark.Summarizer.SaveMessage: a message keeps its time, agent and role only; a message whose save fails never arrives.
- TokenBudget.RoundFits: tokens are compared with text lengths as the code does, one token to a character, in `RoundTextsFit`; the real tokenizer is not modelled.
- ExecutionLoop.Agent.ProcessToolCalls: does not model attachments a tool produced, UI events or metadata, because they feed nothing that is proved here; the `%q` quoting of a stored error is given as data (`storedError`).
- ExecutionLoop.Agent.RunExecutionLoop: ordinary requests carry all of the agent's tools, where the program may send a selected group of them (pkg/agents/skills.go:77-97).
- ExecutionLoop.Agent.PrepareExecution: the new message is plain text; multimodal parts are not modelled.
- SessionWatermark.Summarizer.SummarizeSessions: the earlier session given to the model as context, the summary text, embeddings and importance are not modelled; only which episodes are stored is.
- SecretCache.CachedVault.SetSecret: a write that fails is taken to leave the vault alone; one that fails half-way is a change from outside.
- PhaseTimer.AggregatePhases: the name classification is a parameter, and metadata is not merged, because the merge aliases maps.
- HistoryContents.UnchangedExactly: lengths are in characters where the code counts bytes, so a cut inside a multi-byte character is not modelled.
- DependencyDecoding.DecodeEncode: the decoder takes one escape per character, as the encoder writes; escaped surrogate pairs and white space, which it never writes, are not accepted.
- StreamAssembly.CollectToolCalls: text is a sequence of characters; the provider's own parsing is not part of the model.
- Concurrency: steps of the kernel and operations of the cache are atomic, one agent session runs at a time, and the bus is an unbounded queue. The engine sends on the bus from the goroutine that drains it, so a bounded bus can block; that is not modelled.
- History.GetHistory: the query that selects an agent's own rows is not modelled; the rows are an argument, and the log of an agent that is not the executive holds its own rows only.
- SQL, JSON and drivers: tables are maps with their insertion order, a scan returns rows in that order, and equal timestamps keep insertion order. The tables hold decoded lists, which `DecodeEncode` justifies; a missing list, stored as `null`, is taken as the empty one. Foreign keys and the join with conversations always hold.
- Time is an integer. The stored text form of a time is not order-preserving within a second (pkg/dbtypes/sqltypes.go:26-28); the model is about the order the queries intend.
- Columns and fields that no branch reads: timestamps of rows, channel and attachment data of a workflow, task payload metadata.
- A report of a failed task: only the engine's side is modelled. No agent sends one, since only pkg/agents/execution.go:234-244 reports, and only success.
- Deleting old messages and episodes, and episodes of other scopes than sessions: the watermark reads session episodes only.
- Calendar rollups, nexus entity resolution, recall ranking: driven by model output, floating point and windows that do not tile the calendar.
- Prompts, logging output, HTTP and chat channels, authentication, rate limits, configuration, registries, vault backends: input and output, or one branch.
- Closing a cached vault: it drops the cache map, and a later read is an error of the caller.
