/** What runs deliver: whose result, error and status end up in the tables, what an assignment
    tells its agent, and what an announcement carries and to whom. */
module WorkflowResults {
  import opened Options
  import opened TaskGraph
  import opened WorkflowTypes
  import DependencyText
  import opened WorkflowState
  import opened WorkflowSteps
  import opened WorkflowRuns
  import opened WorkflowProgress

  // ---- what a report leaves in the tables ----

  /** The step is a report of this task, and the store finds the task. */
  ghost predicate ReportRead(a: Action, id: TaskID) {
    Completes(a, id) && !a.f.getTask
  }

  /** Field by field, what one step does to a stored row. The result is replaced by a successful
      report whose result write succeeds, by nothing if the result cannot be encoded; status and
      error by any report whose status write succeeds. Nothing else touches the row. */
  ghost predicate RowAfter(r: TaskRow, r': TaskRow, a: Action, id: TaskID) {
    && r' == r.(status := r'.status, result := r'.result, error := r'.error)
    && r'.status == (if ReportRead(a, id) && !a.f.updateStatus then if a.p.error == "" then Completed else Failed
                     else r.status)
    && r'.error == (if ReportRead(a, id) && !a.f.updateStatus then a.p.error else r.error)
    && r'.result == (if ReportRead(a, id) && a.p.error == "" && !a.f.updateResult
                     then if a.f.marshalResult then None else a.p.result
                     else r.result)
  }

  lemma {:induction false} StepRow(s: State, a: Action, id: TaskID)
    requires Consistent(s.db) && id in s.db.tasks
    ensures id in Step(s, a).db.tasks
    ensures RowAfter(s.db.tasks[id], Step(s, a).db.tasks[id], a, id)
  {
    if a.SubmitAction? {
      hide Submit;
      StepKeeps(s, a);
      SubmitStatus(s, a, id);
    } else {
      CompleteTables(s, a.p, a.f);
      hide Complete, Consistent;
    }
  }

  ghost predicate NeverReported(acts: seq<Action>, from: nat, id: TaskID) {
    forall j :: from <= j < |acts| ==> !Completes(acts[j], id)
  }

  /** A row is left alone until its task is reported again. */
  lemma {:induction false} RowUntouched(acts: seq<Action>, m: nat, id: TaskID)
    requires m <= |acts| && id in Run(acts[..m]).db.tasks && NeverReported(acts, m, id)
    ensures id in Run(acts).db.tasks && Run(acts).db.tasks[id] == Run(acts[..m]).db.tasks[id]
  {
    hide Step, Consistent;
    if m == |acts| {
      assert acts[..m] == acts;
    } else {
      var n := |acts| - 1;
      assert acts[..n][..m] == acts[..m];
      assert NeverReported(acts[..n], m, id);
      RowUntouched(acts[..n], m, id);
      RunConsistent(acts[..n]);
      StepRow(Run(acts[..n]), acts[n], id);
      assert !Completes(acts[n], id);
    }
  }

  lemma {:induction false} UnreportedRow(acts: seq<Action>, id: TaskID)
    requires id in Run(acts).db.tasks && NeverReported(acts, 0, id)
    ensures var r := Run(acts).db.tasks[id]; r.status == Pending && r.result == None && r.error == ""
  {
    var n := |acts| - 1;
    var s := Run(acts[..n]);
    RunConsistent(acts[..n]);
    assert !Completes(acts[n], id);
    assert NeverReported(acts[..n], 0, id);
    if id in s.db.tasks {
      UnreportedRow(acts[..n], id);
      StepRow(s, acts[n], id);
    } else {
      StepStatus(s, acts[n], id);
      NewRow(s, acts[n], id);
    }
  }

  lemma {:induction false} NewRow(s: State, a: Action, id: TaskID)
    requires Consistent(s.db) && a.SubmitAction? && id in Step(s, a).db.tasks && id !in s.db.tasks
    ensures var r := Step(s, a).db.tasks[id]; r.status == Pending && r.result == None && r.error == ""
  {
    var w := WorkflowIDOf(a);
    if Acceptable(a.def.tasks) && !a.f.createWorkflow && w !in s.db.workflows {
      var row := WorkflowRow(w, a.def.name, a.def.createdBy, a.def.originalMessage, WorkflowRunning);
      var db := s.db.(workflows := s.db.workflows[w := row]);
      InsertFacts(db, w, a.def.tasks, a.f);
      assert FreshRow(db, Step(s, a).db.tasks[id], w, a.def.tasks);
    }
  }

  /** With one report per task: what the report of a stored task leaves in its row, at every
      later point of the run and for every fault. */
  lemma {:induction false} ReportStored(acts: seq<Action>, i: nat)
    requires OncePerTask(acts) && i < |acts| && acts[i].CompleteAction? && !acts[i].f.getTask
    requires acts[i].p.taskID in Run(acts[..i]).db.tasks
    ensures var p, f := acts[i].p, acts[i].f;
            p.taskID in Run(acts).db.tasks
            && var r := Run(acts).db.tasks[p.taskID];
               && r.result == (if p.error == "" && !f.updateResult && !f.marshalResult then p.result else None)
               && r.error == (if f.updateStatus then "" else p.error)
               && r.status == (if f.updateStatus then Pending else if p.error == "" then Completed else Failed)
  {
    hide Step, Consistent, Extends, NeverReported, OncePerTask;
    var id := acts[i].p.taskID;
    OnlyReportOf(acts, i);
    UnreportedRow(acts[..i], id);
    OneStep(acts, i);
    StepRow(Run(acts[..i]), acts[i], id);
    RowUntouched(acts, i + 1, id);
  }

  lemma OnlyReportOf(acts: seq<Action>, i: nat)
    requires OncePerTask(acts) && i < |acts| && acts[i].CompleteAction?
    ensures NeverReported(acts[..i], 0, acts[i].p.taskID) && NeverReported(acts, i + 1, acts[i].p.taskID)
  {
    forall j | 0 <= j < |acts| && j != i ensures !Completes(acts[j], acts[i].p.taskID) {
      OnlyOnce(acts, i, j);
    }
  }

  lemma OnlyOnce(acts: seq<Action>, i: nat, j: nat)
    requires OncePerTask(acts) && i < |acts| && j < |acts| && j != i && acts[i].CompleteAction?
    ensures !Completes(acts[j], acts[i].p.taskID)
  {
    if Completes(acts[j], acts[i].p.taskID) && j < i {
      assert Completes(acts[i], acts[j].p.taskID);
    }
  }

  // ---- what the tables hold of a task ----

  /** At any later point the columns of a submitted task are its own: retries default to three,
      and the timeout is in whole seconds. */
  lemma {:induction false} TaskStored(acts: seq<Action>, i: nat, t: TaskDef)
    requires SubmittedOk(acts, i) && t in acts[i].def.tasks
    ensures t.id in Run(acts).db.tasks
    ensures var r := Run(acts).db.tasks[t.id];
            && r.id == t.id && r.workflowID == WorkflowIDOf(acts[i])
            && r.name == t.name && r.description == t.description && r.kind == t.kind
            && r.dependsOn == t.dependsOn && r.agent == t.agent
            && r.maxRetries == (if t.maxRetries == 0 then 3 else t.maxRetries)
            && (t.timeout >= 0 ==> 0 <= t.timeout - r.timeoutSeconds * 1_000_000_000 < 1_000_000_000)
  {
    hide Consistent, Submit, Step;
    LaunchedAt(acts, i, i + 1);
    LaunchState(acts[..i + 1], i);
    assert acts[..i + 1][..i] == acts[..i];
    assert Stored(Run(acts[..i]).db, Run(acts[..i + 1]).db, t, WorkflowIDOf(acts[i]));
    RunExtends(acts, i + 1);
  }

  // ---- the order of rows ----

  /** Rows stay in the order in which they were inserted; a scan returns them in this order. */
  lemma {:induction false} OrderKept(acts: seq<Action>, n: nat)
    requires n <= |acts|
    ensures Run(acts[..n]).db.order <= Run(acts).db.order
  {
    if n == |acts| {
      assert acts[..n] == acts;
    } else {
      var m := |acts| - 1;
      assert acts[..m][..n] == acts[..n];
      OrderKept(acts[..m], n);
      RunConsistent(acts[..m]);
      StepOrder(Run(acts[..m]), acts[m]);
    }
  }

  lemma {:induction false} StepOrder(s: State, a: Action)
    requires Consistent(s.db)
    ensures s.db.order <= Step(s, a).db.order
  {
    if a.SubmitAction? {
      var w := WorkflowIDOf(a);
      var row := WorkflowRow(w, a.def.name, a.def.createdBy, a.def.originalMessage, WorkflowRunning);
      var n := InsertedInOrder(s.db.(workflows := s.db.workflows[w := row]), w, a.def.tasks, a.f);
    } else {
      CompleteTables(s, a.p, a.f);
    }
  }

  /** A submission inserts its tasks in their order, all of them if it succeeds. */
  lemma {:induction false} InsertedInOrder(db: Tables, w: string, tasks: seq<TaskDef>, f: Faults) returns (n: nat)
    ensures n <= |tasks| && (InsertTasks(db, w, tasks, f).ok ==> n == |tasks|)
    ensures InsertTasks(db, w, tasks, f).db.order == db.order + seq(n, i requires 0 <= i < n => tasks[i].id)
  {
    n := 0;
    if tasks != [] {
      var m := |tasks| - 1;
      n := InsertedInOrder(db, w, tasks[..m], f);
      if InsertTasks(db, w, tasks, f).ok {
        n := |tasks|;
      }
    }
  }

  // ---- what an announcement carries ----

  /** A stored "completed" comes from a successful report that found the stored task. */
  lemma {:induction false} CompletedBy(acts: seq<Action>, id: TaskID) returns (i: nat)
    requires IsCompleted(Run(acts).db, id)
    ensures i < |acts| && ReportRead(acts[i], id) && acts[i].p.error == "" && !acts[i].f.updateStatus
    ensures id in Run(acts[..i]).db.tasks
  {
    var n := |acts| - 1;
    var s := Run(acts[..n]);
    RunConsistent(acts[..n]);
    StepStatus(s, acts[n], id);
    if IsCompleted(s.db, id) {
      i := CompletedBy(acts[..n], id);
      assert acts[..n][..i] == acts[..i];
    } else {
      StepRow(s, acts[n], id);
      i := n;
    }
  }

  lemma {:induction false} CompletedResult(acts: seq<Action>, id: TaskID) returns (i: nat)
    requires OncePerTask(acts) && IsCompleted(Run(acts).db, id)
    ensures i < |acts| && Completes(acts[i], id) && acts[i].p.error == ""
    ensures var p, f := acts[i].p, acts[i].f;
            Run(acts).db.tasks[id].result == if !f.updateResult && !f.marshalResult then p.result else None
  {
    i := CompletedBy(acts, id);
    ReportStored(acts, i);
  }

  /** The event carries, for this task, the text its report carried, if there was one and it
      could be encoded and stored. */
  ghost predicate CarriesResult(e: BusEvent, t: TaskID, a: Action)
    requires e.WorkflowCompleted? && a.CompleteAction?
  {
    && (t in e.results <==> a.p.result.Some? && !a.f.marshalResult && !a.f.updateResult)
    && (t in e.results ==> e.results[t] == a.p.result.value)
  }

  /** With one report per task, an announcement carries for each task of its workflow the text
      of that task's report, and nothing else. */
  lemma {:induction false} AnnouncedResult(acts: seq<Action>, k: nat, t: TaskID) returns (i: nat)
    requires OncePerTask(acts) && k < |Run(acts).bus| && Run(acts).bus[k].WorkflowCompleted?
    requires t in MemberSet(Run(acts).db, Run(acts).bus[k].workflowID) || t in Run(acts).bus[k].results
    ensures t in MemberSet(Run(acts).db, Run(acts).bus[k].workflowID)
    ensures i < |acts| && Completes(acts[i], t) && acts[i].p.error == ""
    ensures CarriesResult(Run(acts).bus[k], t, acts[i])
  {
    hide Consistent, Step, ResultsOf;
    var n := |acts| - 1;
    var s, s', w := Run(acts[..n]), Run(acts), Run(acts).bus[k].workflowID;
    RunConsistent(acts[..n]);
    StepKeeps(s, acts[n]);
    if k < |s.bus| {
      PrefixEnvironment(acts, n);
      AnnouncedMembers(acts[..n], k, t);
      if t in MemberSet(s'.db, w) {
        MemberBefore(acts, t, w);
      }
      i := AnnouncedResult(acts[..n], k, t);
    } else {
      CompleteAnnounces(s, acts[n], k);
      MembersOnly(s'.db, w, t);
      i := CompletedResult(acts, t);
      ResultCarried(s'.db, w, t);
    }
  }

  lemma MembersOnly(db: Tables, w: string, t: TaskID)
    ensures t in ResultsOf(db, w) ==> t in MemberSet(db, w)
  {
  }

  lemma ResultCarried(db: Tables, w: string, t: TaskID)
    requires t in MemberSet(db, w)
    ensures t in ResultsOf(db, w) <==> db.tasks[t].result.Some?
    ensures t in ResultsOf(db, w) ==> ResultsOf(db, w)[t] == db.tasks[t].result.value
  {
  }

  /** No step adds a task to a workflow that is stored already. */
  lemma {:induction false} MemberBefore(acts: seq<Action>, t: TaskID, w: string)
    requires acts != [] && w in Run(acts[..|acts| - 1]).db.workflows && t in MemberSet(Run(acts).db, w)
    ensures t in MemberSet(Run(acts[..|acts| - 1]).db, w)
  {
    var n := |acts| - 1;
    RunConsistent(acts[..n]);
    StepKeeps(Run(acts[..n]), acts[n]);
    StepStatus(Run(acts[..n]), acts[n], t);
    if t !in Run(acts[..n]).db.tasks {
      SubmitStatus(Run(acts[..n]), acts[n], t);
    }
  }

  // ---- the workflow's own row ----

  /** Name, creator and message of a stored workflow never change. */
  ghost predicate SameWorkflow(r: WorkflowRow, r': WorkflowRow) {
    r' == r.(status := r'.status)
  }

  lemma {:induction false} WorkflowKept(s: State, a: Action, w: string)
    requires Consistent(s.db) && w in s.db.workflows
    ensures w in Step(s, a).db.workflows && SameWorkflow(s.db.workflows[w], Step(s, a).db.workflows[w])
    ensures Step(s, a).db.workflows[w].status != s.db.workflows[w].status ==>
              Step(s, a).db.workflows[w].status == WorkflowDone
  {
    if a.SubmitAction? {
      SubmittedWorkflow(s, a);
    } else {
      hide Ready, AssignEvents, Pick, ResultsOf;
      assert Recorded(s.db, a.p, a.f).workflows == s.db.workflows;
    }
  }

  lemma {:induction false} SubmittedWorkflow(s: State, a: Action)
    requires Consistent(s.db) && a.SubmitAction?
    ensures var w, db' := WorkflowIDOf(a), Step(s, a).db;
            && (forall v :: v in s.db.workflows ==> v in db'.workflows && db'.workflows[v] == s.db.workflows[v])
            && (forall v :: v in db'.workflows && v !in s.db.workflows ==>
                  v == w && db'.workflows[w] ==
                            WorkflowRow(w, a.def.name, a.def.createdBy, a.def.originalMessage, WorkflowRunning))
            && (Begins(s, a.def, a.freshID, a.f) ==> w in db'.workflows && w !in s.db.workflows)
  {
    var w := WorkflowIDOf(a);
    if Acceptable(a.def.tasks) && !a.f.createWorkflow && w !in s.db.workflows {
      var row := WorkflowRow(w, a.def.name, a.def.createdBy, a.def.originalMessage, WorkflowRunning);
      InsertFacts(s.db.(workflows := s.db.workflows[w := row]), w, a.def.tasks, a.f);
    }
  }

  /** At any later point the row of a submitted workflow has the definition's name, creator and
      message, even if the submission failed half-way. */
  lemma {:induction false} WorkflowRowKept(acts: seq<Action>, i: nat)
    requires i < |acts| && acts[i].SubmitAction?
    requires Begins(Run(acts[..i]), acts[i].def, acts[i].freshID, acts[i].f)
    ensures var db, w, def := Run(acts).db, WorkflowIDOf(acts[i]), acts[i].def;
            w in db.workflows
            && SameWorkflow(WorkflowRow(w, def.name, def.createdBy, def.originalMessage, WorkflowRunning), db.workflows[w])
  {
    var n := |acts| - 1;
    RunConsistent(acts[..n]);
    if n == i {
      SubmittedWorkflow(Run(acts[..i]), acts[i]);
    } else {
      assert acts[..n][..i] == acts[..i];
      WorkflowRowKept(acts[..n], i);
      WorkflowKept(Run(acts[..n]), acts[n], WorkflowIDOf(acts[i]));
    }
  }

  lemma {:induction false} StepAnnounces(s: State, a: Action, k: int)
    requires Consistent(s.db) && |s.bus| <= k < |Step(s, a).bus| && Step(s, a).bus[k].WorkflowCompleted?
    ensures var e := Step(s, a).bus[k];
            && e.workflowID in s.db.workflows
            && e.createdBy == s.db.workflows[e.workflowID].createdBy
            && e.message == s.db.workflows[e.workflowID].originalMessage
  {
    CompleteAnnounces(s, a, k);
    hide Ready, AllCompleted, ResultsOf, Pick;
    var fired, tail := CompleteBus(s, a.p, a.f);
    ThreeParts(s.bus, AssignEvents(Recorded(s.db, a.p, a.f), fired), tail, k);
  }

  /** An announcement goes to the creator of the workflow and quotes the message it was made for. */
  lemma {:induction false} AnnouncedTo(acts: seq<Action>, i: nat, k: nat)
    requires i < |acts| && acts[i].SubmitAction?
    requires Begins(Run(acts[..i]), acts[i].def, acts[i].freshID, acts[i].f)
    requires k < |Run(acts).bus| && Run(acts).bus[k].WorkflowCompleted?
    requires Run(acts).bus[k].workflowID == WorkflowIDOf(acts[i])
    ensures Run(acts).bus[k].createdBy == acts[i].def.createdBy
    ensures Run(acts).bus[k].message == acts[i].def.originalMessage
  {
    hide Consistent, Step;
    var n := |acts| - 1;
    RunConsistent(acts[..n]);
    StepKeeps(Run(acts[..n]), acts[n]);
    if n == i {
      if k < |Run(acts[..i]).bus| {
        AnnouncedMembers(acts[..i], k, TaskID(""));
      } else {
        StepAnnounces(Run(acts[..i]), acts[i], k);
      }
    } else {
      assert acts[..n][..i] == acts[..i];
      if k < |Run(acts[..n]).bus| {
        AnnouncedTo(acts[..n], i, k);
      } else {
        WorkflowRowKept(acts[..n], i);
        StepAnnounces(Run(acts[..n]), acts[n], k);
      }
    }
  }

  /** The events after `bus` announce the workflow. */
  ghost predicate Announces(bus: seq<BusEvent>, longer: seq<BusEvent>, w: string) {
    exists k :: |bus| <= k < |longer| && longer[k].WorkflowCompleted? && longer[k].workflowID == w
  }

  lemma {:induction false} StepDone(s: State, a: Action, w: string)
    requires Consistent(s.db) && w in s.db.workflows
    ensures w in Step(s, a).db.workflows
    ensures Step(s, a).db.workflows[w].status ==
            if Announces(s.bus, Step(s, a).bus, w) && !a.f.updateWorkflow then WorkflowDone
            else s.db.workflows[w].status
  {
    WorkflowKept(s, a, w);
    if a.SubmitAction? {
      SubmittedWorkflow(s, a);
      forall k | |s.bus| <= k < |Step(s, a).bus| ensures Step(s, a).bus[k].TaskAssigned? {
        SubmitAssigns(s, a, k);
      }
    } else {
      CompleteDone(s, a.p, a.f, w);
    }
  }

  lemma {:induction false} CompleteDone(s: State, p: Payload, f: Faults, w: string)
    requires Consistent(s.db) && w in s.db.workflows && w in Complete(s, p, f).0.db.workflows
    ensures Complete(s, p, f).0.db.workflows[w].status ==
            if Announces(s.bus, Complete(s, p, f).0.bus, w) && !f.updateWorkflow then WorkflowDone
            else s.db.workflows[w].status
  {
    hide Ready, AllCompleted, ResultsOf, Pick, RecordedRow;
    var db := Recorded(s.db, p, f);
    if !f.getTask && p.taskID in s.db.tasks && p.error == "" && !f.getDependents {
      var mid := s.bus + AssignEvents(db, Pick(db.order, Ready(db, p.taskID, f)));
      CheckDone(State(db, mid), p.workflowID, f, w);
      var bus := CheckCompletion(State(db, mid), p.workflowID, f).0.bus;
      assert forall k :: |s.bus| <= k < |mid| ==> bus[k] == mid[k] && mid[k].TaskAssigned?;
      assert Announces(mid, bus, w) ==> Announces(s.bus, bus, w);
    }
  }

  lemma {:induction false} CheckDone(s: State, workflowID: string, f: Faults, w: string)
    requires w in s.db.workflows
    ensures var s' := CheckCompletion(s, workflowID, f).0;
            && w in s'.db.workflows && s.bus <= s'.bus
            && s'.db.workflows[w].status == if Announces(s.bus, s'.bus, w) && !f.updateWorkflow then WorkflowDone
                                            else s.db.workflows[w].status
  {
    hide AllCompleted, ResultsOf;
    var s' := CheckCompletion(s, workflowID, f).0;
    if |s'.bus| > |s.bus| {
      assert s'.bus[|s.bus|].WorkflowCompleted?;
    }
  }

  /** Status writes of workflows do not fail. */
  ghost predicate StatusWritten(acts: seq<Action>) {
    forall j :: 0 <= j < |acts| ==> !acts[j].f.updateWorkflow
  }

  /** A workflow is stored as running or done; done only if it was announced, and if status
      writes succeed exactly if it was. */
  lemma {:induction false} DoneIffAnnounced(acts: seq<Action>, w: string)
    requires w in Run(acts).db.workflows
    ensures var s := Run(acts);
            && s.db.workflows[w].status in {WorkflowRunning, WorkflowDone}
            && (s.db.workflows[w].status == WorkflowDone ==> Announced(s.bus, w))
            && (StatusWritten(acts) && Announced(s.bus, w) ==> s.db.workflows[w].status == WorkflowDone)
  {
    hide Consistent, Step;
    var n := |acts| - 1;
    var s, s' := Run(acts[..n]), Run(acts);
    RunConsistent(acts[..n]);
    StepKeeps(s, acts[n]);
    AnnouncedStep(s.bus, s'.bus, w);
    if w in s.db.workflows {
      DoneIffAnnounced(acts[..n], w);
      StepDone(s, acts[n], w);
    } else {
      NewWorkflow(acts, w);
    }
  }

  lemma AnnouncedStep(bus: seq<BusEvent>, longer: seq<BusEvent>, w: string)
    requires bus <= longer
    ensures Announced(longer, w) <==> Announced(bus, w) || Announces(bus, longer, w)
  {
    if Announced(bus, w) {
      StaysAnnounced(bus, longer, w);
    }
  }

  lemma {:induction false} NewWorkflow(acts: seq<Action>, w: string)
    requires acts != [] && w in Run(acts).db.workflows && w !in Run(acts[..|acts| - 1]).db.workflows
    ensures Run(acts).db.workflows[w].status == WorkflowRunning && !Announced(Run(acts).bus, w)
  {
    var n := |acts| - 1;
    var s := Run(acts[..n]);
    RunConsistent(acts[..n]);
    StepKeeps(s, acts[n]);
    if acts[n].SubmitAction? {
      SubmittedWorkflow(s, acts[n]);
    } else {
      CompleteTables(s, acts[n].p, acts[n].f);
    }
    forall k | 0 <= k < |Run(acts).bus| && Run(acts).bus[k].WorkflowCompleted?
      ensures Run(acts).bus[k].workflowID != w {
      if k < |s.bus| {
        AnnouncedMembers(acts[..n], k, TaskID(""));
      } else {
        SubmitAssigns(s, acts[n], k);
      }
    }
  }

  /** When a completion report is handled without an error. */
  lemma {:induction false} CompleteOutcome(s: State, p: Payload, f: Faults)
    requires Consistent(s.db)
    ensures Complete(s, p, f).1 == Ok <==>
              && !f.getTask && p.taskID in s.db.tasks
              && (p.error == "" ==>
                    && !f.getDependents && !f.getTasks
                    && (AllCompleted(Complete(s, p, f).0.db, p.workflowID) ==>
                          !f.getWorkflow && p.workflowID in s.db.workflows))
    ensures Complete(s, p, f).1 != InvalidWorkflow
  {
    CompleteTables(s, p, f);
    if !f.getTask && p.taskID in s.db.tasks {
      SameTasksSameAnswer(Recorded(s.db, p, f), Complete(s, p, f).0.db, p.taskID, p.workflowID);
    }
  }

  // ---- what an assignment tells its agent ----

  /** The assignment is of this task: its workflow, agent, name and description. */
  ghost predicate AssignsTask(e: BusEvent, t: TaskDef, w: string) {
    && e.TaskAssigned? && e.taskID == t.id && e.workflowID == w
    && e.agent == t.agent && e.name == t.name && e.task == t.description
  }

  /** A submission assigns its roots as they were submitted, with their original messages. */
  lemma {:induction false} RootAssigned(s: State, a: Action, t: TaskDef, k: int)
    requires Consistent(s.db) && a.SubmitAction? && |s.bus| <= k < |Step(s, a).bus|
    requires t in a.def.tasks && Step(s, a).bus[k].TaskAssigned? && Step(s, a).bus[k].taskID == t.id
    ensures AssignsTask(Step(s, a).bus[k], t, WorkflowIDOf(a))
    ensures t.dependsOn == [] && Step(s, a).bus[k].message == t.originalMessage
  {
    SubmitAssigns(s, a, k);
    var roots := Roots(a.def.tasks);
    var root := roots[k - |s.bus|];
    assert root in roots;
    var i :| 0 <= i < |a.def.tasks| && a.def.tasks[i] == t;
    var j :| 0 <= j < |a.def.tasks| && a.def.tasks[j] == root;
  }

  lemma {:induction false} DependentAssigned(s: State, a: Action, k: int)
    requires Consistent(s.db) && a.CompleteAction? && |s.bus| <= k < |Step(s, a).bus|
    requires Step(s, a).bus[k].TaskAssigned?
    ensures var e := Step(s, a).bus[k];
            && e.taskID in s.db.tasks && s.db.tasks[e.taskID].dependsOn != [] && e.message == ""
            && AssignsTask(e, StorageToTaskDef(s.db.tasks[e.taskID]), s.db.tasks[e.taskID].workflowID)
  {
    hide Pick, AllCompleted, ResultsOf, RecordedRow;
    var db := Recorded(s.db, a.p, a.f);
    RecordedShape(s.db, a.p, a.f, a.p.taskID);
    var fired, tail := CompleteBus(s, a.p, a.f);
    ThreeParts(s.bus, AssignEvents(db, fired), tail, k);
    assert fired[k - |s.bus|] in Ready(db, a.p.taskID, a.f);
  }

  /** Every assignment of a submitted task, in any run, names the agent, the task and the work
      as they were submitted. Roots come with the original message, dependents without one. */
  lemma {:induction false} AssignmentOf(acts: seq<Action>, i: nat, t: TaskDef, k: nat)
    requires SubmittedOk(acts, i) && t in acts[i].def.tasks
    requires k < |Run(acts).bus| && Run(acts).bus[k].TaskAssigned? && Run(acts).bus[k].taskID == t.id
    ensures AssignsTask(Run(acts).bus[k], t, WorkflowIDOf(acts[i]))
    ensures Run(acts).bus[k].message == if t.dependsOn == [] then t.originalMessage else ""
  {
    hide Consistent, Step, Submit;
    var n := |acts| - 1;
    var s, w := Run(acts[..n]), WorkflowIDOf(acts[i]);
    RunConsistent(acts[..n]);
    StepKeeps(s, acts[n]);
    if n == i {
      LaunchState(acts, i);
      assert acts[..n] == acts[..i];
      assert Stored(s.db, Run(acts).db, t, w);
      if k < |s.bus| {
        AssignedDeps(acts[..n], k);
      } else {
        RootAssigned(s, acts[n], t, k);
      }
    } else {
      LaunchPrefix(acts, i);
      if k < |s.bus| {
        AssignmentOf(acts[..n], i, t, k);
      } else {
        RowsKeepTasks(acts[..n], i, t);
        LaunchedRows(acts[..n], i);
        if acts[n].SubmitAction? {
          SubmitAssigns(s, acts[n], k);
        } else {
          DependentAssigned(s, acts[n], k);
          MemberOf(s.db, acts[i].def.tasks, t, w);
        }
      }
    }
  }

  lemma MemberOf(db: Tables, tasks: seq<TaskDef>, t: TaskDef, w: string)
    requires MemberSet(db, w) == TaskIDs(tasks) && t in tasks
    ensures t.id in db.tasks && db.tasks[t.id].workflowID == w
  {
    assert t.id in TaskIDs(tasks);
  }

  // ---- exactly what one report fires ----

  /** The report is a success that is read, the task lists the reported one, the prefilter shows
      that, no read of the two fails, and now all the task's dependencies are completed. */
  ghost predicate Due(s: State, p: Payload, f: Faults, t: TaskID)
    requires t in s.db.tasks
  {
    var deps := s.db.tasks[t].dependsOn;
    && !f.getTask && p.taskID in s.db.tasks && p.error == "" && !f.getDependents && t !in f.dependencyCheck
    && p.taskID in deps && DependencyText.Shows(deps, p.taskID)
    && forall d :: d in deps ==> IsCompleted(Complete(s, p, f).0.db, d)
  }

  /** A report assigns exactly the stored tasks that are due. */
  lemma {:induction false} FiresExactly(s: State, p: Payload, f: Faults, t: TaskID)
    requires Consistent(s.db) && t in s.db.tasks
    ensures NewlyAssigned(s.bus, Complete(s, p, f).0.bus, s.db.tasks[t].workflowID, t) <==> Due(s, p, f, t)
  {
    hide *;
    ReadyIfDue(s, p, f, t);
    if Due(s, p, f, t) {
      ReadyIsFired(s, p, f, t);
    }
    if NewlyAssigned(s.bus, Complete(s, p, f).0.bus, s.db.tasks[t].workflowID, t) {
      FiredIsReady(s, p, f, t);
    }
  }

  lemma {:induction false} ReadyIfDue(s: State, p: Payload, f: Faults, t: TaskID)
    requires Consistent(s.db) && t in s.db.tasks
    ensures Due(s, p, f, t) <==>
              && !f.getTask && p.taskID in s.db.tasks && p.error == "" && !f.getDependents
              && t in Ready(Recorded(s.db, p, f), p.taskID, f)
  {
    RecordedShape(s.db, p, f, t);
    CompleteTables(s, p, f);
    hide Complete, Consistent, Recorded;
    if !f.getTask && p.taskID in s.db.tasks {
      SameTasksSameAnswer(Recorded(s.db, p, f), Complete(s, p, f).0.db, t, "");
      SatisfiedMeans(Complete(s, p, f).0.db, t);
      hide Satisfied;
    }
  }

  lemma SatisfiedMeans(db: Tables, t: TaskID)
    requires t in db.tasks
    ensures Satisfied(db, t) <==> forall d :: d in db.tasks[t].dependsOn ==> IsCompleted(db, d)
  {
    var deps := db.tasks[t].dependsOn;
    if Satisfied(db, t) {
      forall d | d in deps ensures IsCompleted(db, d) {
        var i :| 0 <= i < |deps| && deps[i] == d;
        assert IsCompleted(db, deps[i]);
      }
    }
  }

  lemma {:induction false} FiredIsReady(s: State, p: Payload, f: Faults, t: TaskID)
    requires Consistent(s.db) && t in s.db.tasks
    requires NewlyAssigned(s.bus, Complete(s, p, f).0.bus, s.db.tasks[t].workflowID, t)
    ensures !f.getTask && p.taskID in s.db.tasks && p.error == "" && !f.getDependents
    ensures t in Ready(Recorded(s.db, p, f), p.taskID, f)
  {
    hide Complete, Consistent, Recorded, Ready, Pick, AllCompleted, ResultsOf;
    var k :| |s.bus| <= k && AssignedAt(Complete(s, p, f).0.bus, k, s.db.tasks[t].workflowID, t);
    var fired, tail := CompleteBus(s, p, f);
    FiredOnly(s, p, f, fired, tail, k);
  }

  /** What is assigned is ready, and something was fired at all. */
  lemma {:induction false} FiredOnly(s: State, p: Payload, f: Faults, fired: seq<TaskID>, tail: seq<BusEvent>, k: int)
    requires Consistent(s.db) && |s.bus| <= k < |Complete(s, p, f).0.bus|
    requires Complete(s, p, f).0.bus[k].TaskAssigned?
    requires forall t :: t in fired ==> t in Ready(Recorded(s.db, p, f), p.taskID, f)
    requires Complete(s, p, f).0.bus == s.bus + AssignEvents(Recorded(s.db, p, f), fired) + tail
    requires forall i :: 0 <= i < |tail| ==> tail[i].WorkflowCompleted?
    requires fired != [] ==> !f.getTask && p.taskID in s.db.tasks && p.error == "" && !f.getDependents
    ensures Complete(s, p, f).0.bus[k].taskID in Ready(Recorded(s.db, p, f), p.taskID, f)
    ensures !f.getTask && p.taskID in s.db.tasks && p.error == "" && !f.getDependents
  {
    var db := Recorded(s.db, p, f);
    RecordedShape(s.db, p, f, p.taskID);
    ThreeParts(s.bus, AssignEvents(db, fired), tail, k);
    assert fired[k - |s.bus|] in Ready(db, p.taskID, f);
    hide Ready, Recorded, AllCompleted, ResultsOf, Pick;
  }

  /** A report announces a workflow exactly if it is a success that is read, names the workflow,
      no read of the dependents, the tasks or the workflow fails, and now all tasks are completed. */
  lemma {:induction false} AnnouncesExactly(s: State, p: Payload, f: Faults, w: string)
    requires Consistent(s.db)
    ensures var s' := Complete(s, p, f).0;
            Announces(s.bus, s'.bus, w) <==>
              && !f.getTask && p.taskID in s.db.tasks && p.error == "" && p.workflowID == w
              && !f.getDependents && !f.getTasks && !f.getWorkflow
              && w in s.db.workflows && AllCompleted(s'.db, w)
  {
    hide Ready, AllCompleted, ResultsOf, Pick, RecordedRow;
    var db, s' := Recorded(s.db, p, f), Complete(s, p, f).0;
    CompleteTables(s, p, f);
    if !f.getTask && p.taskID in s.db.tasks && p.error == "" && !f.getDependents {
      SameTasksSameAnswer(db, s'.db, p.taskID, p.workflowID);
      var mid := s.bus + AssignEvents(db, Pick(db.order, Ready(db, p.taskID, f)));
      assert s' == CheckCompletion(State(db, mid), p.workflowID, f).0;
      assert forall k :: |s.bus| <= k < |mid| ==> s'.bus[k] == mid[k] && mid[k].TaskAssigned?;
      assert |s'.bus| > |mid| ==> s'.bus[|mid|].WorkflowCompleted?;
    }
  }

  // ---- templates ----

  /** Submitting a template fires nothing; any other submission that succeeds fires its roots. */
  lemma {:induction false} SubmitFires(s: State, def: Definition, freshID: string, f: Faults)
    requires Consistent(s.db)
    ensures def.isTemplate ==> Submit(s, def, freshID, f).0.bus == s.bus
    ensures !def.isTemplate && Submit(s, def, freshID, f).1 == Ok ==>
              |Submit(s, def, freshID, f).0.bus| == |s.bus| + |Roots(def.tasks)|
  {
  }

  /** No task of a stored template whose dependencies all name its own tasks is ever assigned, as
      long as reports answer assignments. */
  lemma {:induction false} TemplateNeverStarts(acts: seq<Action>, i: nat, t: TaskDef, k: nat)
    requires SubmittedOk(acts, i) && acts[i].def.isTemplate && Truthful(acts)
    requires t in acts[i].def.tasks && Closed(GraphOf(acts[i].def.tasks))
    requires k < |Run(acts).bus| && Run(acts).bus[k].TaskAssigned?
    ensures Run(acts).bus[k].taskID != t.id
    decreases k
  {
    if Run(acts).bus[k].taskID == t.id {
      LaunchedRows(acts, i);
      LaunchAccepted(acts, i);
      if t.dependsOn == [] {
        TemplateRootNeverStarts(acts, i, t, k);
      } else {
        var d := OwnDependency(acts[i].def.tasks, t);
        var j := TopologicalAssignment(acts, k, d.id);
        TemplateNeverStarts(acts, i, d, j);
      }
      assert false;
    }
  }

  lemma {:induction false} TemplateRootNeverStarts(acts: seq<Action>, i: nat, t: TaskDef, k: nat)
    requires SubmittedOk(acts, i) && acts[i].def.isTemplate && t in acts[i].def.tasks && t.dependsOn == []
    requires k < |Run(acts).bus| && Run(acts).bus[k].TaskAssigned?
    ensures Run(acts).bus[k].taskID != t.id
  {
    hide Consistent, Submit, Step;
    var n := |acts| - 1;
    OneStep(acts, n);
    assert acts[..n + 1] == acts;
    if n == i {
      SubmitFiresNothing(acts, i);
      LaunchState(acts, i);
      assert Stored(Run(acts[..i]).db, Run(acts).db, t, WorkflowIDOf(acts[i]));
      AssignedDeps(acts[..i], k);
    } else if k < |Run(acts[..n]).bus| {
      LaunchPrefix(acts, i);
      RunExtends(acts, n);
      TemplateRootNeverStarts(acts[..n], i, t, k);
    } else {
      LaunchedAt(acts, i, i + 1);
      LaunchedRows(acts[..i + 1], i);
      NothingFiresRoot(acts, i, t.id, k);
    }
  }

  lemma {:induction false} SubmitFiresNothing(acts: seq<Action>, i: nat)
    requires SubmittedOk(acts, i) && acts[i].def.isTemplate && |acts| == i + 1
    ensures Run(acts).bus == Run(acts[..i]).bus
  {
    assert acts[..|acts| - 1] == acts[..i];
    RunConsistent(acts[..i]);
    SubmitFires(Run(acts[..i]), acts[i].def, acts[i].freshID, acts[i].f);
  }
}
