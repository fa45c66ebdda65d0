/** Liveness of a launched workflow: it never gets stuck, and it is announced exactly when
    its last task completes. */
module WorkflowProgress {
  import opened TaskGraph
  import opened WorkflowTypes
  import DependencyText
  import opened WorkflowState
  import opened WorkflowSteps
  import opened WorkflowRuns

  /** Action `i` submits a workflow or a template and the submission succeeds. */
  ghost predicate SubmittedOk(acts: seq<Action>, i: nat) {
    && i < |acts| && acts[i].SubmitAction?
    && Submit(Run(acts[..i]), acts[i].def, acts[i].freshID, acts[i].f).1 == Ok
  }

  /** Templates are only stored; any other submission starts running. */
  ghost predicate Launched(acts: seq<Action>, i: nat) {
    SubmittedOk(acts, i) && !acts[i].def.isTemplate
  }

  function TaskIDs(tasks: seq<TaskDef>): set<TaskID> {
    set t | t in tasks :: t.id
  }

  /** The store reads that find and check dependents do not fail after the launch. */
  ghost predicate DependentsRead(acts: seq<Action>, i: nat) {
    forall j :: i < j < |acts| && acts[j].CompleteAction? ==>
      !acts[j].f.getDependents && acts[j].f.dependencyCheck == {}
  }

  lemma {:induction false} LaunchPrefix(acts: seq<Action>, i: nat)
    requires SubmittedOk(acts, i) && i + 1 < |acts|
    ensures SubmittedOk(acts[..|acts| - 1], i)
    ensures DependentsRead(acts, i) ==> DependentsRead(acts[..|acts| - 1], i)
  {
    assert acts[..|acts| - 1][..i] == acts[..i];
  }

  /** The state right after the launch: every task has a pending row of the new workflow. */
  lemma {:induction false} LaunchState(acts: seq<Action>, i: nat)
    requires SubmittedOk(acts, i) && |acts| == i + 1
    ensures var s, s', def, w := Run(acts[..i]), Run(acts), acts[i].def, WorkflowIDOf(acts[i]);
            && Consistent(s.db) && Consistent(s'.db)
            && Acceptable(def.tasks) && DistinctIDs(def.tasks)
            && w !in s.db.workflows && w in s'.db.workflows
            && (forall t :: t in def.tasks ==> Stored(s.db, s'.db, t, w))
            && MemberSet(s'.db, w) == TaskIDs(def.tasks)
            && (Launched(acts, i) ==> s'.bus == s.bus + RootEvents(Roots(def.tasks), w))
  {
    var s, s', def, w := Run(acts[..i]), Run(acts), acts[i].def, WorkflowIDOf(acts[i]);
    RunConsistent(acts[..i]);
    RunConsistent(acts);
    assert acts[..|acts| - 1] == acts[..i];
    var row := WorkflowRow(w, def.name, def.createdBy, def.originalMessage, WorkflowRunning);
    var db := s.db.(workflows := s.db.workflows[w := row]);
    assert MemberSet(db, w) == {};
    NewRows(db, w, def.tasks, acts[i].f);
    InsertFacts(db, w, def.tasks, acts[i].f);
    hide Consistent, Acceptable, Stored;
    forall t | t in def.tasks ensures Stored(s.db, s'.db, t, w) {
      StoredBefore(db, s.db, s'.db, t, w);
    }
  }

  lemma StoredBefore(db: Tables, same: Tables, after: Tables, t: TaskDef, w: string)
    requires Stored(db, after, t, w) && same.tasks == db.tasks
    ensures Stored(same, after, t, w)
  {
  }

  /** Inserting the tasks of a workflow without rows gives it exactly their rows. */
  lemma {:induction false} NewRows(db: Tables, w: string, tasks: seq<TaskDef>, f: Faults)
    requires Consistent(db) && w in db.workflows && InsertTasks(db, w, tasks, f).ok && MemberSet(db, w) == {}
    ensures DistinctIDs(tasks) && forall t :: t in tasks ==> Stored(db, InsertTasks(db, w, tasks, f).db, t, w)
    ensures MemberSet(InsertTasks(db, w, tasks, f).db, w) == TaskIDs(tasks)
  {
    var after := InsertTasks(db, w, tasks, f).db;
    InsertFacts(db, w, tasks, f);
    InsertedAll(db, w, tasks, f);
    hide Consistent, InsertTasks;
    forall id ensures id in MemberSet(after, w) <==> id in TaskIDs(tasks) {
      if id in MemberSet(after, w) {
        assert id in db.tasks ==> id in MemberSet(db, w);
        assert FreshRow(db, after.tasks[id], w, tasks);
        var k :| 0 <= k < |tasks| && after.tasks[id] == TaskDefToStorage(tasks[k], w);
        assert tasks[k] in tasks;
      }
      if id in TaskIDs(tasks) {
        var t :| t in tasks && t.id == id;
        assert Stored(db, after, t, w);
      }
    }
  }

  /** At the launch a task with dependencies is not yet satisfied: they are all pending. */
  lemma {:induction false} LaunchedPending(acts: seq<Action>, i: nat, t: TaskDef)
    requires Launched(acts, i) && |acts| == i + 1
    requires t in acts[i].def.tasks && t.dependsOn != [] && Closed(GraphOf(acts[i].def.tasks))
    ensures t.id in Run(acts).db.tasks && !Satisfied(Run(acts).db, t.id)
  {
    LaunchState(acts, i);
    var db, w := Run(acts).db, WorkflowIDOf(acts[i]);
    var d := OwnDependency(acts[i].def.tasks, t);
    assert Stored(Run(acts[..i]).db, db, d, w) && Stored(Run(acts[..i]).db, db, t, w);
    assert !IsCompleted(db, db.tasks[t.id].dependsOn[0]);
  }

  /** From the launch on the workflow's rows are exactly its tasks. */
  lemma {:induction false} LaunchedRows(acts: seq<Action>, i: nat)
    requires SubmittedOk(acts, i)
    ensures var db, def, w := Run(acts).db, acts[i].def, WorkflowIDOf(acts[i]);
            && w in db.workflows && MemberSet(db, w) == TaskIDs(def.tasks)
            && forall t :: t in def.tasks ==> t.id in db.tasks && db.tasks[t.id].dependsOn == t.dependsOn
  {
    var db, def, w := Run(acts).db, acts[i].def, WorkflowIDOf(acts[i]);
    if |acts| == i + 1 {
      LaunchState(acts, i);
      forall t | t in def.tasks ensures t.id in db.tasks && db.tasks[t.id].dependsOn == t.dependsOn {
        assert Stored(Run(acts[..i]).db, db, t, w);
      }
    } else {
      var n := |acts| - 1;
      var s := Run(acts[..n]);
      LaunchPrefix(acts, i);
      LaunchedRows(acts[..n], i);
      RunConsistent(acts[..n]);
      StepKeeps(s, acts[n]);
      forall id | id in MemberSet(db, w) ensures id in MemberSet(s.db, w) {
        StepStatus(s, acts[n], id);
        if id !in s.db.tasks {
          SubmitStatus(s, acts[n], id);
          assert false;
        }
      }
      assert MemberSet(db, w) == MemberSet(s.db, w);
    }
  }

  /** At any later point a task's row, read back, is the submitted task after one round trip. */
  lemma {:induction false} RowsKeepTasks(acts: seq<Action>, i: nat, t: TaskDef)
    requires SubmittedOk(acts, i) && t in acts[i].def.tasks
    ensures t.id in Run(acts).db.tasks
    ensures StorageToTaskDef(Run(acts).db.tasks[t.id]) == StorageToTaskDef(TaskDefToStorage(t, WorkflowIDOf(acts[i])))
  {
    LaunchedAt(acts, i, i + 1);
    LaunchState(acts[..i + 1], i);
    assert acts[..i + 1][..i] == acts[..i];
    assert Stored(Run(acts[..i]).db, Run(acts[..i + 1]).db, t, WorkflowIDOf(acts[i]));
    RunExtends(acts, i + 1);
  }

  // ---- submissions that fail half-way ----

  /** Submission `i` fails and leaves the row of this task behind. */
  ghost predicate LeftBehind(acts: seq<Action>, i: nat, id: TaskID) {
    && i < |acts| && acts[i].SubmitAction?
    && Submit(Run(acts[..i]), acts[i].def, acts[i].freshID, acts[i].f).1 != Ok
    && id !in Run(acts[..i]).db.tasks && id in Run(acts[..i + 1]).db.tasks
  }

  /** A root that was left behind is never assigned. */
  lemma {:induction false} LeftRootNeverStarts(acts: seq<Action>, i: nat, id: TaskID, k: nat)
    requires LeftBehind(acts, i, id) && Run(acts[..i + 1]).db.tasks[id].dependsOn == []
    requires k < |Run(acts).bus| && Run(acts).bus[k].TaskAssigned?
    ensures Run(acts).bus[k].taskID != id
  {
    hide Consistent, Submit;
    var n := |acts| - 1;
    OneStep(acts, n);
    assert acts[..n + 1] == acts;
    if k < |Run(acts[..n]).bus| {
      RunExtends(acts, n);
      AssignedDeps(acts[..n], k);
      if n > i {
        assert acts[..n][..i] == acts[..i] && acts[..n][..i + 1] == acts[..i + 1];
        LeftRootNeverStarts(acts[..n], i, id, k);
      }
    } else if n == i {
      SubmitExact(Run(acts[..i]), acts[i].def, acts[i].freshID, acts[i].f);
    } else {
      NothingFiresRoot(acts, i, id, k);
    }
  }

  lemma {:induction false} NothingFiresRoot(acts: seq<Action>, i: nat, id: TaskID, k: nat)
    requires i + 1 < |acts| && id in Run(acts[..i + 1]).db.tasks && Run(acts[..i + 1]).db.tasks[id].dependsOn == []
    requires |Run(acts[..|acts| - 1]).bus| <= k < |Run(acts).bus| && Run(acts).bus[k].TaskAssigned?
    ensures Run(acts).bus[k].taskID != id
  {
    hide Ready, Recorded, Pick, Complete, Submit;
    var n := |acts| - 1;
    RunConsistent(acts[..n]);
    assert acts[..n][..i + 1] == acts[..i + 1];
    RunExtends(acts[..n], i + 1);
    RunExtends(acts, i + 1);
    if acts[n].SubmitAction? {
      SubmitAssigns(Run(acts[..n]), acts[n], k);
    } else {
      CompleteAssigns(Run(acts[..n]), acts[n].p, acts[n].f, k);
    }
  }

  lemma {:induction false} RootIsAssigned(acts: seq<Action>, i: nat, t: TaskDef)
    requires Launched(acts, i) && |acts| == i + 1
    requires t in acts[i].def.tasks && t.dependsOn == []
    ensures Assigned(Run(acts).bus, WorkflowIDOf(acts[i]), t.id)
  {
    LaunchState(acts, i);
    var s, w := Run(acts[..i]), WorkflowIDOf(acts[i]);
    var roots := Roots(acts[i].def.tasks);
    assert t in roots;
    var k :| 0 <= k < |roots| && roots[k] == t;
    assert AssignedAt(Run(acts).bus, |s.bus| + k, w, t.id);
  }

  /** The events after `bus` assign the task. */
  ghost predicate NewlyAssigned(bus: seq<BusEvent>, longer: seq<BusEvent>, w: string, id: TaskID) {
    exists k :: |bus| <= k && AssignedAt(longer, k, w, id)
  }

  lemma {:induction false} ReadyIsFired(s: State, p: Payload, f: Faults, t: TaskID)
    requires Consistent(s.db) && p.taskID in s.db.tasks && p.error == "" && !f.getTask && !f.getDependents
    requires t in Ready(Recorded(s.db, p, f), p.taskID, f)
    ensures NewlyAssigned(s.bus, Complete(s, p, f).0.bus, s.db.tasks[t].workflowID, t)
  {
    RecordedShape(s.db, p, f, t);
    var fired, tail := CompleteBus(s, p, f);
    var k :| 0 <= k < |fired| && fired[k] == t;
    hide *;
    FiredIsAssigned(Recorded(s.db, p, f), s.bus, fired, tail, k);
  }

  lemma FiredIsAssigned(db: Tables, bus: seq<BusEvent>, fired: seq<TaskID>, tail: seq<BusEvent>, k: nat)
    requires k < |fired| && forall t :: t in fired ==> t in db.tasks && db.tasks[t].id == t
    ensures NewlyAssigned(bus, bus + AssignEvents(db, fired) + tail, db.tasks[fired[k]].workflowID, fired[k])
  {
    var events := AssignEvents(db, fired);
    ThreeParts(bus, events, tail, |bus| + k);
    assert AssignedAt(bus + events + tail, |bus| + k, db.tasks[fired[k]].workflowID, fired[k]);
  }

  lemma {:induction false} BecomesReady(db: Tables, p: Payload, f: Faults, t: TaskID)
    requires Consistent(db) && t in db.tasks && f.dependencyCheck == {}
    requires t in Recorded(db, p, f).tasks && !Satisfied(db, t) && Satisfied(Recorded(db, p, f), t)
    ensures p.error == "" && p.taskID in db.tasks && p.taskID in db.tasks[t].dependsOn
    ensures DependencyText.Shows(db.tasks[t].dependsOn, p.taskID) ==> t in Ready(Recorded(db, p, f), p.taskID, f)
  {
    var deps := db.tasks[t].dependsOn;
    RecordedShape(db, p, f, t);
    var i :| 0 <= i < |deps| && !IsCompleted(db, deps[i]);
    assert IsCompleted(Recorded(db, p, f), Recorded(db, p, f).tasks[t].dependsOn[i]);
    RecordedShape(db, p, f, deps[i]);
    assert deps[i] in deps;
  }

  /** The completion of a task's last open dependency assigns it exactly if the prefilter
      shows that dependency. */
  lemma {:induction false} SatisfiedIsFired(s: State, p: Payload, f: Faults, t: TaskID)
    requires Consistent(s.db) && t in s.db.tasks
    requires !f.getDependents && f.dependencyCheck == {} && t in Complete(s, p, f).0.db.tasks
    requires !Satisfied(s.db, t) && Satisfied(Complete(s, p, f).0.db, t)
    ensures p.taskID in s.db.tasks[t].dependsOn
    ensures NewlyAssigned(s.bus, Complete(s, p, f).0.bus, s.db.tasks[t].workflowID, t) <==>
              DependencyText.Shows(s.db.tasks[t].dependsOn, p.taskID)
  {
    var db := if f.getTask || p.taskID !in s.db.tasks then s.db else Recorded(s.db, p, f);
    CompleteTables(s, p, f);
    SameTasksSameAnswer(db, Complete(s, p, f).0.db, t, "");
    BecomesReady(s.db, p, f, t);
    if DependencyText.Shows(s.db.tasks[t].dependsOn, p.taskID) {
      ReadyIsFired(s, p, f, t);
    }
    if NewlyAssigned(s.bus, Complete(s, p, f).0.bus, s.db.tasks[t].workflowID, t) {
      FiredIsShown(s, p, f, t);
    }
  }

  lemma {:induction false} FiredIsShown(s: State, p: Payload, f: Faults, t: TaskID)
    requires Consistent(s.db) && t in s.db.tasks
    requires NewlyAssigned(s.bus, Complete(s, p, f).0.bus, s.db.tasks[t].workflowID, t)
    ensures DependencyText.Shows(s.db.tasks[t].dependsOn, p.taskID)
  {
    var bus, w := Complete(s, p, f).0.bus, s.db.tasks[t].workflowID;
    var k :| |s.bus| <= k && AssignedAt(bus, k, w, t);
    CompleteAssigns(s, p, f, k);
    CompleteKeeps(s, p, f);
  }

  /** All dependencies of the task are completed in the store when its workflow is launched. */
  ghost predicate SatisfiedAtLaunch(acts: seq<Action>, i: nat, id: TaskID)
    requires i < |acts|
  {
    id in Run(acts[..i + 1]).db.tasks && Satisfied(Run(acts[..i + 1]).db, id)
  }

  /** Step `j` completes the last open dependency of the task. */
  ghost predicate BecameSatisfied(acts: seq<Action>, j: nat, id: TaskID)
    requires j < |acts|
  {
    var before, after := Run(acts[..j]).db, Run(acts[..j + 1]).db;
    id in before.tasks && id in after.tasks && !Satisfied(before, id) && Satisfied(after, id)
  }

  /** Step `j` is a report whose task the prefilter shows in the dependency list. */
  ghost predicate ReportShown(acts: seq<Action>, j: nat, deps: seq<TaskID>)
    requires j < |acts|
  {
    acts[j].CompleteAction? && DependencyText.Shows(deps, acts[j].p.taskID)
  }

  /** After the launch, a report that the prefilter shows completed the last open dependency. */
  ghost predicate BecameReady(acts: seq<Action>, i: nat, id: TaskID, deps: seq<TaskID>) {
    exists j :: i < j < |acts| && BecameSatisfied(acts, j, id) && ReportShown(acts, j, deps)
  }

  lemma {:induction false} OneStep(acts: seq<Action>, j: nat)
    requires j < |acts|
    ensures Run(acts[..j + 1]) == Step(Run(acts[..j]), acts[j])
    ensures Consistent(Run(acts[..j]).db) && Extends(Run(acts[..j]).db, Run(acts[..j + 1]).db)
  {
    assert acts[..j + 1][..j] == acts[..j];
    RunConsistent(acts[..j]);
    StepKeeps(Run(acts[..j]), acts[j]);
  }

  lemma {:induction false} BecameByReport(acts: seq<Action>, j: nat, id: TaskID)
    requires j < |acts| && BecameSatisfied(acts, j, id)
    ensures acts[j].CompleteAction? && acts[j].p.taskID in Run(acts[..j]).db.tasks[id].dependsOn
  {
    OneStep(acts, j);
    var before, after := Run(acts[..j]), Run(acts[..j + 1]);
    var deps := before.db.tasks[id].dependsOn;
    var k :| 0 <= k < |deps| && !IsCompleted(before.db, deps[k]);
    assert IsCompleted(after.db, after.db.tasks[id].dependsOn[k]);
    StepStatus(before, acts[j], deps[k]);
  }

  lemma {:induction false} SometimeBecame(acts: seq<Action>, i: nat, id: TaskID) returns (j: nat)
    requires i < |acts| && id in Run(acts[..i + 1]).db.tasks && id in Run(acts).db.tasks
    requires !Satisfied(Run(acts[..i + 1]).db, id) && Satisfied(Run(acts).db, id)
    ensures i < j < |acts| && BecameSatisfied(acts, j, id)
  {
    var n := |acts| - 1;
    assert acts[..n + 1] == acts;
    if n == i {
      assert false;
    } else {
      assert acts[..n][..i + 1] == acts[..i + 1];
      RunExtends(acts[..n], i + 1);
      if Satisfied(Run(acts[..n]).db, id) {
        j := SometimeBecame(acts[..n], i, id);
        SameStep(acts, n, j, id, []);
      } else {
        j := n;
      }
    }
  }

  lemma SameStep(acts: seq<Action>, n: nat, j: nat, id: TaskID, deps: seq<TaskID>)
    requires j < n <= |acts|
    ensures BecameSatisfied(acts[..n], j, id) <==> BecameSatisfied(acts, j, id)
    ensures ReportShown(acts[..n], j, deps) <==> ReportShown(acts, j, deps)
  {
    assert acts[..n][..j] == acts[..j] && acts[..n][..j + 1] == acts[..j + 1];
  }

  lemma {:induction false} LaunchedAt(acts: seq<Action>, i: nat, m: nat)
    requires SubmittedOk(acts, i) && i < m <= |acts|
    ensures SubmittedOk(acts[..m], i)
  {
    assert acts[..m][..i] == acts[..i];
  }

  lemma StaysAssigned(acts: seq<Action>, m: nat, w: string, id: TaskID)
    requires m <= |acts| && Assigned(Run(acts[..m]).bus, w, id)
    ensures Assigned(Run(acts).bus, w, id)
  {
    RunExtends(acts, m);
    var k :| AssignedAt(Run(acts[..m]).bus, k, w, id);
    assert AssignedAt(Run(acts).bus, k, w, id);
  }

  lemma {:induction false} ShownIsAssigned(acts: seq<Action>, i: nat, t: TaskDef, j: nat)
    requires Launched(acts, i) && DependentsRead(acts, i) && t in acts[i].def.tasks
    requires i < j < |acts| && BecameSatisfied(acts, j, t.id) && ReportShown(acts, j, t.dependsOn)
    ensures Assigned(Run(acts).bus, WorkflowIDOf(acts[i]), t.id)
  {
    hide Consistent, Extends, Complete, Submit, Satisfied;
    var s := Run(acts[..j]);
    OneStep(acts, j);
    LaunchedAt(acts, i, j);
    LaunchedRows(acts[..j], i);
    assert t.id in TaskIDs(acts[i].def.tasks);
    SatisfiedIsFired(s, acts[j].p, acts[j].f, t.id);
    var k :| |s.bus| <= k && AssignedAt(Run(acts[..j + 1]).bus, k, WorkflowIDOf(acts[i]), t.id);
    StaysAssigned(acts, j + 1, WorkflowIDOf(acts[i]), t.id);
  }

  lemma {:induction false} RootStaysAssigned(acts: seq<Action>, i: nat, t: TaskDef)
    requires Launched(acts, i) && t in acts[i].def.tasks && t.dependsOn == []
    ensures Assigned(Run(acts).bus, WorkflowIDOf(acts[i]), t.id)
  {
    LaunchedAt(acts, i, i + 1);
    RootIsAssigned(acts[..i + 1], i, t);
    StaysAssigned(acts, i + 1, WorkflowIDOf(acts[i]), t.id);
  }

  /** Whatever else happens, a task whose dependencies are all completed, and all shown by the
      prefilter, has been assigned, unless it is no root and they all were completed at the
      launch already. */
  lemma {:induction false} SatisfiedIsAssigned(acts: seq<Action>, i: nat, t: TaskDef)
    requires Launched(acts, i) && DependentsRead(acts, i) && t in acts[i].def.tasks
    requires t.dependsOn == [] || !SatisfiedAtLaunch(acts, i, t.id)
    requires DependencyText.Findable(t.dependsOn)
    requires t.id in Run(acts).db.tasks && Satisfied(Run(acts).db, t.id)
    ensures Assigned(Run(acts).bus, WorkflowIDOf(acts[i]), t.id)
  {
    if t.dependsOn == [] {
      RootStaysAssigned(acts, i, t);
    } else {
      var j := FindableBecameReady(acts, i, t);
      ShownIsAssigned(acts, i, t, j);
    }
  }

  lemma {:induction false} FindableBecameReady(acts: seq<Action>, i: nat, t: TaskDef) returns (j: nat)
    requires SubmittedOk(acts, i) && t in acts[i].def.tasks && DependencyText.Findable(t.dependsOn)
    requires t.id in Run(acts).db.tasks && Satisfied(Run(acts).db, t.id) && !SatisfiedAtLaunch(acts, i, t.id)
    ensures i < j < |acts| && BecameSatisfied(acts, j, t.id) && ReportShown(acts, j, t.dependsOn)
  {
    LaunchedAt(acts, i, i + 1);
    LaunchedRows(acts[..i + 1], i);
    j := SometimeBecame(acts, i, t.id);
    BecameByReport(acts, j, t.id);
    LaunchedAt(acts, i, j);
    LaunchedRows(acts[..j], i);
  }

  /** A task that is no root and whose dependencies were all completed at the launch is never
      assigned: it is not fired with the roots, and no later completion fires it. */
  lemma {:induction false} SatisfiedAtLaunchNeverStarts(acts: seq<Action>, i: nat, t: TaskDef, k: nat)
    requires Launched(acts, i) && OncePerTask(acts) && t in acts[i].def.tasks
    requires t.dependsOn != [] && SatisfiedAtLaunch(acts, i, t.id)
    requires k < |Run(acts).bus| && Run(acts).bus[k].TaskAssigned?
    ensures Run(acts).bus[k].taskID != t.id
  {
    hide Consistent, Submit, Step, Satisfied;
    var n := |acts| - 1;
    if n == i {
      LaunchAssignsRoots(acts, i, t, k);
    } else {
      LaunchPrefix(acts, i);
      PrefixEnvironment(acts, n);
      assert acts[..n][..i + 1] == acts[..i + 1];
      if k < |Run(acts[..n]).bus| {
        RunConsistent(acts[..n]);
        StepKeeps(Run(acts[..n]), acts[n]);
        SatisfiedAtLaunchNeverStarts(acts[..n], i, t, k);
      } else {
        LaunchedRows(acts[..n], i);
        NothingNewFires(acts, i, t.id, k);
      }
    }
  }

  /** The launch assigns none of its tasks that has dependencies. */
  lemma {:induction false} LaunchAssignsRoots(acts: seq<Action>, i: nat, t: TaskDef, k: nat)
    requires Launched(acts, i) && |acts| == i + 1 && t in acts[i].def.tasks && t.dependsOn != []
    requires k < |Run(acts).bus| && Run(acts).bus[k].TaskAssigned?
    ensures Run(acts).bus[k].taskID != t.id
  {
    var s := Run(acts[..i]);
    LaunchState(acts, i);
    assert Stored(s.db, Run(acts).db, t, WorkflowIDOf(acts[i]));
    StepKeeps(s, acts[i]);
    if k < |s.bus| {
      AssignedDeps(acts[..i], k);
    } else {
      SubmitAssigns(s, acts[i], k);
    }
  }

  /** A later step does not fire a stored task that was satisfied at the launch. */
  lemma {:induction false} NothingNewFires(acts: seq<Action>, i: nat, id: TaskID, k: nat)
    requires OncePerTask(acts) && i + 1 < |acts| && SatisfiedAtLaunch(acts, i, id)
    requires id in Run(acts[..|acts| - 1]).db.tasks
    requires |Run(acts[..|acts| - 1]).bus| <= k < |Run(acts).bus| && Run(acts).bus[k].TaskAssigned?
    ensures Run(acts).bus[k].taskID != id
  {
    hide Consistent, Ready, Recorded, Pick, Complete, Submit;
    var n := |acts| - 1;
    RunConsistent(acts[..n]);
    if acts[n].SubmitAction? {
      SubmitAssigns(Run(acts[..n]), acts[n], k);
    } else {
      CompleteAssigns(Run(acts[..n]), acts[n].p, acts[n].f, k);
      CompletedBeforeNotNow(acts, i + 1);
      RunExtends(acts, i + 1);
    }
  }

  /** With one report per task, what the last report completes was not completed before. */
  lemma {:induction false} CompletedBeforeNotNow(acts: seq<Action>, m: nat)
    requires OncePerTask(acts) && m < |acts| && acts[|acts| - 1].CompleteAction?
    ensures !IsCompleted(Run(acts[..m]).db, acts[|acts| - 1].p.taskID)
  {
    FirstReport(acts);
    if IsCompleted(Run(acts[..m]).db, acts[|acts| - 1].p.taskID) {
      CompletedEarlier(acts, m, acts[|acts| - 1].p.taskID);
    }
  }

  lemma {:induction false} CompletedEarlier(acts: seq<Action>, m: nat, d: TaskID)
    requires m < |acts| && IsCompleted(Run(acts[..m]).db, d)
    ensures Succeeded(acts[..|acts| - 1], d)
  {
    CompletedSucceeded(acts[..m], d);
    assert acts[..|acts| - 1][..m] == acts[..m];
    SucceededLater(acts[..|acts| - 1], m, d);
  }

  /** Completions of a task that was completed already do not happen. */
  lemma {:induction false} StaysCompleted(acts: seq<Action>, id: TaskID)
    requires OncePerTask(acts) && acts != [] && IsCompleted(Run(acts[..|acts| - 1]).db, id)
    ensures IsCompleted(Run(acts).db, id)
  {
    var n := |acts| - 1;
    RunConsistent(acts[..n]);
    StepKeeps(Run(acts[..n]), acts[n]);
    CompletedSucceeded(acts[..n], id);
    StepStatus(Run(acts[..n]), acts[n], id);
    if acts[n].CompleteAction? {
      FirstReport(acts);
    }
  }

  lemma {:induction false} AssignedStaysSatisfied(acts: seq<Action>, k: nat)
    requires OncePerTask(acts) && k < |Run(acts).bus| && Run(acts).bus[k].TaskAssigned?
    ensures Run(acts).bus[k].taskID in Run(acts).db.tasks
    ensures Satisfied(Run(acts).db, Run(acts).bus[k].taskID)
  {
    var n := |acts| - 1;
    var s, s' := Run(acts[..n]), Run(acts);
    RunConsistent(acts[..n]);
    StepKeeps(s, acts[n]);
    if k < |s.bus| {
      PrefixEnvironment(acts, n);
      AssignedStaysSatisfied(acts[..n], k);
      var deps := s.db.tasks[s.bus[k].taskID].dependsOn;
      forall j | 0 <= j < |deps| ensures IsCompleted(s'.db, deps[j]) {
        StaysCompleted(acts, deps[j]);
      }
    } else {
      AssignmentSafe(s, acts[n], k);
    }
  }

  /** An assigned task with dependencies became ready by a report the prefilter shows. */
  lemma {:induction false} AssignedBecameReady(acts: seq<Action>, i: nat, t: TaskDef, k: nat) returns (j: nat)
    requires Launched(acts, i) && OncePerTask(acts) && t in acts[i].def.tasks && t.dependsOn != []
    requires AssignedAt(Run(acts).bus, k, WorkflowIDOf(acts[i]), t.id)
    ensures i < j < |acts| && BecameSatisfied(acts, j, t.id) && ReportShown(acts, j, t.dependsOn)
  {
    var n := |acts| - 1;
    hide Consistent, Extends, Step, Satisfied, BecameSatisfied, ReportShown;
    j := n;
    if n == i {
      LaunchAssignsRoots(acts, i, t, k);
    } else {
      LaunchPrefix(acts, i);
      PrefixEnvironment(acts, n);
      OneStep(acts, n);
      assert acts[..n + 1] == acts;
      if k < |Run(acts[..n]).bus| {
        RunExtends(acts, n);
        j := AssignedBecameReady(acts[..n], i, t, k);
        SameStep(acts, n, j, t.id, t.dependsOn);
      } else {
        LaunchedRows(acts[..n], i);
        FiredBecameReady(acts, t.id, k);
      }
    }
  }

  /** The last step fires a stored task only as its last open dependency is completed. */
  lemma {:induction false} FiredBecameReady(acts: seq<Action>, id: TaskID, k: nat)
    requires OncePerTask(acts) && acts != [] && id in Run(acts[..|acts| - 1]).db.tasks
    requires |Run(acts[..|acts| - 1]).bus| <= k < |Run(acts).bus| && Run(acts).bus[k].TaskAssigned?
    requires Run(acts).bus[k].taskID == id
    ensures BecameSatisfied(acts, |acts| - 1, id)
    ensures ReportShown(acts, |acts| - 1, Run(acts[..|acts| - 1]).db.tasks[id].dependsOn)
  {
    hide Ready, Recorded, Pick, Complete, Submit;
    var n := |acts| - 1;
    OneStep(acts, n);
    assert acts[..n + 1] == acts;
    if acts[n].SubmitAction? {
      SubmitAssigns(Run(acts[..n]), acts[n], k);
    } else {
      CompleteAssigns(Run(acts[..n]), acts[n].p, acts[n].f, k);
      CompletedBeforeNotNow(acts, n);
    }
  }

  /** Exactly which tasks have been assigned: the roots, and those that became ready after the
      launch. If the prefilter shows all their dependencies, these are the tasks whose
      dependencies are completed now and were not at the launch. */
  lemma {:induction false} AssignedIffBecameReady(acts: seq<Action>, i: nat, t: TaskDef)
    requires Launched(acts, i) && DependentsRead(acts, i) && OncePerTask(acts) && t in acts[i].def.tasks
    ensures t.id in Run(acts).db.tasks
    ensures Assigned(Run(acts).bus, WorkflowIDOf(acts[i]), t.id) <==>
              t.dependsOn == [] || BecameReady(acts, i, t.id, t.dependsOn)
    ensures DependencyText.Findable(t.dependsOn) && t.dependsOn != [] ==>
              (BecameReady(acts, i, t.id, t.dependsOn) <==>
                 Satisfied(Run(acts).db, t.id) && !SatisfiedAtLaunch(acts, i, t.id))
  {
    LaunchedRows(acts, i);
    var bus, w := Run(acts).bus, WorkflowIDOf(acts[i]);
    if t.dependsOn == [] {
      RootStaysAssigned(acts, i, t);
    } else {
      if Assigned(bus, w, t.id) {
        var k :| AssignedAt(bus, k, w, t.id);
        var j := AssignedBecameReady(acts, i, t, k);
      }
      if BecameReady(acts, i, t.id, t.dependsOn) {
        ReadyMeansSatisfied(acts, i, t);
      }
      if DependencyText.Findable(t.dependsOn) && Satisfied(Run(acts).db, t.id) && !SatisfiedAtLaunch(acts, i, t.id) {
        var j := FindableBecameReady(acts, i, t);
      }
    }
  }

  lemma {:induction false} ReadyMeansSatisfied(acts: seq<Action>, i: nat, t: TaskDef)
    requires Launched(acts, i) && DependentsRead(acts, i) && OncePerTask(acts) && t in acts[i].def.tasks
    requires t.dependsOn != [] && BecameReady(acts, i, t.id, t.dependsOn)
    ensures Assigned(Run(acts).bus, WorkflowIDOf(acts[i]), t.id)
    ensures t.id in Run(acts).db.tasks && Satisfied(Run(acts).db, t.id) && !SatisfiedAtLaunch(acts, i, t.id)
  {
    var bus, w := Run(acts).bus, WorkflowIDOf(acts[i]);
    var j :| i < j < |acts| && BecameSatisfied(acts, j, t.id) && ReportShown(acts, j, t.dependsOn);
    ShownIsAssigned(acts, i, t, j);
    var k :| AssignedAt(bus, k, w, t.id);
    AssignedStaysSatisfied(acts, k);
    if SatisfiedAtLaunch(acts, i, t.id) {
      SatisfiedAtLaunchNeverStarts(acts, i, t, k);
    }
  }

  lemma {:induction false} OwnDependency(tasks: seq<TaskDef>, t: TaskDef) returns (d: TaskDef)
    requires t in tasks && t.dependsOn != [] && DistinctIDs(tasks) && Closed(GraphOf(tasks))
    ensures d in tasks && d.id == t.dependsOn[0]
  {
    GraphOfTasks(tasks);
    var i :| 0 <= i < |tasks| && tasks[i] == t;
    assert t.id in GraphOf(tasks) && t.dependsOn[0] in GraphOf(tasks)[t.id];
    assert t.dependsOn[0] in GraphOf(tasks);
    var j :| 0 <= j < |tasks| && tasks[j].id == t.dependsOn[0];
    d := tasks[j];
  }

  // ---- progress ----

  predicate IsFailed(db: Tables, id: TaskID) {
    id in db.tasks && db.tasks[id].status == Failed
  }

  /** The task has dependencies, all completed, and yet no report made it ready: they were
      completed at the launch, or the last one by a report the prefilter does not show. */
  ghost predicate Missed(acts: seq<Action>, i: nat, id: TaskID) {
    && id in Run(acts).db.tasks && Run(acts).db.tasks[id].dependsOn != []
    && Satisfied(Run(acts).db, id) && !BecameReady(acts, i, id, Run(acts).db.tasks[id].dependsOn)
  }

  /** The task is not completed and does not proceed by its own workflow alone: it failed, it
      was missed, or it waits for a task outside the workflow. */
  ghost predicate Stuck(acts: seq<Action>, i: nat, id: TaskID)
    requires SubmittedOk(acts, i)
  {
    var db := Run(acts).db;
    && id in db.tasks && !IsCompleted(db, id)
    && (|| IsFailed(db, id)
        || Missed(acts, i, id)
        || exists d :: d in db.tasks[id].dependsOn && d !in TaskIDs(acts[i].def.tasks) && !IsCompleted(db, d))
  }

  /** With one report per task, a stuck task that did not fail was never assigned. */
  lemma {:induction false} StuckIsIdle(acts: seq<Action>, i: nat, id: TaskID)
    requires Launched(acts, i) && OncePerTask(acts) && id in TaskIDs(acts[i].def.tasks)
    requires Stuck(acts, i, id) && !IsFailed(Run(acts).db, id)
    ensures !Assigned(Run(acts).bus, WorkflowIDOf(acts[i]), id)
  {
    var t :| t in acts[i].def.tasks && t.id == id;
    LaunchedRows(acts, i);
    if Assigned(Run(acts).bus, WorkflowIDOf(acts[i]), id) {
      var k :| AssignedAt(Run(acts).bus, k, WorkflowIDOf(acts[i]), id);
      AssignedStaysSatisfied(acts, k);
      if t.dependsOn != [] {
        var j := AssignedBecameReady(acts, i, t, k);
      }
    }
  }

  /** Stuck, or depending directly or indirectly on a stuck task. */
  ghost predicate Blocked(acts: seq<Action>, i: nat, id: TaskID)
    requires SubmittedOk(acts, i)
  {
    Stuck(acts, i, id) || exists y :: Stuck(acts, i, y) && Reaches(GraphOf(acts[i].def.tasks), id, y)
  }

  lemma {:induction false} BlockedSpreads(acts: seq<Action>, i: nat, id: TaskID, d: TaskID)
    requires SubmittedOk(acts, i) && d in Deps(GraphOf(acts[i].def.tasks), id) && Blocked(acts, i, d)
    ensures Blocked(acts, i, id)
  {
    var g := GraphOf(acts[i].def.tasks);
    if Stuck(acts, i, d) {
      StepReaches(g, id, d);
    } else {
      var y :| Stuck(acts, i, y) && Reaches(g, d, y);
      ReachesFurther(g, id, d, y);
    }
  }

  /** The reads and writes that record a report do not fail. */
  ghost predicate ReportsRecorded(acts: seq<Action>) {
    forall j :: 0 <= j < |acts| && acts[j].CompleteAction? ==> !acts[j].f.getTask && !acts[j].f.updateStatus
  }

  /** Progress of every launched workflow: while some task is neither completed nor blocked,
      one such task is assigned and pending; and if reports are recorded, it is still
      unreported. */
  lemma {:induction false} Progress(acts: seq<Action>, i: nat, x: TaskID) returns (id: TaskID)
    requires Launched(acts, i) && DependentsRead(acts, i)
    requires x in TaskIDs(acts[i].def.tasks) && !IsCompleted(Run(acts).db, x) && !Blocked(acts, i, x)
    ensures id in TaskIDs(acts[i].def.tasks) && id in Run(acts).db.tasks && !Blocked(acts, i, id)
    ensures Run(acts).db.tasks[id].status == Pending
    ensures Assigned(Run(acts).bus, WorkflowIDOf(acts[i]), id)
    ensures OncePerTask(acts) && Truthful(acts) && ReportsRecorded(acts) ==> !Reported(acts, id)
  {
    var db, tasks := Run(acts).db, acts[i].def.tasks;
    var open := set t | t in TaskIDs(tasks) && !IsCompleted(db, t) && !Blocked(acts, i, t);
    LaunchAccepted(acts, i);
    assert x in open;
    id := MinimalTask(GraphOf(tasks), open);
    var t :| t in tasks && t.id == id;
    LaunchedRows(acts, i);
    MinimalIsSatisfied(acts, i, t, open);
    UnblockedIsAssigned(acts, i, t);
    StatusRange(acts, id);
    if OncePerTask(acts) && Truthful(acts) && ReportsRecorded(acts) && Reported(acts, id) {
      ReportedSettled(acts, id);
    }
  }

  lemma {:induction false} UnblockedIsAssigned(acts: seq<Action>, i: nat, t: TaskDef)
    requires Launched(acts, i) && DependentsRead(acts, i) && t in acts[i].def.tasks
    requires t.id in Run(acts).db.tasks && Satisfied(Run(acts).db, t.id) && !IsCompleted(Run(acts).db, t.id)
    requires !Stuck(acts, i, t.id)
    ensures Assigned(Run(acts).bus, WorkflowIDOf(acts[i]), t.id)
  {
    LaunchedRows(acts, i);
    if t.dependsOn == [] {
      RootStaysAssigned(acts, i, t);
    } else {
      var j :| i < j < |acts| && BecameSatisfied(acts, j, t.id) && ReportShown(acts, j, t.dependsOn);
      ShownIsAssigned(acts, i, t, j);
    }
  }

  lemma {:induction false} MinimalIsSatisfied(acts: seq<Action>, i: nat, t: TaskDef, open: set<TaskID>)
    requires Launched(acts, i) && t in acts[i].def.tasks && !Blocked(acts, i, t.id)
    requires open == set x | x in TaskIDs(acts[i].def.tasks) && !IsCompleted(Run(acts).db, x) && !Blocked(acts, i, x)
    requires t.id in open && !DependsInto(GraphOf(acts[i].def.tasks), t.id, open)
    ensures t.id in Run(acts).db.tasks && Satisfied(Run(acts).db, t.id)
  {
    var db, tasks := Run(acts).db, acts[i].def.tasks;
    LaunchedRows(acts, i);
    LaunchAccepted(acts, i);
    TaskDeps(tasks, t);
    forall m | 0 <= m < |t.dependsOn| ensures IsCompleted(db, t.dependsOn[m]) {
      var d := t.dependsOn[m];
      assert d in t.dependsOn && d !in open;
      if d in TaskIDs(tasks) && Blocked(acts, i, d) {
        BlockedSpreads(acts, i, t.id, d);
      }
    }
  }

  lemma TaskDeps(tasks: seq<TaskDef>, t: TaskDef)
    requires t in tasks && DistinctIDs(tasks)
    ensures Deps(GraphOf(tasks), t.id) == t.dependsOn
  {
    GraphOfTasks(tasks);
    var k :| 0 <= k < |tasks| && tasks[k] == t;
  }

  /** In a workflow whose dependencies all name its own tasks, under IDs that show themselves,
      only a failure gets a task stuck. */
  lemma {:induction false} OnlyFailureSticks(acts: seq<Action>, i: nat, id: TaskID)
    requires Launched(acts, i) && id in TaskIDs(acts[i].def.tasks)
    requires Closed(GraphOf(acts[i].def.tasks))
    requires forall t :: t in acts[i].def.tasks ==> DependencyText.ShowsItself(t.id)
    ensures Stuck(acts, i, id) <==> IsFailed(Run(acts).db, id)
  {
    var tasks := acts[i].def.tasks;
    var t :| t in tasks && t.id == id;
    LaunchedRows(acts, i);
    LaunchAccepted(acts, i);
    ClosedFindable(tasks, t);
    if t.dependsOn != [] && Satisfied(Run(acts).db, id) {
      LaunchedAt(acts, i, i + 1);
      LaunchedPending(acts[..i + 1], i, t);
      var j := FindableBecameReady(acts, i, t);
    }
  }

  lemma {:induction false} ClosedFindable(tasks: seq<TaskDef>, t: TaskDef)
    requires DistinctIDs(tasks) && Closed(GraphOf(tasks)) && forall u :: u in tasks ==> DependencyText.ShowsItself(u.id)
    requires t in tasks
    ensures DependencyText.Findable(t.dependsOn) && forall d :: d in t.dependsOn ==> d in TaskIDs(tasks)
  {
    GraphOfTasks(tasks);
    TaskDeps(tasks, t);
    forall d | d in t.dependsOn ensures d in TaskIDs(tasks) && DependencyText.Shows(t.dependsOn, d) {
      var i :| 0 <= i < |tasks| && tasks[i] == t;
      assert t.id in GraphOf(tasks) && d in GraphOf(tasks)[t.id] && d in GraphOf(tasks);
      var j :| 0 <= j < |tasks| && tasks[j].id == d;
      assert tasks[j] in tasks;
      DependencyText.PrefilterKeeps(t.dependsOn, d);
    }
  }

  lemma {:induction false} LaunchAccepted(acts: seq<Action>, i: nat)
    requires SubmittedOk(acts, i)
    ensures Acceptable(acts[i].def.tasks) && DistinctIDs(acts[i].def.tasks)
  {
    assert acts[..i + 1][..i] == acts[..i];
    LaunchState(acts[..i + 1], i);
  }

  // ---- the announcement ----

  ghost predicate Announced(bus: seq<BusEvent>, w: string) {
    exists k :: 0 <= k < |bus| && bus[k].WorkflowCompleted? && bus[k].workflowID == w
  }

  /** The store reads of the completion test do not fail after the launch. */
  ghost predicate CompletionRead(acts: seq<Action>, i: nat) {
    forall j :: i < j < |acts| && acts[j].CompleteAction? ==>
      !acts[j].f.getDependents && !acts[j].f.getTasks && !acts[j].f.getWorkflow
  }

  lemma {:induction false} CompletionAnnounces(s: State, p: Payload, f: Faults)
    requires Consistent(s.db) && p.taskID in s.db.tasks && p.error == "" && p.workflowID in s.db.workflows
    requires !f.getTask && !f.getDependents && !f.getTasks && !f.getWorkflow
    requires AllCompleted(Recorded(s.db, p, f), p.workflowID)
    ensures Announced(Complete(s, p, f).0.bus, p.workflowID)
  {
    var db := Recorded(s.db, p, f);
    RecordedShape(s.db, p, f, p.taskID);
    var mid := s.bus + AssignEvents(db, Pick(db.order, Ready(db, p.taskID, f)));
    var bus := Complete(s, p, f).0.bus;
    assert bus == mid + [Announcement(db, p.workflowID)];
    assert bus[|mid|].WorkflowCompleted?;
  }

  lemma {:induction false} NotYetAnnounced(acts: seq<Action>, i: nat)
    requires Launched(acts, i) && |acts| == i + 1
    ensures !Announced(Run(acts).bus, WorkflowIDOf(acts[i]))
    ensures !AllCompleted(Run(acts).db, WorkflowIDOf(acts[i]))
  {
    LaunchState(acts, i);
    var s, s', w, tasks := Run(acts[..i]), Run(acts), WorkflowIDOf(acts[i]), acts[i].def.tasks;
    forall k | 0 <= k < |s'.bus| && s'.bus[k].WorkflowCompleted? ensures s'.bus[k].workflowID != w {
      AnnouncedMembers(acts[..i], k, tasks[0].id);
    }
    assert Stored(s.db, s'.db, tasks[0], w);
    assert tasks[0].id in MemberSet(s'.db, w);
  }

  lemma {:induction false} LaunchedMembers(acts: seq<Action>, i: nat)
    requires Launched(acts, i) && i + 1 < |acts|
    ensures MemberSet(Run(acts).db, WorkflowIDOf(acts[i])) ==
            MemberSet(Run(acts[..|acts| - 1]).db, WorkflowIDOf(acts[i]))
    ensures WorkflowIDOf(acts[i]) in Run(acts[..|acts| - 1]).db.workflows
  {
    LaunchPrefix(acts, i);
    LaunchedRows(acts, i);
    LaunchedRows(acts[..|acts| - 1], i);
  }

  lemma {:induction false} LastMemberAnnounces(acts: seq<Action>, i: nat)
    requires Launched(acts, i) && i + 1 < |acts| && Truthful(acts) && CompletionRead(acts, i)
    requires AllCompleted(Run(acts).db, WorkflowIDOf(acts[i]))
    requires !AllCompleted(Run(acts[..|acts| - 1]).db, WorkflowIDOf(acts[i]))
    ensures Announced(Run(acts).bus, WorkflowIDOf(acts[i]))
  {
    var n := |acts| - 1;
    var s, w := Run(acts[..n]), WorkflowIDOf(acts[i]);
    RunConsistent(acts[..n]);
    LaunchedMembers(acts, i);
    var t :| t in MemberSet(s.db, w) && !IsCompleted(s.db, t);
    assert t in MemberSet(Run(acts).db, w);
    StepStatus(s, acts[n], t);
    var p, f := acts[n].p, acts[n].f;
    TruthfulWorkflow(acts, n);
    CompleteTables(s, p, f);
    SameTasksSameAnswer(Recorded(s.db, p, f), Run(acts).db, t, w);
    CompletionAnnounces(s, p, f);
  }

  /** A launched workflow is announced exactly when all its tasks are completed. */
  lemma {:induction false} AnnouncedIffCompleted(acts: seq<Action>, i: nat)
    requires Launched(acts, i) && OncePerTask(acts) && Truthful(acts) && CompletionRead(acts, i)
    ensures Announced(Run(acts).bus, WorkflowIDOf(acts[i])) <==> AllCompleted(Run(acts).db, WorkflowIDOf(acts[i]))
  {
    var w := WorkflowIDOf(acts[i]);
    if |acts| == i + 1 {
      NotYetAnnounced(acts, i);
    } else {
      var n := |acts| - 1;
      var s, s' := Run(acts[..n]), Run(acts);
      LaunchPrefix(acts, i);
      PrefixEnvironment(acts, n);
      AnnouncedIffCompleted(acts[..n], i);
      RunConsistent(acts[..n]);
      StepKeeps(s, acts[n]);
      LaunchedMembers(acts, i);
      if AllCompleted(s.db, w) {
        StaysAnnounced(s.bus, s'.bus, w);
        StaysAllCompleted(acts, w);
      } else if AllCompleted(s'.db, w) {
        LastMemberAnnounces(acts, i);
      } else if Announced(s'.bus, w) {
        NewlyAnnounced(acts, w);
      }
    }
  }

  lemma StaysAnnounced(bus: seq<BusEvent>, longer: seq<BusEvent>, w: string)
    requires Announced(bus, w) && bus <= longer
    ensures Announced(longer, w)
  {
    var k :| 0 <= k < |bus| && bus[k].WorkflowCompleted? && bus[k].workflowID == w;
    assert longer[k].WorkflowCompleted? && longer[k].workflowID == w;
  }

  lemma {:induction false} StaysAllCompleted(acts: seq<Action>, w: string)
    requires OncePerTask(acts) && acts != [] && AllCompleted(Run(acts[..|acts| - 1]).db, w)
    requires MemberSet(Run(acts).db, w) == MemberSet(Run(acts[..|acts| - 1]).db, w)
    ensures AllCompleted(Run(acts).db, w)
  {
    forall t | t in MemberSet(Run(acts).db, w) ensures IsCompleted(Run(acts).db, t) {
      StaysCompleted(acts, t);
    }
  }

  /** An announcement that was not there before is made when the workflow is completed. */
  lemma {:induction false} NewlyAnnounced(acts: seq<Action>, w: string)
    requires acts != [] && Announced(Run(acts).bus, w) && !Announced(Run(acts[..|acts| - 1]).bus, w)
    ensures AllCompleted(Run(acts).db, w)
  {
    var s, s' := Run(acts[..|acts| - 1]), Run(acts);
    RunConsistent(acts[..|acts| - 1]);
    StepKeeps(s, acts[|acts| - 1]);
    var k :| 0 <= k < |s'.bus| && s'.bus[k].WorkflowCompleted? && s'.bus[k].workflowID == w;
    CompleteAnnounces(s, acts[|acts| - 1], k);
  }

  // ---- counting ----

  /** How many reports concern the given tasks. */
  ghost function Reports(acts: seq<Action>, ids: set<TaskID>): nat {
    if acts == [] then 0
    else
      var last := acts[|acts| - 1];
      Reports(acts[..|acts| - 1], ids) + if last.CompleteAction? && last.p.taskID in ids then 1 else 0
  }

  ghost predicate Reported(acts: seq<Action>, id: TaskID) {
    exists j :: 0 <= j < |acts| && Completes(acts[j], id)
  }

  ghost predicate AllSuccessful(acts: seq<Action>, ids: set<TaskID>) {
    forall j :: 0 <= j < |acts| && acts[j].CompleteAction? && acts[j].p.taskID in ids ==>
      acts[j].p.error == "" && !acts[j].f.getTask && !acts[j].f.updateStatus
  }

  lemma {:induction false} ReportedLater(acts: seq<Action>, id: TaskID)
    requires acts != []
    ensures Reported(acts, id) <==> Completes(acts[|acts| - 1], id) || Reported(acts[..|acts| - 1], id)
  {
    var n := |acts| - 1;
    if j :| 0 <= j < |acts| && Completes(acts[j], id) {
      if j < n {
        assert Completes(acts[..n][j], id);
      }
    }
    if j :| 0 <= j < n && Completes(acts[..n][j], id) {
      assert Completes(acts[j], id);
    }
  }

  ghost function ReportedOf(acts: seq<Action>, ids: set<TaskID>): set<TaskID> {
    set id | id in ids && Reported(acts, id)
  }

  lemma ReportedStep(acts: seq<Action>, ids: set<TaskID>)
    requires acts != []
    ensures var last := acts[|acts| - 1];
            ReportedOf(acts, ids) == ReportedOf(acts[..|acts| - 1], ids)
                                     + if last.CompleteAction? && last.p.taskID in ids then {last.p.taskID} else {}
  {
    forall id ensures Reported(acts, id) <==> Completes(acts[|acts| - 1], id) || Reported(acts[..|acts| - 1], id) {
      ReportedLater(acts, id);
    }
  }

  lemma {:induction false} ReportCount(acts: seq<Action>, ids: set<TaskID>)
    requires OncePerTask(acts)
    ensures Reports(acts, ids) == |ReportedOf(acts, ids)|
  {
    if acts == [] {
      assert ReportedOf(acts, ids) == {};
    } else {
      var n := |acts| - 1;
      PrefixEnvironment(acts, n);
      ReportCount(acts[..n], ids);
      ReportedStep(acts, ids);
      if acts[n].CompleteAction? {
        OnlyReport(acts);
        assert acts[n].p.taskID !in ReportedOf(acts[..n], ids);
      }
    }
  }

  lemma {:induction false} OnlyReport(acts: seq<Action>)
    requires OncePerTask(acts) && acts != [] && acts[|acts| - 1].CompleteAction?
    ensures !Reported(acts[..|acts| - 1], acts[|acts| - 1].p.taskID)
  {
    var n := |acts| - 1;
    forall j | 0 <= j < n ensures !Completes(acts[..n][j], acts[n].p.taskID) {
      if Completes(acts[j], acts[n].p.taskID) {
        assert Completes(acts[n], acts[j].p.taskID);
      }
    }
  }

  /** A recorded report settles its task for good. */
  lemma {:induction false} ReportedSettled(acts: seq<Action>, id: TaskID)
    requires OncePerTask(acts) && Truthful(acts) && ReportsRecorded(acts) && Reported(acts, id)
    ensures id in Run(acts).db.tasks && Run(acts).db.tasks[id].status != Pending
  {
    hide Consistent, Extends, Complete, Submit;
    var n := |acts| - 1;
    var s := Run(acts[..n]);
    ReportedLater(acts, id);
    PrefixEnvironment(acts, n);
    RunConsistent(acts[..n]);
    StepKeeps(s, acts[n]);
    if Completes(acts[n], id) {
      TruthfulWorkflow(acts, n);
      CompleteTables(s, acts[n].p, acts[n].f);
    } else {
      ReportedSettled(acts[..n], id);
      StepStatus(s, acts[n], id);
    }
  }

  lemma {:induction false} ReportedCompleted(acts: seq<Action>, ids: set<TaskID>, id: TaskID)
    requires OncePerTask(acts) && Truthful(acts) && AllSuccessful(acts, ids)
    requires id in ids && Reported(acts, id)
    ensures IsCompleted(Run(acts).db, id)
  {
    var n := |acts| - 1;
    ReportedLater(acts, id);
    PrefixEnvironment(acts, n);
    if Completes(acts[n], id) {
      TruthfulWorkflow(acts, n);
      RunConsistent(acts[..n]);
      CompleteTables(Run(acts[..n]), acts[n].p, acts[n].f);
    } else {
      ReportedCompleted(acts[..n], ids, id);
      StaysCompleted(acts, id);
    }
  }

  lemma {:induction false} DistinctCount(tasks: seq<TaskDef>)
    requires DistinctIDs(tasks)
    ensures |TaskIDs(tasks)| == |tasks|
  {
    if tasks != [] {
      var n := |tasks| - 1;
      DistinctCount(tasks[..n]);
      assert tasks == tasks[..n] + [tasks[n]];
      assert TaskIDs(tasks) == TaskIDs(tasks[..n]) + {tasks[n].id};
    }
  }

  lemma SubsetOfSameSize<T>(a: set<T>, b: set<T>)
    requires a <= b && |a| == |b|
    ensures a == b
  {
    if a != b {
      var x :| x in b && x !in a;
      SubsetSize(a, b - {x});
    }
  }

  lemma {:induction false} SubsetSize<T>(a: set<T>, b: set<T>)
    requires a <= b
    ensures |a| <= |b|
  {
    if x :| x in a {
      SubsetSize(a - {x}, b - {x});
    }
  }

  /** When all reports succeed, the workflow is announced by exactly the last of as many
      reports as it has tasks. */
  lemma {:induction false} LastReportAnnounces(acts: seq<Action>, i: nat)
    requires Launched(acts, i) && OncePerTask(acts) && Truthful(acts) && CompletionRead(acts, i)
    requires AllSuccessful(acts, TaskIDs(acts[i].def.tasks))
    ensures Reports(acts, TaskIDs(acts[i].def.tasks)) <= |acts[i].def.tasks|
    ensures Announced(Run(acts).bus, WorkflowIDOf(acts[i])) <==>
            Reports(acts, TaskIDs(acts[i].def.tasks)) == |acts[i].def.tasks|
  {
    var db, w, tasks := Run(acts).db, WorkflowIDOf(acts[i]), acts[i].def.tasks;
    var ids := TaskIDs(tasks);
    var reported := ReportedOf(acts, ids);
    AnnouncedIffCompleted(acts, i);
    LaunchedRows(acts, i);
    LaunchAccepted(acts, i);
    DistinctCount(tasks);
    ReportCount(acts, ids);
    SubsetSize(reported, ids);
    if AllCompleted(db, w) {
      forall id | id in ids ensures Reported(acts, id) {
        assert id in MemberSet(db, w);
        CompletedSucceeded(acts, id);
      }
      assert reported == ids;
    }
    if |reported| == |ids| {
      SubsetOfSameSize(reported, ids);
      forall id | id in MemberSet(db, w) ensures IsCompleted(db, id) {
        assert id in reported;
        ReportedCompleted(acts, ids, id);
      }
    }
  }
}
