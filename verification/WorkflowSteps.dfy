/** What a single submission or completion keeps and what it adds. */
module WorkflowSteps {
  import opened TaskGraph
  import opened WorkflowTypes
  import DependencyText
  import opened WorkflowState

  datatype Action =
    | SubmitAction(def: Definition, freshID: string, f: Faults)
    | CompleteAction(p: Payload, f: Faults)

  ghost function Step(s: State, a: Action): State {
    match a
    case SubmitAction(def, freshID, f) => Submit(s, def, freshID, f).0
    case CompleteAction(p, f) => Complete(s, p, f).0
  }

  function WorkflowIDOf(a: Action): string
    requires a.SubmitAction?
  {
    if a.def.id == "" then a.freshID else a.def.id
  }

  /** Of a row only status, result and error ever change. */
  ghost predicate SameTask(r: TaskRow, r': TaskRow) {
    r' == r.(status := r'.status, result := r'.result, error := r'.error)
  }

  ghost predicate Extends(db: Tables, db': Tables) {
    && (forall w :: w in db.workflows ==> w in db'.workflows)
    && (forall id :: id in db.tasks ==> id in db'.tasks && SameTask(db.tasks[id], db'.tasks[id]))
  }

  ghost predicate FreshRow(db: Tables, r: TaskRow, workflowID: string, tasks: seq<TaskDef>) {
    && r.id !in db.tasks
    && exists i :: 0 <= i < |tasks| && r == TaskDefToStorage(tasks[i], workflowID)
  }

  lemma {:induction false} InsertFacts(db: Tables, w: string, tasks: seq<TaskDef>, f: Faults)
    requires Consistent(db) && w in db.workflows
    ensures var ins := InsertTasks(db, w, tasks, f);
            && Consistent(ins.db) && ins.db.workflows == db.workflows
            && (forall id :: id in db.tasks ==> id in ins.db.tasks && ins.db.tasks[id] == db.tasks[id])
            && (forall id :: id in ins.db.tasks && id !in db.tasks ==> FreshRow(db, ins.db.tasks[id], w, tasks))
  {
    if tasks != [] {
      var n := |tasks| - 1;
      InsertFacts(db, w, tasks[..n], f);
      var before := InsertTasks(db, w, tasks[..n], f);
      var ins := InsertTasks(db, w, tasks, f);
      forall id | id in ins.db.tasks && id !in db.tasks ensures FreshRow(db, ins.db.tasks[id], w, tasks) {
        if id in before.db.tasks {
          assert FreshRow(db, before.db.tasks[id], w, tasks[..n]);
        }
      }
    }
  }

  ghost predicate Stored(db: Tables, db': Tables, t: TaskDef, workflowID: string) {
    t.id !in db.tasks && t.id in db'.tasks && db'.tasks[t.id] == TaskDefToStorage(t, workflowID)
  }

  /** When all inserts succeed, the IDs were new and distinct and every task has its row. */
  lemma {:induction false} InsertedAll(db: Tables, w: string, tasks: seq<TaskDef>, f: Faults)
    requires Consistent(db) && w in db.workflows && InsertTasks(db, w, tasks, f).ok
    ensures DistinctIDs(tasks)
    ensures forall t :: t in tasks ==> Stored(db, InsertTasks(db, w, tasks, f).db, t, w)
  {
    if tasks != [] {
      var n := |tasks| - 1;
      InsertedAll(db, w, tasks[..n], f);
      InsertFacts(db, w, tasks[..n], f);
      var before := InsertTasks(db, w, tasks[..n], f).db;
      hide Consistent, FreshRow, TaskDefToStorage;
      forall t | t in tasks ensures Stored(db, InsertTasks(db, w, tasks, f).db, t, w) {
        if t in tasks[..n] {
          assert Stored(db, before, t, w);
        }
      }
      forall i | 0 <= i < n ensures tasks[i].id != tasks[n].id {
        assert tasks[..n][i] in tasks[..n];
        assert Stored(db, before, tasks[i], w);
      }
      assert DistinctIDs(tasks[..n]);
    }
  }

  /** No insert fails: the IDs are distinct and not taken, and the driver does not fail. */
  ghost predicate Insertable(db: Tables, tasks: seq<TaskDef>, f: Faults) {
    DistinctIDs(tasks) && forall i :: 0 <= i < |tasks| ==> i !in f.createTask && tasks[i].id !in db.tasks
  }

  lemma {:induction false} InsertExact(db: Tables, w: string, tasks: seq<TaskDef>, f: Faults)
    requires Consistent(db) && w in db.workflows
    ensures InsertTasks(db, w, tasks, f).ok <==> Insertable(db, tasks, f)
  {
    if tasks != [] {
      var n := |tasks| - 1;
      InsertExact(db, w, tasks[..n], f);
      InsertableLast(db, tasks, f);
      if InsertTasks(db, w, tasks[..n], f).ok {
        InsertedIDs(db, w, tasks[..n], f, tasks[n].id);
      }
    }
  }

  ghost predicate HasID(tasks: seq<TaskDef>, id: TaskID) {
    exists i :: 0 <= i < |tasks| && tasks[i].id == id
  }

  /** Once all are inserted, the taken IDs are those taken before and those of the tasks. */
  lemma InsertedIDs(db: Tables, w: string, tasks: seq<TaskDef>, f: Faults, id: TaskID)
    requires Consistent(db) && w in db.workflows && InsertTasks(db, w, tasks, f).ok
    ensures id in InsertTasks(db, w, tasks, f).db.tasks <==> id in db.tasks || HasID(tasks, id)
  {
    var after := InsertTasks(db, w, tasks, f).db;
    InsertFacts(db, w, tasks, f);
    InsertedAll(db, w, tasks, f);
    if HasID(tasks, id) {
      var i :| 0 <= i < |tasks| && tasks[i].id == id;
      assert tasks[i] in tasks;
      assert Stored(db, after, tasks[i], w);
    }
    if id in after.tasks && id !in db.tasks {
      var i :| 0 <= i < |tasks| && after.tasks[id] == TaskDefToStorage(tasks[i], w);
      assert tasks[i].id == id;
    }
  }

  lemma InsertableLast(db: Tables, tasks: seq<TaskDef>, f: Faults)
    requires tasks != []
    ensures var n := |tasks| - 1;
            Insertable(db, tasks, f) <==>
              && Insertable(db, tasks[..n], f) && n !in f.createTask
              && tasks[n].id !in db.tasks && !HasID(tasks[..n], tasks[n].id)
  {
    var n := |tasks| - 1;
    assert forall i :: 0 <= i < n ==> tasks[..n][i] == tasks[i];
  }

  /** The submission is accepted and its workflow row can be inserted. */
  ghost predicate Begins(s: State, def: Definition, freshID: string, f: Faults) {
    && Acceptable(def.tasks) && !f.createWorkflow
    && (if def.id == "" then freshID else def.id) !in s.db.workflows
  }

  /** Exactly when a submission succeeds, and exactly when it fails and leaves rows behind: the
      workflow is then stored as running, and nothing is fired. */
  lemma {:induction false} SubmitExact(s: State, def: Definition, freshID: string, f: Faults)
    requires Consistent(s.db)
    ensures var (s', outcome) := Submit(s, def, freshID, f);
            var w := if def.id == "" then freshID else def.id;
            && (outcome == Ok <==> Begins(s, def, freshID, f) && Insertable(s.db, def.tasks, f))
            && (outcome != Ok && s' != s <==> Begins(s, def, freshID, f) && !Insertable(s.db, def.tasks, f))
            && (outcome != Ok ==> s'.bus == s.bus)
            && (outcome != Ok && s' != s ==> w in s'.db.workflows && s'.db.workflows[w].status == WorkflowRunning)
  {
    if Begins(s, def, freshID, f) {
      var w := if def.id == "" then freshID else def.id;
      var row := WorkflowRow(w, def.name, def.createdBy, def.originalMessage, WorkflowRunning);
      var db := s.db.(workflows := s.db.workflows[w := row]);
      InsertExact(db, w, def.tasks, f);
      InsertFacts(db, w, def.tasks, f);
      assert Insertable(db, def.tasks, f) <==> Insertable(s.db, def.tasks, f);
      assert w in Submit(s, def, freshID, f).0.db.workflows;
    }
  }

  lemma {:induction false} SubmitKeeps(s: State, def: Definition, freshID: string, f: Faults)
    requires Consistent(s.db)
    ensures var s' := Submit(s, def, freshID, f).0;
            Consistent(s'.db) && Extends(s.db, s'.db) && s.bus <= s'.bus
  {
    var w := if def.id == "" then freshID else def.id;
    if Acceptable(def.tasks) && !f.createWorkflow && w !in s.db.workflows {
      var row := WorkflowRow(w, def.name, def.createdBy, def.originalMessage, WorkflowRunning);
      InsertFacts(s.db.(workflows := s.db.workflows[w := row]), w, def.tasks, f);
    }
  }

  lemma {:induction false} ReplaceRow(db: Tables, id: TaskID, row: TaskRow)
    requires Consistent(db) && id in db.tasks && SameTask(db.tasks[id], row)
    ensures var db' := db.(tasks := db.tasks[id := row]);
            Consistent(db') && Extends(db, db') && db'.tasks.Keys == db.tasks.Keys
  {
  }

  /** Recording a completion touches the completed task's row only. */
  lemma {:induction false} RecordedShape(db: Tables, p: Payload, f: Faults, id: TaskID)
    requires Consistent(db)
    ensures var db' := Recorded(db, p, f);
            && Consistent(db') && Extends(db, db') && db'.tasks.Keys == db.tasks.Keys
            && db'.workflows == db.workflows && db'.order == db.order
            && (id in db.tasks && db'.tasks[id].status != db.tasks[id].status ==>
                  id == p.taskID && db'.tasks[id].status == if p.error == "" then Completed else Failed)
  {
    if p.taskID in db.tasks {
      ReplaceRow(db, p.taskID, RecordedRow(db.tasks[p.taskID], p, f));
    }
  }

  /** A completion changes the tables as `Recorded` says, or not at all if the task is unknown. */
  lemma {:induction false} CompleteTables(s: State, p: Payload, f: Faults)
    requires Consistent(s.db)
    ensures var db' := Complete(s, p, f).0.db;
            && db'.tasks == (if f.getTask || p.taskID !in s.db.tasks then s.db else Recorded(s.db, p, f)).tasks
            && db'.order == s.db.order && db'.workflows.Keys == s.db.workflows.Keys
            && (forall w :: w in db'.workflows ==> db'.workflows[w].id == s.db.workflows[w].id)
  {
    hide RecordedRow, Recorded, Ready, AllCompleted, ResultsOf, Pick, AssignEvents, Extends;
    RecordedShape(s.db, p, f, p.taskID);
  }

  lemma {:induction false} CompleteKeeps(s: State, p: Payload, f: Faults)
    requires Consistent(s.db)
    ensures var s' := Complete(s, p, f).0;
            Consistent(s'.db) && Extends(s.db, s'.db) && s.bus <= s'.bus
  {
    CompleteTables(s, p, f);
    RecordedShape(s.db, p, f, p.taskID);
  }

  lemma {:induction false} StepKeeps(s: State, a: Action)
    requires Consistent(s.db)
    ensures Consistent(Step(s, a).db) && Extends(s.db, Step(s, a).db) && s.bus <= Step(s, a).bus
  {
    match a
    case SubmitAction(def, freshID, f) => SubmitKeeps(s, def, freshID, f);
    case CompleteAction(p, f) => CompleteKeeps(s, p, f);
  }

  lemma {:induction false} SubmitStatus(s: State, a: Action, id: TaskID)
    requires Consistent(s.db) && a.SubmitAction? && id in Step(s, a).db.tasks
    ensures id in s.db.tasks ==> Step(s, a).db.tasks[id] == s.db.tasks[id]
    ensures id !in s.db.tasks ==>
              && Step(s, a).db.tasks[id].status == Pending
              && Step(s, a).db.tasks[id].workflowID == WorkflowIDOf(a)
              && WorkflowIDOf(a) !in s.db.workflows
  {
    var w := WorkflowIDOf(a);
    if Acceptable(a.def.tasks) && !a.f.createWorkflow && w !in s.db.workflows {
      var row := WorkflowRow(w, a.def.name, a.def.createdBy, a.def.originalMessage, WorkflowRunning);
      var db := s.db.(workflows := s.db.workflows[w := row]);
      InsertFacts(db, w, a.def.tasks, a.f);
      if id !in s.db.tasks {
        assert FreshRow(db, Step(s, a).db.tasks[id], w, a.def.tasks);
      }
    }
  }

  /** A status changes only through a completion of that very task. */
  lemma {:induction false} StepStatus(s: State, a: Action, id: TaskID)
    requires Consistent(s.db) && id in Step(s, a).db.tasks
    ensures id !in s.db.tasks ==> a.SubmitAction? && Step(s, a).db.tasks[id].status == Pending
    ensures id in s.db.tasks && Step(s, a).db.tasks[id].status != s.db.tasks[id].status ==>
              && a.CompleteAction? && a.p.taskID == id
              && Step(s, a).db.tasks[id].status == if a.p.error == "" then Completed else Failed
  {
    match a
    case SubmitAction(def, freshID, f) =>
      SubmitStatus(s, a, id);
    case CompleteAction(p, f) =>
      CompleteTables(s, p, f);
      RecordedShape(s.db, p, f, id);
  }

  // ---- what is put on the bus ----

  lemma {:induction false} SubmitAssigns(s: State, a: Action, k: int)
    requires Consistent(s.db) && a.SubmitAction? && |s.bus| <= k < |Step(s, a).bus|
    ensures var s' := Step(s, a); var e := s'.bus[k];
            && e.TaskAssigned? && e.taskID !in s.db.tasks && e.taskID in s'.db.tasks
            && e.workflowID == s'.db.tasks[e.taskID].workflowID && s'.db.tasks[e.taskID].dependsOn == []
            && k - |s.bus| < |Roots(a.def.tasks)| && e.taskID == Roots(a.def.tasks)[k - |s.bus|].id
            && DistinctIDs(a.def.tasks)
  {
    var w := WorkflowIDOf(a);
    var row := WorkflowRow(w, a.def.name, a.def.createdBy, a.def.originalMessage, WorkflowRunning);
    var db := s.db.(workflows := s.db.workflows[w := row]);
    InsertedAll(db, w, a.def.tasks, a.f);
    var t := Roots(a.def.tasks)[k - |s.bus|];
    assert t in Roots(a.def.tasks);
    assert Stored(db, InsertTasks(db, w, a.def.tasks, a.f).db, t, w);
  }

  lemma {:induction false} RootsNoDup(tasks: seq<TaskDef>)
    requires DistinctIDs(tasks)
    ensures DistinctIDs(Roots(tasks))
  {
    if tasks != [] {
      var n := |tasks| - 1;
      RootsNoDup(tasks[..n]);
      forall t | t in Roots(tasks[..n]) ensures t.id != tasks[n].id {
        assert t in tasks[..n];
      }
    }
  }

  function Announcement(db: Tables, w: string): BusEvent
    requires w in db.workflows
  {
    WorkflowCompleted(w, db.workflows[w].createdBy, "completed", ResultsOf(db, w), db.workflows[w].originalMessage)
  }

  lemma {:induction false} CheckBus(s: State, w: string, f: Faults) returns (tail: seq<BusEvent>)
    ensures CheckCompletion(s, w, f).0.bus == s.bus + tail
    ensures CheckCompletion(s, w, f).0.db.tasks == s.db.tasks
    ensures tail == [] || (AllCompleted(s.db, w) && w in s.db.workflows && tail == [Announcement(s.db, w)])
  {
    tail := CheckCompletion(s, w, f).0.bus[|s.bus|..];
  }

  /** What a completion puts on the bus: its ready dependents, then at most one announcement. */
  lemma {:induction false} CompleteBus(s: State, p: Payload, f: Faults)
    returns (fired: seq<TaskID>, tail: seq<BusEvent>)
    requires Consistent(s.db)
    ensures var db := Recorded(s.db, p, f);
            && (fired == [] || fired == Pick(s.db.order, Ready(db, p.taskID, f)))
            && (forall t :: t in fired ==> t in Ready(db, p.taskID, f))
            && Complete(s, p, f).0.bus == s.bus + AssignEvents(db, fired) + tail
            && (tail == [] || (AllCompleted(db, p.workflowID) && p.workflowID in s.db.workflows
                               && tail == [Announcement(db, p.workflowID)]))
            && (fired != [] || tail != [] ==>
                  p.error == "" && p.taskID in s.db.tasks && !f.getTask && !f.getDependents)
            && (!f.getTask && p.taskID in s.db.tasks && p.error == "" && !f.getDependents ==>
                  fired == Pick(s.db.order, Ready(db, p.taskID, f)))
  {
    var db := Recorded(s.db, p, f);
    fired, tail := [], [];
    if !f.getTask && p.taskID in s.db.tasks && p.error == "" && !f.getDependents {
      fired := Pick(s.db.order, Ready(db, p.taskID, f));
      tail := CheckBus(State(db, s.bus + AssignEvents(db, fired)), p.workflowID, f);
    }
  }

  lemma SameTasksSameAnswer(db: Tables, db': Tables, t: TaskID, w: string)
    requires db'.tasks == db.tasks && t in db.tasks
    ensures Satisfied(db', t) == Satisfied(db, t)
    ensures AllCompleted(db', w) == AllCompleted(db, w) && ResultsOf(db', w) == ResultsOf(db, w)
  {
    assert MemberSet(db', w) == MemberSet(db, w);
  }

  lemma ThreeParts<T>(a: seq<T>, b: seq<T>, c: seq<T>, k: int)
    requires |a| <= k < |a + b + c|
    ensures (a + b + c)[k] == if k - |a| < |b| then b[k - |a|] else c[k - |a| - |b|]
  {
  }

  /** The event at position k of `bus + AssignEvents(db, fired) + tail` assigns a fired task. */
  ghost predicate AssignsFired(db': Tables, fired: seq<TaskID>, done: TaskID, e: BusEvent, i: int) {
    && e.TaskAssigned? && 0 <= i < |fired| && e.taskID == fired[i]
    && e.taskID in db'.tasks && e.workflowID == db'.tasks[e.taskID].workflowID
    && Satisfied(db', e.taskID) && done in db'.tasks[e.taskID].dependsOn
    && DependencyText.Shows(db'.tasks[e.taskID].dependsOn, done)
  }

  lemma {:induction false} FiredEvent(db: Tables, db': Tables, p: Payload, f: Faults, bus: seq<BusEvent>,
                                      fired: seq<TaskID>, tail: seq<BusEvent>, k: int)
    requires Consistent(db) && db'.tasks == db.tasks
    requires forall t :: t in fired ==> t in db.tasks && t in Ready(db, p.taskID, f)
    requires forall i :: 0 <= i < |tail| ==> tail[i].WorkflowCompleted?
    requires |bus| <= k < |bus + AssignEvents(db, fired) + tail|
    requires (bus + AssignEvents(db, fired) + tail)[k].TaskAssigned?
    ensures AssignsFired(db', fired, p.taskID, (bus + AssignEvents(db, fired) + tail)[k], k - |bus|)
  {
    ThreeParts(bus, AssignEvents(db, fired), tail, k);
    hide AllCompleted, ResultsOf;
    var t := fired[k - |bus|];
    assert t in Ready(db, p.taskID, f);
    SameTasksSameAnswer(db, db', t, "");
  }

  lemma {:induction false} CompleteAssigns(s: State, p: Payload, f: Faults, k: int)
    requires Consistent(s.db) && |s.bus| <= k < |Complete(s, p, f).0.bus|
    requires Complete(s, p, f).0.bus[k].TaskAssigned?
    ensures p.error == "" && p.taskID in s.db.tasks
    ensures AssignsFired(Complete(s, p, f).0.db, Pick(s.db.order, Ready(Recorded(s.db, p, f), p.taskID, f)),
                         p.taskID, Complete(s, p, f).0.bus[k], k - |s.bus|)
  {
    hide Consistent, Recorded, Ready, Complete, Pick, AssignEvents, AssignsFired, Extends, AllCompleted;
    RecordedShape(s.db, p, f, p.taskID);
    CompleteTables(s, p, f);
    var fired, tail := CompleteBus(s, p, f);
    FiredEvent(Recorded(s.db, p, f), Complete(s, p, f).0.db, p, f, s.bus, fired, tail, k);
  }

  lemma {:induction false} CompleteAnnounces(s: State, a: Action, k: int)
    requires Consistent(s.db) && |s.bus| <= k < |Step(s, a).bus|
    requires Step(s, a).bus[k].WorkflowCompleted?
    ensures var s' := Step(s, a); var e := s'.bus[k];
            && a.CompleteAction? && a.p.error == "" && a.p.taskID in s.db.tasks
            && k == |s'.bus| - 1 && e.workflowID == a.p.workflowID && e.workflowID in s.db.workflows
            && AllCompleted(s'.db, e.workflowID) && e.outcome == "completed"
            && e.results == ResultsOf(s'.db, e.workflowID)
  {
    hide Consistent, Recorded, Ready, Pick, Extends, AllCompleted, ResultsOf, Submit, Complete;
    if a.SubmitAction? {
      SubmitAssigns(s, a, k);
    } else {
      RecordedShape(s.db, a.p, a.f, a.p.taskID);
      CompleteTables(s, a.p, a.f);
      var fired, tail := CompleteBus(s, a.p, a.f);
      SameTasksSameAnswer(Recorded(s.db, a.p, a.f), Step(s, a).db, a.p.taskID, a.p.workflowID);
    }
  }

  /** Whenever a task is assigned, all its dependencies are completed in the store. */
  lemma {:induction false} AssignmentSafe(s: State, a: Action, k: int)
    requires Consistent(s.db) && |s.bus| <= k < |Step(s, a).bus| && Step(s, a).bus[k].TaskAssigned?
    ensures var s' := Step(s, a); var e := s'.bus[k];
            && e.taskID in s'.db.tasks && e.workflowID == s'.db.tasks[e.taskID].workflowID
            && Satisfied(s'.db, e.taskID)
  {
    if a.SubmitAction? {
      SubmitAssigns(s, a, k);
    } else {
      CompleteAssigns(s, a.p, a.f, k);
    }
  }

  /** One step never assigns a task twice. */
  lemma {:induction false} StepAssignsOnce(s: State, a: Action, j: int, k: int)
    requires Consistent(s.db) && |s.bus| <= j < k < |Step(s, a).bus|
    requires Step(s, a).bus[j].TaskAssigned? && Step(s, a).bus[k].TaskAssigned?
    ensures Step(s, a).bus[j].taskID != Step(s, a).bus[k].taskID
  {
    if a.SubmitAction? {
      SubmitAssigns(s, a, j);
      SubmitAssigns(s, a, k);
      RootsNoDup(a.def.tasks);
    } else {
      CompleteAssigns(s, a.p, a.f, j);
      CompleteAssigns(s, a.p, a.f, k);
      PickNoDup(s.db.order, Ready(Recorded(s.db, a.p, a.f), a.p.taskID, a.f));
    }
  }
}
