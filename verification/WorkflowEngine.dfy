/** The engine: submission and task completion as they run against the store and the bus. */
module WorkflowEngine {
  import opened Options
  import opened TaskGraph
  import WorkflowTypes
  import opened WorkflowState
  import WorkflowSteps
  import WorkflowStore

  class Engine {
    const store: WorkflowStore.Store
    var bus: seq<BusEvent>

    constructor (store: WorkflowStore.Store)
      ensures this.store == store && bus == []
    {
      this.store, bus := store, [];
    }

    function Snapshot(): State
      reads this, store
    {
      State(store.Contents(), bus)
    }

    method SubmitWorkflow(def: WorkflowTypes.Definition, freshID: string, f: Faults) returns (outcome: Outcome)
      requires Consistent(store.Contents())
      modifies this`bus, store
      ensures (Snapshot(), outcome) == Submit(old(Snapshot()), def, freshID, f)
      ensures outcome == Ok <==>
                WorkflowSteps.Begins(old(Snapshot()), def, freshID, f)
                && WorkflowSteps.Insertable(old(store.Contents()), def.tasks, f)
    {
      WorkflowSteps.SubmitExact(Snapshot(), def, freshID, f);
      var v := WorkflowTypes.Validate(def, freshID);
      if v.Rejected? {
        return InvalidWorkflow;
      }
      var w := v.def;
      var row := WorkflowRow(w.id, w.name, w.createdBy, w.originalMessage, WorkflowRunning);
      var failed := store.CreateWorkflow(row, f.createWorkflow);
      if failed {
        return StoreError;
      }
      var stored := CreateTasks(w.tasks, w.id, f);
      if !stored {
        return StoreError;
      }
      if w.isTemplate {
        return Ok;
      }
      var roots := WorkflowTypes.GetRootTasks(w.tasks);
      FireRoots(roots, w.id);
      return Ok;
    }

    method CreateTasks(tasks: seq<WorkflowTypes.TaskDef>, workflowID: string, f: Faults) returns (stored: bool)
      modifies store
      ensures Inserted(store.Contents(), stored) == InsertTasks(old(store.Contents()), workflowID, tasks, f)
    {
      ghost var start := store.Contents();
      for i := 0 to |tasks|
        invariant InsertTasks(start, workflowID, tasks[..i], f) == Inserted(store.Contents(), true)
      {
        assert tasks[..i + 1][..i] == tasks[..i];
        var failed := store.CreateWFTask(TaskDefToStorage(tasks[i], workflowID), i in f.createTask);
        if failed {
          InsertStops(start, workflowID, tasks, f, i + 1);
          return false;
        }
      }
      assert tasks[..|tasks|] == tasks;
      return true;
    }

    method FireRoots(roots: seq<WorkflowTypes.TaskDef>, workflowID: string)
      modifies this`bus
      ensures bus == old(bus) + RootEvents(roots, workflowID)
    {
      ghost var events := RootEvents(roots, workflowID);
      for i := 0 to |roots|
        invariant bus == old(bus) + events[..i]
      {
        FireTaskAssigned(roots[i], workflowID);
        assert events[..i + 1] == events[..i] + [events[i]];
      }
      assert events[..|roots|] == events;
    }

    method FireTaskAssigned(t: WorkflowTypes.TaskDef, workflowID: string)
      modifies this`bus
      ensures bus == old(bus) + [TaskAssigned(workflowID, t.id, t.agent, t.name, t.description, t.originalMessage)]
    {
      bus := bus + [TaskAssigned(workflowID, t.id, t.agent, t.name, t.description, t.originalMessage)];
    }

    method HandleTaskCompleted(p: Payload, f: Faults) returns (outcome: Outcome)
      requires Consistent(store.Contents())
      modifies this`bus, store
      ensures (Snapshot(), outcome) == Complete(old(Snapshot()), p, f)
    {
      var task := store.GetWFTask(p.taskID, f.getTask);
      if task.None? {
        return StoreError;
      }
      if p.error != "" {
        store.UpdateWFTaskStatus(p.taskID, Failed, p.error, f.updateStatus);
        assert store.tasks == Recorded(old(store.Contents()), p, f).tasks;
        return Ok;
      }
      RecordSuccess(p, f);
      ghost var db := store.Contents();
      RecordedConsistent(old(store.Contents()), p, f);
      var dependents := store.GetDependentWFTasks(p.taskID, f.getDependents);
      if dependents.None? {
        return StoreError;
      }
      FireReady(dependents.value, p.taskID, f);
      WorkflowStore.PickTwice(db.order, DependentSet(db, p.taskID), Ready(db, p.taskID, f));
      outcome := CheckWorkflowCompletion(p.workflowID, f);
    }

    method RecordSuccess(p: Payload, f: Faults)
      requires p.error == "" && p.taskID in store.tasks
      modifies store
      ensures store.Contents() == Recorded(old(store.Contents()), p, f)
    {
      var result: Option<string> := None;
      if p.result.Some? && !f.marshalResult {
        result := p.result;
      }
      store.UpdateWFTaskResult(p.taskID, result, f.updateResult);
      store.UpdateWFTaskStatus(p.taskID, Completed, "", f.updateStatus);
      assert store.tasks == Recorded(old(store.Contents()), p, f).tasks;
    }

    /** Fires each dependent whose dependencies are now all completed. */
    method FireReady(ids: seq<TaskID>, done: TaskID, f: Faults)
      requires forall t :: t in ids ==> t in DependentSet(store.Contents(), done)
      modifies this`bus
      ensures bus == old(bus) + AssignEvents(store.Contents(), Pick(ids, Ready(store.Contents(), done, f)))
    {
      ghost var db := store.Contents();
      ghost var ready := Ready(db, done, f);
      for i := 0 to |ids|
        invariant bus == old(bus) + AssignEvents(db, Pick(ids[..i], ready))
      {
        PickStep(ids, i, ready);
        var satisfied := store.AllDependenciesSatisfied(ids[i], ids[i] in f.dependencyCheck);
        if satisfied == Some(true) {
          bus := bus + [AssignEvent(store.tasks[ids[i]])];
        }
      }
      assert ids[..|ids|] == ids;
    }

    method CheckWorkflowCompletion(workflowID: string, f: Faults) returns (outcome: Outcome)
      requires Consistent(store.Contents())
      modifies this`bus, store
      ensures (Snapshot(), outcome) == CheckCompletion(old(Snapshot()), workflowID, f)
    {
      var tasks := store.GetWFTasks(workflowID, f.getTasks);
      if tasks.None? {
        return StoreError;
      }
      TallyMatches(store.Contents(), workflowID);
      var allComplete, anyFailed, results := Tally(tasks.value);
      if !allComplete {
        return Ok;
      }
      var workflow := store.GetWorkflow(workflowID, f.getWorkflow);
      if workflow.None? {
        return StoreError;
      }
      var row := workflow.value;
      bus := bus + [WorkflowCompleted(workflowID, row.createdBy, if anyFailed then "failed" else "completed",
                                      results, row.originalMessage)];
      store.UpdateWorkflowStatus(workflowID, if anyFailed then WorkflowFailed else WorkflowDone, f.updateWorkflow);
      return Ok;
    }

    /** The completion test: stops at the first task that is not completed. */
    static method Tally(rows: seq<TaskRow>) returns (allComplete: bool, anyFailed: bool, results: map<TaskID, string>)
      ensures allComplete <==> forall r :: r in rows ==> r.status == Completed
      ensures allComplete ==> !anyFailed && results == Collected(rows)
    {
      allComplete, anyFailed, results := true, false, map[];
      for i := 0 to |rows|
        invariant allComplete && !anyFailed && results == Collected(rows[..i])
        invariant forall k :: 0 <= k < i ==> rows[k].status == Completed
      {
        assert rows[..i + 1][..i] == rows[..i];
        if rows[i].status == Failed {
          return false, true, results;
        }
        if rows[i].status != Completed {
          return false, false, results;
        }
        if rows[i].result.Some? {
          results := results[rows[i].id := rows[i].result.value];
        }
      }
      assert rows[..|rows|] == rows;
    }
  }

  function Collected(rows: seq<TaskRow>): map<TaskID, string> {
    if rows == [] then map[]
    else
      var rest := Collected(rows[..|rows| - 1]);
      var last := rows[|rows| - 1];
      if last.result.Some? then rest[last.id := last.result.value] else rest
  }

  lemma {:induction false} CollectedHas(db: Tables, ids: seq<TaskID>, t: TaskID)
    requires forall id :: id in ids ==> id in db.tasks && db.tasks[id].id == id
    ensures t in Collected(RowsOf(db, ids)) <==> t in ids && db.tasks[t].result.Some?
    ensures t in Collected(RowsOf(db, ids)) ==> Collected(RowsOf(db, ids))[t] == db.tasks[t].result.value
  {
    if ids != [] {
      var n := |ids| - 1;
      assert RowsOf(db, ids)[..n] == RowsOf(db, ids[..n]);
      CollectedHas(db, ids[..n], t);
      assert ids == ids[..n] + [ids[n]];
    }
  }

  lemma TallyMatches(db: Tables, workflowID: string)
    requires Consistent(db)
    ensures var rows := RowsOf(db, Pick(db.order, MemberSet(db, workflowID)));
            && ((forall r :: r in rows ==> r.status == Completed) <==> AllCompleted(db, workflowID))
            && Collected(rows) == ResultsOf(db, workflowID)
  {
    var ids := Pick(db.order, MemberSet(db, workflowID));
    var rows := RowsOf(db, ids);
    forall t ensures t in Collected(rows) <==> t in ResultsOf(db, workflowID)
             ensures t in Collected(rows) ==> Collected(rows)[t] == ResultsOf(db, workflowID)[t] {
      CollectedHas(db, ids, t);
    }
    if AllCompleted(db, workflowID) {
      forall r | r in rows ensures r.status == Completed {
        var i :| 0 <= i < |rows| && rows[i] == r;
        assert ids[i] in MemberSet(db, workflowID);
      }
    } else {
      var t :| t in MemberSet(db, workflowID) && !IsCompleted(db, t);
      var i :| 0 <= i < |ids| && ids[i] == t;
      assert rows[i] in rows;
    }
  }

  lemma {:induction false} InsertStops(db: Tables, workflowID: string, tasks: seq<WorkflowTypes.TaskDef>, f: Faults,
                                       n: nat)
    requires n <= |tasks| && !InsertTasks(db, workflowID, tasks[..n], f).ok
    ensures InsertTasks(db, workflowID, tasks, f) == InsertTasks(db, workflowID, tasks[..n], f)
  {
    if n < |tasks| {
      var m := |tasks| - 1;
      assert tasks[..m][..n] == tasks[..n];
      InsertStops(db, workflowID, tasks[..m], f, n);
    } else {
      assert tasks[..n] == tasks;
    }
  }

  lemma RecordedConsistent(db: Tables, p: Payload, f: Faults)
    requires Consistent(db)
    ensures Consistent(Recorded(db, p, f))
  {
  }
}
