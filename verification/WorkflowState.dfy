/** The tables and the event bus as values, and what one submission or one task
    completion does to them. Store failures are an explicit argument. */
module WorkflowState {
  import opened Options
  import opened TaskGraph
  import WorkflowTypes
  import DependencyText

  datatype TaskStatus = Pending | Queued | Running | Completed | Failed | Cancelled | Blocked
  datatype WorkflowStatus = WorkflowRunning | WorkflowDone | WorkflowFailed

  datatype TaskRow = TaskRow(
    id: TaskID,
    workflowID: string,
    name: string,
    description: string,
    kind: string,
    dependsOn: seq<TaskID>,
    agent: string,
    maxRetries: int,
    timeoutSeconds: int,
    status: TaskStatus,
    result: Option<string>,
    error: string)

  datatype WorkflowRow = WorkflowRow(
    id: string, name: string, createdBy: string, originalMessage: string, status: WorkflowStatus)

  /** `order` lists the task rows in the order they were inserted. */
  datatype Tables = Tables(workflows: map<string, WorkflowRow>, tasks: map<TaskID, TaskRow>, order: seq<TaskID>)

  datatype BusEvent =
    | TaskAssigned(workflowID: string, taskID: TaskID, agent: string, name: string, task: string, message: string)
    | WorkflowCompleted(workflowID: string, createdBy: string, outcome: string,
                        results: map<TaskID, string>, message: string)

  datatype State = State(db: Tables, bus: seq<BusEvent>)

  const EMPTY := State(Tables(map[], map[], []), [])

  datatype Payload = Payload(workflowID: string, taskID: TaskID, result: Option<string>, error: string)

  /** Which store calls of one step fail with a driver error. `createTask` holds positions
      in the task list; `dependencyCheck` holds the dependents whose check fails. */
  datatype Faults = Faults(
    createWorkflow: bool,
    createTask: set<nat>,
    getTask: bool,
    marshalResult: bool,
    updateResult: bool,
    updateStatus: bool,
    getDependents: bool,
    dependencyCheck: set<TaskID>,
    getTasks: bool,
    getWorkflow: bool,
    updateWorkflow: bool)

  datatype Outcome = Ok | InvalidWorkflow | StoreError

  // ---- record conversions ----

  const NANOS_PER_SECOND := 1_000_000_000

  function TruncToSeconds(nanos: int): int {
    if nanos >= 0 then nanos / NANOS_PER_SECOND else -((-nanos) / NANOS_PER_SECOND)
  }

  function TaskDefToStorage(t: WorkflowTypes.TaskDef, workflowID: string): TaskRow {
    TaskRow(t.id, workflowID, t.name, t.description, t.kind, t.dependsOn, t.agent,
            if t.maxRetries == 0 then 3 else t.maxRetries,
            TruncToSeconds(t.timeout), Pending, None, "")
  }

  function StorageToTaskDef(r: TaskRow): WorkflowTypes.TaskDef {
    WorkflowTypes.TaskDef(r.id, r.name, r.description, r.kind, r.dependsOn, r.agent,
            r.maxRetries, r.timeoutSeconds * NANOS_PER_SECOND, "")
  }

  /** Storing and reloading a task keeps everything except: no retries become three, the
      timeout loses its fraction of a second, and the original message is gone. Going
      round again changes nothing more. */
  lemma StorageRoundTrip(t: WorkflowTypes.TaskDef, w1: string, w2: string)
    ensures var back := StorageToTaskDef(TaskDefToStorage(t, w1));
            && back == t.(maxRetries := back.maxRetries, timeout := back.timeout, originalMessage := "")
            && (back.maxRetries == t.maxRetries <==> t.maxRetries != 0)
            && (back.timeout == t.timeout <==> t.timeout % NANOS_PER_SECOND == 0)
            && StorageToTaskDef(TaskDefToStorage(back, w2)) == back
  {
    var q := TruncToSeconds(t.timeout);
    assert TruncToSeconds(q * NANOS_PER_SECOND) == q;
  }

  // ---- queries ----

  /** The members of `keep` in table order. */
  function Pick(order: seq<TaskID>, keep: set<TaskID>): (picked: seq<TaskID>)
    ensures forall id :: id in picked <==> id in order && id in keep
  {
    if order == [] then []
    else
      var rest := Pick(order[..|order| - 1], keep);
      var last := order[|order| - 1];
      if last in keep then rest + [last] else rest
  }

  lemma PickStep(order: seq<TaskID>, i: nat, keep: set<TaskID>)
    requires i < |order|
    ensures Pick(order[..i + 1], keep) ==
            if order[i] in keep then Pick(order[..i], keep) + [order[i]] else Pick(order[..i], keep)
    ensures order[..|order|] == order
  {
    assert order[..i + 1][..i] == order[..i];
  }

  lemma {:induction false} PickNoDup(order: seq<TaskID>, keep: set<TaskID>)
    requires NoDup(order)
    ensures NoDup(Pick(order, keep))
  {
    if order != [] {
      PickNoDup(order[..|order| - 1], keep);
    }
  }

  predicate IsCompleted(db: Tables, id: TaskID) {
    id in db.tasks && db.tasks[id].status == Completed
  }

  /** Every dependency the row lists is a stored, completed task. */
  predicate Satisfied(db: Tables, id: TaskID)
    requires id in db.tasks
  {
    forall i :: 0 <= i < |db.tasks[id].dependsOn| ==> IsCompleted(db, db.tasks[id].dependsOn[i])
  }

  function RowsOf(db: Tables, ids: seq<TaskID>): (rows: seq<TaskRow>)
    requires forall id :: id in ids ==> id in db.tasks
    ensures |rows| == |ids|
  {
    seq(|ids|, i requires 0 <= i < |ids| => db.tasks[ids[i]])
  }

  function LikeSet(db: Tables, id: TaskID): set<TaskID> {
    set t | t in db.tasks && DependencyText.Shows(db.tasks[t].dependsOn, id)
  }

  function DependentSet(db: Tables, id: TaskID): set<TaskID> {
    set t | t in db.tasks && id in db.tasks[t].dependsOn && DependencyText.Shows(db.tasks[t].dependsOn, id)
  }

  function MemberSet(db: Tables, workflowID: string): set<TaskID> {
    set t | t in db.tasks && db.tasks[t].workflowID == workflowID
  }

  ghost predicate Consistent(db: Tables) {
    && NoDup(db.order)
    && (forall id :: id in db.tasks <==> id in db.order)
    && (forall id :: id in db.tasks ==> db.tasks[id].id == id && db.tasks[id].workflowID in db.workflows)
    && (forall w :: w in db.workflows ==> db.workflows[w].id == w)
  }

  // ---- submission ----

  function AddRow(db: Tables, row: TaskRow): Tables {
    db.(tasks := db.tasks[row.id := row], order := db.order + [row.id])
  }

  datatype Inserted = Inserted(db: Tables, ok: bool)

  /** Rows are inserted one by one; the first failing insert stops, keeping the earlier rows. */
  function InsertTasks(db: Tables, workflowID: string, tasks: seq<WorkflowTypes.TaskDef>, f: Faults): Inserted {
    if tasks == [] then Inserted(db, true)
    else
      var n := |tasks| - 1;
      var before := InsertTasks(db, workflowID, tasks[..n], f);
      if !before.ok then before
      else if n in f.createTask || tasks[n].id in before.db.tasks then Inserted(before.db, false)
      else Inserted(AddRow(before.db, TaskDefToStorage(tasks[n], workflowID)), true)
  }

  function RootEvents(roots: seq<WorkflowTypes.TaskDef>, workflowID: string): (events: seq<BusEvent>)
    ensures |events| == |roots|
  {
    seq(|roots|, i requires 0 <= i < |roots| =>
      TaskAssigned(workflowID, roots[i].id, roots[i].agent, roots[i].name, roots[i].description,
                   roots[i].originalMessage))
  }

  ghost function Submit(s: State, def: WorkflowTypes.Definition, freshID: string, f: Faults): (State, Outcome) {
    if !WorkflowTypes.Acceptable(def.tasks) then (s, InvalidWorkflow)
    else
      var w := if def.id == "" then freshID else def.id;
      if f.createWorkflow || w in s.db.workflows then (s, StoreError)
      else
        var row := WorkflowRow(w, def.name, def.createdBy, def.originalMessage, WorkflowRunning);
        var ins := InsertTasks(s.db.(workflows := s.db.workflows[w := row]), w, def.tasks, f);
        if !ins.ok then (State(ins.db, s.bus), StoreError)
        else if def.isTemplate then (State(ins.db, s.bus), Ok)
        else (State(ins.db, s.bus + RootEvents(WorkflowTypes.Roots(def.tasks), w)), Ok)
  }

  // ---- completion ----

  function SetStatus(db: Tables, id: TaskID, status: TaskStatus, error: string, fault: bool): Tables {
    if fault || id !in db.tasks then db
    else db.(tasks := db.tasks[id := db.tasks[id].(status := status, error := error)])
  }

  function SetResult(db: Tables, id: TaskID, result: Option<string>, fault: bool): Tables {
    if fault || id !in db.tasks then db
    else db.(tasks := db.tasks[id := db.tasks[id].(result := result)])
  }

  function AssignEvent(row: TaskRow): BusEvent {
    TaskAssigned(row.workflowID, row.id, row.agent, row.name, row.description, "")
  }

  function AssignEvents(db: Tables, ids: seq<TaskID>): (events: seq<BusEvent>)
    requires forall id :: id in ids ==> id in db.tasks
    ensures |events| == |ids|
  {
    seq(|ids|, i requires 0 <= i < |ids| => AssignEvent(db.tasks[ids[i]]))
  }

  /** The dependents of a just-completed task that are ready to run. */
  function Ready(db: Tables, id: TaskID, f: Faults): set<TaskID> {
    set t | t in DependentSet(db, id) && t !in f.dependencyCheck && Satisfied(db, t)
  }

  predicate AllCompleted(db: Tables, workflowID: string) {
    forall t :: t in MemberSet(db, workflowID) ==> IsCompleted(db, t)
  }

  /** The stored results of a workflow's tasks. */
  function ResultsOf(db: Tables, workflowID: string): map<TaskID, string> {
    map t | t in MemberSet(db, workflowID) && db.tasks[t].result.Some? :: db.tasks[t].result.value
  }

  function CheckCompletion(s: State, workflowID: string, f: Faults): (State, Outcome) {
    if f.getTasks then (s, StoreError)
    else if !AllCompleted(s.db, workflowID) then (s, Ok)
    else if f.getWorkflow || workflowID !in s.db.workflows then (s, StoreError)
    else
      var row := s.db.workflows[workflowID];
      var event := WorkflowCompleted(workflowID, row.createdBy, "completed",
                                     ResultsOf(s.db, workflowID), row.originalMessage);
      var workflows := if f.updateWorkflow then s.db.workflows
                       else s.db.workflows[workflowID := row.(status := WorkflowDone)];
      (State(s.db.(workflows := workflows), s.bus + [event]), Ok)
  }

  /** The completed task's row afterwards: a failure writes only the status, a success
      first the result and then the status. */
  function RecordedRow(row: TaskRow, p: Payload, f: Faults): TaskRow {
    if p.error != "" then
      if f.updateStatus then row else row.(status := Failed, error := p.error)
    else
      var result := if p.result.Some? && !f.marshalResult then p.result else None;
      var mid := if f.updateResult then row else row.(result := result);
      if f.updateStatus then mid else mid.(status := Completed, error := "")
  }

  function Recorded(db: Tables, p: Payload, f: Faults): Tables {
    if p.taskID !in db.tasks then db
    else db.(tasks := db.tasks[p.taskID := RecordedRow(db.tasks[p.taskID], p, f)])
  }

  function Complete(s: State, p: Payload, f: Faults): (State, Outcome) {
    if f.getTask || p.taskID !in s.db.tasks then (s, StoreError)
    else
      var db := Recorded(s.db, p, f);
      if p.error != "" then (State(db, s.bus), Ok)
      else if f.getDependents then (State(db, s.bus), StoreError)
      else
        var fired := Pick(db.order, Ready(db, p.taskID, f));
        CheckCompletion(State(db, s.bus + AssignEvents(db, fired)), p.workflowID, f)
  }
}
