/** The two places that replace task IDs by fresh ones before submission: parsing a workflow
    the model generated, and instantiating a stored template. UUIDs are drawn from `uuids`. */
module WorkflowRemap {
  import opened TaskGraph
  import opened WorkflowTypes
  import opened WorkflowState
  import opened WorkflowSteps
  import opened WorkflowRuns
  import WorkflowProgress
  import WorkflowResults
  import opened GraphRenaming

  datatype WorkflowStep = WorkflowStep(id: TaskID, name: string, task: string, agent: string, dependsOn: seq<TaskID>)

  const NO_ID := TaskID("")

  /** The drawn UUIDs are distinct and collide with no name in use. */
  ghost predicate FreshFor(uuids: seq<TaskID>, tasks: seq<TaskDef>) {
    NoDup(uuids) && NO_ID !in uuids && forall id :: id in uuids ==> id !in Names(tasks)
  }

  /** Every value of the map is a drawn UUID, and distinct keys have distinct values. */
  ghost predicate FreshMap(m: map<TaskID, TaskID>, uuids: seq<TaskID>) {
    && (forall a :: a in m ==> m[a] in uuids)
    && (forall a, b :: a in m && b in m && m[a] == m[b] ==> a == b)
  }

  // ---- parsing a generated workflow ----

  /** The steps read as tasks under their own IDs. */
  function AsTasks(steps: seq<WorkflowStep>): (tasks: seq<TaskDef>)
    ensures |tasks| == |steps|
  {
    seq(|steps|, i requires 0 <= i < |steps| =>
      TaskDef(steps[i].id, steps[i].name, steps[i].task, "agent_execution", steps[i].dependsOn,
              steps[i].agent, 3, 0, ""))
  }

  /** UUIDs drawn for the steps: two for a step without an ID, one for any other. */
  function Draws(steps: seq<WorkflowStep>): nat {
    if steps == [] then 0
    else Draws(steps[..|steps| - 1]) + if steps[|steps| - 1].id == NO_ID then 2 else 1
  }

  lemma {:induction false} DrawsBound(steps: seq<WorkflowStep>, n: nat)
    requires n <= |steps|
    ensures Draws(steps[..n]) <= Draws(steps) <= 2 * |steps|
    ensures n < |steps| ==>
              Draws(steps[..n]) + (if steps[n].id == NO_ID then 2 else 1) == Draws(steps[..n + 1]) <= Draws(steps)
    decreases |steps|, |steps| - n
  {
    if n < |steps| {
      assert steps[..n + 1][..n] == steps[..n];
      DrawsBound(steps, n + 1);
    } else {
      assert steps[..n] == steps;
      if steps != [] {
        var m := |steps| - 1;
        assert steps[..m][..m] == steps[..m];
        DrawsBound(steps[..m], m);
      }
    }
  }

  /** A step without an ID registers its new ID under a throw-away key: the generated old
      ID is written to a copy of the step, so the step itself still has none. */
  function IDMap(steps: seq<WorkflowStep>, uuids: seq<TaskID>): map<TaskID, TaskID>
    requires |uuids| >= Draws(steps)
  {
    if steps == [] then map[]
    else
      var n := |steps| - 1;
      var at := Draws(steps[..n]);
      if steps[n].id == NO_ID then IDMap(steps[..n], uuids)[uuids[at] := uuids[at + 1]]
      else IDMap(steps[..n], uuids)[steps[n].id := uuids[at]]
  }

  /** Everything but ID and dependencies of a task, from the step it was made of. */
  ghost predicate FromStep(step: WorkflowStep, t: TaskDef) {
    && t.name == step.name && t.description == step.task && t.agent == step.agent
    && t.kind == "agent_execution" && t.maxRetries == 3 && t.timeout == 0 && t.originalMessage == ""
  }

  method ParseWorkflow(name: string, schedule: string, steps: seq<WorkflowStep>, agent: string,
                       message: string, uuids: seq<TaskID>) returns (def: Definition)
    requires |uuids| > Draws(steps)
    ensures var m := IDMap(steps, uuids);
            && |def.tasks| == |steps| && Renamed(AsTasks(steps), def.tasks, m)
            && (forall i :: 0 <= i < |steps| ==>
                  def.tasks[i] == AsTasks(steps)[i].(id := def.tasks[i].id, dependsOn := def.tasks[i].dependsOn))
    ensures forall i :: 0 <= i < |steps| ==> FromStep(steps[i], def.tasks[i])
    ensures def.isTemplate == (schedule != "") && def.name == name
    ensures def.id == uuids[Draws(steps)].text && def.createdBy == agent && def.originalMessage == message
  {
    var idMap, next := MapIDs(steps, uuids);
    var tasks: seq<TaskDef> := [];
    for i := 0 to |steps|
      invariant |tasks| == i && idMap == IDMap(steps, uuids)
      invariant forall k :: 0 <= k < i ==> SameShape(AsTasks(steps)[k], tasks[k], idMap)
      invariant forall k :: 0 <= k < i ==>
        tasks[k] == AsTasks(steps)[k].(id := tasks[k].id, dependsOn := tasks[k].dependsOn)
      invariant forall k :: 0 <= k < i ==> FromStep(steps[k], tasks[k])
    {
      var newDeps := RemapDeps(steps[i].dependsOn, idMap);
      var newID := if steps[i].id in idMap then idMap[steps[i].id] else NO_ID;
      UnmappedHasNoID(steps, uuids, i);
      tasks := tasks + [TaskDef(newID, steps[i].name, steps[i].task, "agent_execution", newDeps,
                                steps[i].agent, 3, 0, "")];
    }
    def := Definition(uuids[next].text, schedule != "", name, agent, message, tasks);
  }

  /** The first pass: two UUIDs drawn for a step without an ID, one for any other. */
  method MapIDs(steps: seq<WorkflowStep>, uuids: seq<TaskID>) returns (idMap: map<TaskID, TaskID>, next: nat)
    requires |uuids| > Draws(steps)
    ensures idMap == IDMap(steps, uuids) && next == Draws(steps)
  {
    idMap, next := map[], 0;
    for i := 0 to |steps|
      invariant next == Draws(steps[..i]) <= Draws(steps) && idMap == IDMap(steps[..i], uuids)
    {
      DrawsBound(steps, i);
      assert steps[..i + 1][..i] == steps[..i];
      var oldID := steps[i].id;
      if oldID == NO_ID {
        oldID := uuids[next];
        next := next + 1;
      }
      idMap := idMap[oldID := uuids[next]];
      next := next + 1;
    }
    assert steps[..|steps|] == steps;
  }

  method RemapDeps(deps: seq<TaskID>, idMap: map<TaskID, TaskID>) returns (newDeps: seq<TaskID>)
    ensures newDeps == NewNames(idMap, deps)
  {
    newDeps := [];
    for i := 0 to |deps|
      invariant |newDeps| == i && forall k :: 0 <= k < i ==> newDeps[k] == NewName(idMap, deps[k])
    {
      newDeps := newDeps + [if deps[i] in idMap then idMap[deps[i]] else deps[i]];
    }
  }

  lemma {:induction false} UnmappedHasNoID(steps: seq<WorkflowStep>, uuids: seq<TaskID>, i: nat)
    requires |uuids| >= Draws(steps) && i < |steps|
    ensures steps[i].id != NO_ID ==> steps[i].id in IDMap(steps, uuids)
  {
    var n := |steps| - 1;
    if i < n {
      UnmappedHasNoID(steps[..n], uuids, i);
    }
  }

  lemma {:induction false} IDMapValue(steps: seq<WorkflowStep>, uuids: seq<TaskID>, a: TaskID) returns (k: nat)
    requires |uuids| >= Draws(steps) && a in IDMap(steps, uuids)
    ensures k < Draws(steps) && uuids[k] == IDMap(steps, uuids)[a]
  {
    var n := |steps| - 1;
    DrawsBound(steps, n);
    assert steps[..n + 1] == steps;
    var at := Draws(steps[..n]);
    if steps[n].id == NO_ID && a == uuids[at] {
      k := at + 1;
    } else if steps[n].id != NO_ID && a == steps[n].id {
      k := at;
    } else {
      k := IDMapValue(steps[..n], uuids, a);
    }
  }

  lemma {:induction false} IDMapInjective(steps: seq<WorkflowStep>, uuids: seq<TaskID>)
    requires |uuids| >= Draws(steps) && NoDup(uuids)
    ensures FreshMap(IDMap(steps, uuids), uuids)
  {
    if steps != [] {
      var n := |steps| - 1;
      IDMapInjective(steps[..n], uuids);
      DrawsBound(steps, n);
      assert steps[..n + 1] == steps;
      var before, m := IDMap(steps[..n], uuids), IDMap(steps, uuids);
      var at := Draws(steps[..n]);
      var key := if steps[n].id == NO_ID then uuids[at] else steps[n].id;
      var last := if steps[n].id == NO_ID then at + 1 else at;
      assert m == before[key := uuids[last]];
      forall a | a in before ensures before[a] != uuids[last] {
        var k := IDMapValue(steps[..n], uuids, a);
      }
    }
  }

  /** Parsing keeps the graph: with distinct step IDs the tasks have distinct IDs, and they
      are accepted, closed and rooted exactly where the steps are. Distinct step IDs are
      also necessary for distinct task IDs. */
  lemma {:induction false} ParsingKeepsGraph(steps: seq<WorkflowStep>, uuids: seq<TaskID>, tasks: seq<TaskDef>)
    requires |uuids| > Draws(steps) && FreshFor(uuids, AsTasks(steps))
    requires Renamed(AsTasks(steps), tasks, IDMap(steps, uuids))
    ensures DistinctIDs(tasks) <==> DistinctIDs(AsTasks(steps))
    ensures DistinctIDs(tasks) ==>
              && (Acceptable(tasks) <==> Acceptable(AsTasks(steps)))
              && (Closed(GraphOf(tasks)) <==> Closed(GraphOf(AsTasks(steps))))
              && (forall i :: 0 <= i < |steps| ==> (IsRoot(tasks[i]) <==> steps[i].dependsOn == []))
  {
    var before, m := AsTasks(steps), IDMap(steps, uuids);
    IDMapInjective(steps, uuids);
    FreshMapApart(before, m, uuids);
    RenamedIDs(before, tasks, m);
    if DistinctIDs(before) {
      RenamedTasks(before, tasks, m);
    }
  }

  /** A task gets a fresh ID exactly if its step has an ID; a step without one becomes a task
      without one. */
  lemma {:induction false} FreshIDs(steps: seq<WorkflowStep>, uuids: seq<TaskID>, tasks: seq<TaskDef>, i: nat)
    requires |uuids| > Draws(steps) && FreshFor(uuids, AsTasks(steps)) && i < |steps|
    requires Renamed(AsTasks(steps), tasks, IDMap(steps, uuids))
    ensures tasks[i].id in uuids <==> steps[i].id != NO_ID
    ensures steps[i].id == NO_ID ==> tasks[i].id == NO_ID
  {
    var m := IDMap(steps, uuids);
    IDMapInjective(steps, uuids);
    UnmappedHasNoID(steps, uuids, i);
    NoIDUnmapped(steps, uuids);
    assert SameShape(AsTasks(steps)[i], tasks[i], m);
  }

  /** In any run, whatever is assigned of a generated workflow goes to the agent its step names,
      under the step's name, with the step's work. */
  lemma {:induction false} GeneratedAssignment(acts: seq<Action>, i: nat, steps: seq<WorkflowStep>, j: nat, k: nat)
    requires WorkflowProgress.SubmittedOk(acts, i) && j < |steps| == |acts[i].def.tasks|
    requires FromStep(steps[j], acts[i].def.tasks[j])
    requires k < |Run(acts).bus| && Run(acts).bus[k].TaskAssigned?
    requires Run(acts).bus[k].taskID == acts[i].def.tasks[j].id
    ensures var e := Run(acts).bus[k];
            e == TaskAssigned(WorkflowIDOf(acts[i]), e.taskID, steps[j].agent, steps[j].name, steps[j].task, "")
  {
    WorkflowResults.AssignmentOf(acts, i, acts[i].def.tasks[j], k);
  }

  lemma {:induction false} NoIDUnmapped(steps: seq<WorkflowStep>, uuids: seq<TaskID>)
    requires |uuids| >= Draws(steps) && NO_ID !in uuids
    ensures NO_ID !in IDMap(steps, uuids)
  {
    if steps != [] {
      DrawsBound(steps, |steps| - 1);
      assert steps[..|steps|] == steps;
      NoIDUnmapped(steps[..|steps| - 1], uuids);
    }
  }

  /** Two steps with the same ID, or two without, make the submission fail. If its workflow row
      could be inserted, rows are left behind. */
  lemma {:induction false} DuplicateStepsFail(steps: seq<WorkflowStep>, uuids: seq<TaskID>,
                                              s: State, def: Definition, freshID: string, f: Faults)
    requires |uuids| > Draws(steps) && FreshFor(uuids, AsTasks(steps)) && !DistinctIDs(AsTasks(steps))
    requires Renamed(AsTasks(steps), def.tasks, IDMap(steps, uuids)) && Consistent(s.db)
    ensures Submit(s, def, freshID, f).1 != Ok
    ensures Begins(s, def, freshID, f) <==> Submit(s, def, freshID, f).0 != s
  {
    ParsingKeepsGraph(steps, uuids, def.tasks);
    SubmitExact(s, def, freshID, f);
  }

  /** Two equal steps, submitted to an empty store that never fails. */
  const TWINS := [WorkflowStep(TaskID("a"), "", "", "", []), WorkflowStep(TaskID("a"), "", "", "", [])]

  /** They leave a workflow that is stored as running, with one task and nothing assigned. */
  lemma {:induction false} TwinsLeftBehind(uuids: seq<TaskID>, def: Definition, freshID: string, f: Faults)
    requires |uuids| > Draws(TWINS) && FreshFor(uuids, AsTasks(TWINS))
    requires Renamed(AsTasks(TWINS), def.tasks, IDMap(TWINS, uuids)) && !f.createWorkflow && f.createTask == {}
    ensures var (s, outcome) := Submit(EMPTY, def, freshID, f);
            var w := if def.id == "" then freshID else def.id;
            && outcome == StoreError && s.bus == []
            && w in s.db.workflows && s.db.workflows[w].status == WorkflowRunning
            && s.db.tasks.Keys == {def.tasks[0].id}
  {
    var t, u := def.tasks[0], def.tasks[1];
    assert SameShape(AsTasks(TWINS)[0], t, IDMap(TWINS, uuids)) && SameShape(AsTasks(TWINS)[1], u, IDMap(TWINS, uuids));
    assert t.id == u.id && t.dependsOn == [] && u.dependsOn == [];
    SameRootsAccepted(def.tasks, t, u);
    assert AsTasks(TWINS)[0].id == AsTasks(TWINS)[1].id;
    DuplicateStepsFail(TWINS, uuids, EMPTY, def, freshID, f);
    SubmitExact(EMPTY, def, freshID, f);
    var w := if def.id == "" then freshID else def.id;
    var row := WorkflowRow(w, def.name, def.createdBy, def.originalMessage, WorkflowRunning);
    TwoInserts(Tables(map[w := row], map[], []), def.tasks, t, u, w, f);
  }

  lemma SameRootsAccepted(tasks: seq<TaskDef>, t: TaskDef, u: TaskDef)
    requires tasks == [t, u] && t.id == u.id && t.dependsOn == [] && u.dependsOn == []
    ensures Acceptable(tasks)
  {
    assert tasks[..1] == [t] && [t][..0] == [];
    assert GraphOf([t]) == map[][t.id := t.dependsOn];
    assert GraphOf(tasks) == GraphOf([t])[u.id := u.dependsOn];
    TopologicalIsAcyclic(GraphOf(tasks), [t.id]);
  }

  lemma TwoInserts(db: Tables, tasks: seq<TaskDef>, t: TaskDef, u: TaskDef, w: string, f: Faults)
    requires tasks == [t, u] && t.id == u.id && f.createTask == {} && db.tasks == map[]
    ensures InsertTasks(db, w, tasks, f) == Inserted(AddRow(db, TaskDefToStorage(t, w)), false)
  {
    assert tasks[..1] == [t] && [t][..0] == [];
    assert InsertTasks(db, w, [], f) == Inserted(db, true);
    assert InsertTasks(db, w, [t], f) == Inserted(AddRow(db, TaskDefToStorage(t, w)), true);
  }

  lemma {:induction false} FreshMapApart(tasks: seq<TaskDef>, m: map<TaskID, TaskID>, uuids: seq<TaskID>)
    requires FreshFor(uuids, tasks)
    requires FreshMap(m, uuids)
    ensures Apart(Names(tasks), m)
  {
  }

  // ---- instantiating a template ----

  function RowDefs(rows: seq<TaskRow>): (tasks: seq<TaskDef>)
    ensures |tasks| == |rows|
  {
    seq(|rows|, i requires 0 <= i < |rows| => StorageToTaskDef(rows[i]))
  }

  /** Each row's ID is sent to the UUID drawn for it; a repeated ID keeps the last. */
  function RowMap(rows: seq<TaskRow>, uuids: seq<TaskID>): map<TaskID, TaskID>
    requires |uuids| >= |rows|
  {
    if rows == [] then map[]
    else RowMap(rows[..|rows| - 1], uuids)[rows[|rows| - 1].id := uuids[|rows| - 1]]
  }

  lemma {:induction false} RowMapFresh(rows: seq<TaskRow>, uuids: seq<TaskID>)
    requires |uuids| >= |rows| && NoDup(uuids)
    ensures forall i :: 0 <= i < |rows| ==> rows[i].id in RowMap(rows, uuids)
    ensures FreshMap(RowMap(rows, uuids), uuids[..|rows|])
  {
    if rows != [] {
      var n := |rows| - 1;
      RowMapFresh(rows[..n], uuids);
      var before, m := RowMap(rows[..n], uuids), RowMap(rows, uuids);
      forall i | 0 <= i < |rows| ensures rows[i].id in m {
        if i < n {
          assert rows[..n][i].id in before;
        }
      }
      assert uuids[..|rows|] == uuids[..n] + [uuids[n]];
      assert uuids[n] !in uuids[..n];
    }
  }

  /** Tasks that differ at most in ID and dependencies. */
  ghost predicate SameButNames(before: seq<TaskDef>, after: seq<TaskDef>) {
    && |after| == |before|
    && forall i :: 0 <= i < |before| ==>
         after[i] == before[i].(id := after[i].id, dependsOn := after[i].dependsOn)
  }

  method Instantiate(template: WorkflowRow, rows: seq<TaskRow>, uuids: seq<TaskID>) returns (def: Definition)
    requires |uuids| > |rows|
    ensures Renamed(RowDefs(rows), def.tasks, RowMap(rows, uuids)) && SameButNames(RowDefs(rows), def.tasks)
    ensures def == Definition(uuids[|rows|].text, false, template.name, template.createdBy,
                              template.originalMessage, def.tasks)
  {
    var idMap: map<TaskID, TaskID> := map[];
    for i := 0 to |rows|
      invariant idMap == RowMap(rows[..i], uuids)
      invariant forall k :: 0 <= k < i ==> rows[k].id in idMap
    {
      assert rows[..i + 1][..i] == rows[..i];
      idMap := idMap[rows[i].id := uuids[i]];
    }
    assert rows[..|rows|] == rows;
    var tasks: seq<TaskDef> := [];
    for i := 0 to |rows|
      invariant |tasks| == i
      invariant forall k :: 0 <= k < i ==> SameShape(RowDefs(rows)[k], tasks[k], idMap)
      invariant forall k :: 0 <= k < i ==>
        tasks[k] == RowDefs(rows)[k].(id := tasks[k].id, dependsOn := tasks[k].dependsOn)
    {
      var d := StorageToTaskDef(rows[i]);
      var newDeps := RemapDeps(d.dependsOn, idMap);
      tasks := tasks + [d.(id := idMap[rows[i].id], dependsOn := newDeps)];
    }
    def := Definition(uuids[|rows|].text, false, template.name, template.createdBy, template.originalMessage, tasks);
  }

  /** The rows the store returns for a workflow. */
  function StoredRows(db: Tables, w: string): seq<TaskRow>
  {
    RowsOf(db, Pick(db.order, MemberSet(db, w)))
  }

  lemma {:induction false} StoredNode(acts: seq<Action>, i: nat, k: nat)
    requires WorkflowProgress.SubmittedOk(acts, i)
    requires k < |StoredRows(Run(acts).db, WorkflowIDOf(acts[i]))|
    ensures var row, def := StoredRows(Run(acts).db, WorkflowIDOf(acts[i]))[k], acts[i].def;
            row.id == Pick(Run(acts).db.order, MemberSet(Run(acts).db, WorkflowIDOf(acts[i])))[k]
            && row.id in GraphOf(def.tasks) && GraphOf(def.tasks)[row.id] == row.dependsOn
  {
    var db, w, def := Run(acts).db, WorkflowIDOf(acts[i]), acts[i].def;
    var ids := Pick(db.order, MemberSet(db, w));
    RunConsistent(acts);
    WorkflowProgress.LaunchedRows(acts, i);
    WorkflowProgress.LaunchAccepted(acts, i);
    GraphOfTasks(def.tasks);
    assert ids[k] in ids;
    var t :| t in def.tasks && t.id == ids[k];
    var j :| 0 <= j < |def.tasks| && def.tasks[j] == t;
  }

  lemma {:induction false} StoredTask(acts: seq<Action>, i: nat, id: TaskID) returns (k: nat)
    requires WorkflowProgress.SubmittedOk(acts, i) && id in GraphOf(acts[i].def.tasks)
    ensures k < |StoredRows(Run(acts).db, WorkflowIDOf(acts[i]))|
    ensures StoredRows(Run(acts).db, WorkflowIDOf(acts[i]))[k].id == id
  {
    var db, w, def := Run(acts).db, WorkflowIDOf(acts[i]), acts[i].def;
    var ids := Pick(db.order, MemberSet(db, w));
    RunConsistent(acts);
    WorkflowProgress.LaunchedRows(acts, i);
    GraphOfTasks(def.tasks);
    var j :| 0 <= j < |def.tasks| && def.tasks[j].id == id;
    assert def.tasks[j] in def.tasks && id in MemberSet(db, w);
    assert id in db.order;
    k :| 0 <= k < |ids| && ids[k] == id;
  }

  /** The stored rows of a submitted workflow, read back as tasks, form its graph again. */
  lemma {:induction false} StoredGraph(acts: seq<Action>, i: nat)
    requires WorkflowProgress.SubmittedOk(acts, i)
    ensures var tasks := RowDefs(StoredRows(Run(acts).db, WorkflowIDOf(acts[i])));
            tasks != [] && DistinctIDs(tasks) && GraphOf(tasks) == GraphOf(acts[i].def.tasks)
  {
    var db, w, def := Run(acts).db, WorkflowIDOf(acts[i]), acts[i].def;
    var rows, g := StoredRows(db, w), GraphOf(def.tasks);
    RunConsistent(acts);
    WorkflowProgress.LaunchAccepted(acts, i);
    GraphOfTasks(def.tasks);
    PickNoDup(db.order, MemberSet(db, w));
    assert def.tasks[0].id in g;
    var first := StoredTask(acts, i, def.tasks[0].id);
    forall k | 0 <= k < |rows|
      ensures rows[k].id == Pick(db.order, MemberSet(db, w))[k]
      ensures rows[k].id in g && g[rows[k].id] == rows[k].dependsOn {
      StoredNode(acts, i, k);
    }
    forall id | id in g ensures exists k :: 0 <= k < |rows| && rows[k].id == id {
      var k := StoredTask(acts, i, id);
    }
    RowsFormGraph(rows, g);
  }

  lemma {:induction false} RowsFormGraph(rows: seq<TaskRow>, g: Graph)
    requires forall j, k :: 0 <= j < k < |rows| ==> rows[j].id != rows[k].id
    requires forall k :: 0 <= k < |rows| ==> rows[k].id in g && g[rows[k].id] == rows[k].dependsOn
    requires forall id :: id in g ==> exists k :: 0 <= k < |rows| && rows[k].id == id
    ensures DistinctIDs(RowDefs(rows)) && GraphOf(RowDefs(rows)) == g
  {
    var tasks := RowDefs(rows);
    assert forall k :: 0 <= k < |rows| ==> tasks[k].id == rows[k].id && tasks[k].dependsOn == rows[k].dependsOn;
    GraphOfTasks(tasks);
    hide RowDefs, GraphOf, StorageToTaskDef;
    forall id ensures id in GraphOf(tasks) <==> id in g {
      if id in g {
        var k :| 0 <= k < |rows| && rows[k].id == id;
        assert tasks[k].id == id;
      }
    }
    forall id | id in g ensures GraphOf(tasks)[id] == g[id] {
      var k :| 0 <= k < |rows| && rows[k].id == id;
      assert tasks[k].id == id;
    }
  }

  /** Instantiating a stored template, at any later point of the run, gives a workflow that
      submission accepts, with fresh distinct IDs, closed exactly when the template is. */
  lemma {:induction false} InstanceAccepted(acts: seq<Action>, i: nat, uuids: seq<TaskID>, tasks: seq<TaskDef>)
    requires WorkflowProgress.SubmittedOk(acts, i)
    requires var rows := StoredRows(Run(acts).db, WorkflowIDOf(acts[i]));
             && |uuids| > |rows| && FreshFor(uuids, RowDefs(rows))
             && Renamed(RowDefs(rows), tasks, RowMap(rows, uuids))
    ensures Acceptable(tasks) && DistinctIDs(tasks)
    ensures Closed(GraphOf(tasks)) <==> Closed(GraphOf(acts[i].def.tasks))
    ensures forall k :: 0 <= k < |tasks| ==> tasks[k].id in uuids
    ensures var rows := StoredRows(Run(acts).db, WorkflowIDOf(acts[i]));
            |tasks| == |rows| && forall k :: 0 <= k < |tasks| ==> (IsRoot(tasks[k]) <==> rows[k].dependsOn == [])
  {
    var rows := StoredRows(Run(acts).db, WorkflowIDOf(acts[i]));
    var before, m := RowDefs(rows), RowMap(rows, uuids);
    StoredGraph(acts, i);
    WorkflowProgress.LaunchAccepted(acts, i);
    RowMapFresh(rows, uuids);
    FreshMapApart(before, m, uuids);
    RenamedTasks(before, tasks, m);
    forall k | 0 <= k < |tasks| ensures tasks[k].id in uuids {
      assert SameShape(before[k], tasks[k], m);
      assert rows[k].id in m;
    }
  }

  /** The instance's task is the submitted one after the store's round trip, renamed. */
  ghost predicate IsCopy(t: TaskDef, w: string, copy: TaskDef, m: map<TaskID, TaskID>) {
    copy == StorageToTaskDef(TaskDefToStorage(t, w)).(id := NewName(m, t.id), dependsOn := NewNames(m, t.dependsOn))
  }

  /** Instantiating a stored template, at any later point of the run, copies the submitted
      tasks, each exactly once: names, descriptions, agents, retries and timeouts as the round
      trip leaves them, roots to roots. */
  lemma {:induction false} InstanceCopies(acts: seq<Action>, i: nat, uuids: seq<TaskID>, tasks: seq<TaskDef>,
                                          t: TaskDef)
    returns (k: nat)
    requires WorkflowProgress.SubmittedOk(acts, i) && t in acts[i].def.tasks
    requires var rows := StoredRows(Run(acts).db, WorkflowIDOf(acts[i]));
             && |uuids| > |rows| && FreshFor(uuids, RowDefs(rows))
             && Renamed(RowDefs(rows), tasks, RowMap(rows, uuids)) && SameButNames(RowDefs(rows), tasks)
    ensures |tasks| == |acts[i].def.tasks| && k < |tasks|
    ensures IsCopy(t, WorkflowIDOf(acts[i]), tasks[k], RowMap(StoredRows(Run(acts).db, WorkflowIDOf(acts[i])), uuids))
    ensures IsRoot(tasks[k]) <==> IsRoot(t)
  {
    var w := WorkflowIDOf(acts[i]);
    var rows := StoredRows(Run(acts).db, w);
    WorkflowProgress.RowsKeepTasks(acts, i, t);
    WorkflowProgress.LaunchAccepted(acts, i);
    GraphOfTasks(acts[i].def.tasks);
    var j :| 0 <= j < |acts[i].def.tasks| && acts[i].def.tasks[j] == t;
    k := StoredTask(acts, i, t.id);
    StoredNode(acts, i, k);
    assert SameShape(RowDefs(rows)[k], tasks[k], RowMap(rows, uuids));
    RowCount(acts, i);
  }

  lemma {:induction false} RowCount(acts: seq<Action>, i: nat)
    requires WorkflowProgress.SubmittedOk(acts, i)
    ensures |StoredRows(Run(acts).db, WorkflowIDOf(acts[i]))| == |acts[i].def.tasks|
  {
    var tasks := RowDefs(StoredRows(Run(acts).db, WorkflowIDOf(acts[i])));
    StoredGraph(acts, i);
    WorkflowProgress.LaunchAccepted(acts, i);
    KeyCount(tasks);
    KeyCount(acts[i].def.tasks);
  }

  lemma KeyCount(tasks: seq<TaskDef>)
    requires DistinctIDs(tasks)
    ensures |GraphOf(tasks).Keys| == |tasks|
  {
    GraphOfTasks(tasks);
    WorkflowProgress.DistinctCount(tasks);
    forall id ensures id in GraphOf(tasks) <==> id in WorkflowProgress.TaskIDs(tasks) {
      if id in GraphOf(tasks) {
        var i :| 0 <= i < |tasks| && tasks[i].id == id;
        assert tasks[i] in tasks;
      }
    }
    assert GraphOf(tasks).Keys == WorkflowProgress.TaskIDs(tasks);
  }
}
