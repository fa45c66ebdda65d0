/** A launched workflow that never starts: its only task depends on a task that was completed
    in an earlier workflow. */
module WorkflowExample {
  import opened Options
  import opened TaskGraph
  import opened WorkflowTypes
  import opened WorkflowState
  import opened WorkflowSteps
  import opened WorkflowRuns
  import opened WorkflowProgress

  const NO_FAULTS := Faults(false, {}, false, false, false, false, false, {}, false, false, false)
  const A := TaskID("a")
  const B := TaskID("b")
  const EARLY := TaskDef(A, "", "", "", [], "", 3, 0, "")
  const LATE := TaskDef(B, "", "", "", [A], "", 3, 0, "")
  const FIRST := Definition("first", false, "", "", "", [EARLY])
  const SECOND := Definition("second", false, "", "", "", [LATE])
  const REPORT := Payload("first", A, None, "")

  /** Task "a" is submitted and reported successful; then "b" is submitted, which depends on it. */
  const LATE_RUN := [SubmitAction(FIRST, "", NO_FAULTS), CompleteAction(REPORT, NO_FAULTS),
                     SubmitAction(SECOND, "", NO_FAULTS)]

  lemma EarlyAccepted()
    ensures Acceptable([EARLY])
  {
    assert [EARLY][..0] == [] && GraphOf([EARLY]) == map[][A := []];
    TopologicalIsAcyclic(GraphOf([EARLY]), [A]);
  }

  lemma LateAccepted()
    ensures Acceptable([LATE])
  {
    assert [LATE][..0] == [] && GraphOf([LATE]) == map[][B := [A]];
    var order := [A, B];
    assert order[..1] == [A];
    TopologicalIsAcyclic(GraphOf([LATE]), order);
  }

  lemma OneInsert(db: Tables, w: string, t: TaskDef)
    requires t.id !in db.tasks
    ensures InsertTasks(db, w, [t], NO_FAULTS) == Inserted(AddRow(db, TaskDefToStorage(t, w)), true)
  {
    assert [t][..0] == [];
    assert InsertTasks(db, w, [], NO_FAULTS) == Inserted(db, true);
  }

  /** The state after the first submission. */
  lemma AfterFirst()
    ensures var row := WorkflowRow("first", "", "", "", WorkflowRunning);
            Submit(EMPTY, FIRST, "", NO_FAULTS) ==
            (State(AddRow(Tables(map["first" := row], map[], []), TaskDefToStorage(EARLY, "first")),
                   RootEvents([EARLY], "first")), Ok)
  {
    EarlyAccepted();
    OneInsert(Tables(map["first" := WorkflowRow("first", "", "", "", WorkflowRunning)], map[], []), "first", EARLY);
    assert Roots([EARLY]) == [EARLY] by {
      assert [EARLY][..0] == [] && Roots([EARLY][..0]) == [];
    }
    assert [] + RootEvents([EARLY], "first") == RootEvents([EARLY], "first");
    assert map[]["first" := WorkflowRow("first", "", "", "", WorkflowRunning)] ==
           map["first" := WorkflowRow("first", "", "", "", WorkflowRunning)];
  }

  lemma Prefixes()
    ensures LATE_RUN[..1] == [LATE_RUN[0]] && LATE_RUN[..1][..0] == []
    ensures LATE_RUN[..2][..1] == LATE_RUN[..1] && LATE_RUN[..3] == LATE_RUN
    ensures Run(LATE_RUN[..1]) == Submit(EMPTY, FIRST, "", NO_FAULTS).0
    ensures Run(LATE_RUN[..2]) == Complete(Run(LATE_RUN[..1]), REPORT, NO_FAULTS).0
    ensures Run(LATE_RUN) == Submit(Run(LATE_RUN[..2]), SECOND, "", NO_FAULTS).0
  {
    assert Run(LATE_RUN[..1][..0]) == EMPTY;
  }

  /** The tables after the report: "a" is completed, and "second" and "b" are not stored. */
  lemma AfterReport()
    ensures var db := Run(LATE_RUN[..2]).db;
            IsCompleted(db, A) && B !in db.tasks && "second" !in db.workflows
  {
    Prefixes();
    AfterFirst();
    RunConsistent(LATE_RUN[..1]);
    CompleteTables(Run(LATE_RUN[..1]), REPORT, NO_FAULTS);
  }

  lemma SecondLaunched()
    ensures Launched(LATE_RUN, 2) && SatisfiedAtLaunch(LATE_RUN, 2, B)
  {
    Prefixes();
    AfterReport();
    LateAccepted();
    RunConsistent(LATE_RUN[..2]);
    SubmitExact(Run(LATE_RUN[..2]), SECOND, "", NO_FAULTS);
    LaunchState(LATE_RUN, 2);
    assert LATE in SECOND.tasks && Stored(Run(LATE_RUN[..2]).db, Run(LATE_RUN).db, LATE, "second");
    StepKeeps(Run(LATE_RUN[..2]), LATE_RUN[2]);
    SubmitStatus(Run(LATE_RUN[..2]), LATE_RUN[2], A);
  }

  lemma ReportedOnce()
    ensures OncePerTask(LATE_RUN) && Truthful(LATE_RUN)
  {
    Prefixes();
    AfterFirst();
    assert AssignedAt(Run(LATE_RUN[..1]).bus, 0, "first", A);
    forall i | 0 <= i < |LATE_RUN| ensures ReportsAssigned(LATE_RUN, i) {
    }
  }

  /** The run is one the engine can make, by reports that answer assignments once. */
  lemma LateRunHappens()
    ensures Launched(LATE_RUN, 2) && SatisfiedAtLaunch(LATE_RUN, 2, B)
    ensures OncePerTask(LATE_RUN) && Truthful(LATE_RUN)
  {
    SecondLaunched();
    ReportedOnce();
  }

  /** However the run goes on, as long as each task is reported at most once, "b" is never
      assigned: a launched workflow with one task, its dependency completed, and nothing to do. */
  lemma LateNeverStarts(more: seq<Action>, k: nat)
    requires OncePerTask(LATE_RUN + more)
    requires k < |Run(LATE_RUN + more).bus| && Run(LATE_RUN + more).bus[k].TaskAssigned?
    ensures Launched(LATE_RUN + more, 2)
    ensures Run(LATE_RUN + more).bus[k].taskID != B
  {
    var acts := LATE_RUN + more;
    SecondLaunched();
    assert acts[..2] == LATE_RUN[..2] && acts[..3] == LATE_RUN && LATE_RUN[..3] == LATE_RUN;
    assert LATE in acts[2].def.tasks;
    SatisfiedAtLaunchNeverStarts(acts, 2, LATE, k);
  }
}
