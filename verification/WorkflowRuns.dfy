/** Whole runs of the engine: any sequence of submissions and completions, any store faults.
    Safety holds of all of them; the once-only results need an environment that completes
    only what was assigned to it, and each task at most once. */
module WorkflowRuns {
  import opened TaskGraph
  import DependencyText
  import opened WorkflowState
  import opened WorkflowSteps

  ghost function Run(acts: seq<Action>): State {
    if acts == [] then EMPTY else Step(Run(acts[..|acts| - 1]), acts[|acts| - 1])
  }

  ghost predicate Completes(a: Action, id: TaskID) {
    a.CompleteAction? && a.p.taskID == id
  }

  ghost predicate Succeeded(acts: seq<Action>, id: TaskID) {
    exists i :: 0 <= i < |acts| && Completes(acts[i], id) && acts[i].p.error == ""
  }

  ghost predicate AssignedAt(bus: seq<BusEvent>, k: int, w: string, id: TaskID) {
    0 <= k < |bus| && bus[k].TaskAssigned? && bus[k].workflowID == w && bus[k].taskID == id
  }

  ghost predicate Assigned(bus: seq<BusEvent>, w: string, id: TaskID) {
    exists k :: AssignedAt(bus, k, w, id)
  }

  /** Each task is reported at most once. */
  ghost predicate OncePerTask(acts: seq<Action>) {
    forall i, j :: 0 <= i < j < |acts| && acts[i].CompleteAction? ==> !Completes(acts[j], acts[i].p.taskID)
  }

  ghost predicate ReportsAssigned(acts: seq<Action>, i: int)
    requires 0 <= i < |acts|
  {
    acts[i].CompleteAction? ==> Assigned(Run(acts[..i]).bus, acts[i].p.workflowID, acts[i].p.taskID)
  }

  /** Every report answers an assignment that is already on the bus. */
  ghost predicate Truthful(acts: seq<Action>) {
    forall i :: 0 <= i < |acts| ==> ReportsAssigned(acts, i)
  }

  /** Report number i answers the assignment at position `answers[i]` of the bus, and no
      assignment is answered twice. */
  ghost predicate AnswersOnce(acts: seq<Action>, answers: seq<nat>) {
    && |answers| == |acts|
    && (forall i :: 0 <= i < |acts| ==> Answers(acts, i, answers[i]))
    && (forall i, j :: 0 <= i < j < |acts| && acts[i].CompleteAction? && acts[j].CompleteAction? ==>
          answers[i] != answers[j])
  }

  ghost predicate Answers(acts: seq<Action>, i: nat, k: nat)
    requires i < |acts|
  {
    acts[i].CompleteAction? ==> AssignedAt(Run(acts[..i]).bus, k, acts[i].p.workflowID, acts[i].p.taskID)
  }

  lemma {:induction false} PrefixEnvironment(acts: seq<Action>, n: nat)
    requires n <= |acts|
    ensures OncePerTask(acts) ==> OncePerTask(acts[..n])
    ensures Truthful(acts) ==> Truthful(acts[..n])
  {
    if Truthful(acts) {
      forall i | 0 <= i < n ensures ReportsAssigned(acts[..n], i) {
        assert ReportsAssigned(acts, i);
        assert acts[..n][..i] == acts[..i];
      }
    }
  }

  // ---- facts of every run ----

  lemma {:induction false} RunConsistent(acts: seq<Action>)
    ensures Consistent(Run(acts).db)
  {
    if acts != [] {
      RunConsistent(acts[..|acts| - 1]);
      StepKeeps(Run(acts[..|acts| - 1]), acts[|acts| - 1]);
    }
  }

  /** Rows, dependencies and bus events are never taken back. */
  lemma {:induction false} RunExtends(acts: seq<Action>, n: nat)
    requires n <= |acts|
    ensures Extends(Run(acts[..n]).db, Run(acts).db) && Run(acts[..n]).bus <= Run(acts).bus
  {
    hide Step, Consistent, Extends;
    if n == |acts| {
      assert acts[..n] == acts;
      ExtendsItself(Run(acts).db);
    } else {
      var m := |acts| - 1;
      assert acts[..m][..n] == acts[..n];
      RunExtends(acts[..m], n);
      RunConsistent(acts[..m]);
      StepKeeps(Run(acts[..m]), acts[m]);
      ExtendsFurther(Run(acts[..n]).db, Run(acts[..m]).db, Run(acts).db);
    }
  }

  lemma ExtendsItself(db: Tables)
    ensures Extends(db, db)
  {
  }

  lemma ExtendsFurther(a: Tables, b: Tables, c: Tables)
    requires Extends(a, b) && Extends(b, c)
    ensures Extends(a, c)
  {
  }

  lemma {:induction false} SucceededLater(acts: seq<Action>, n: nat, id: TaskID)
    requires n <= |acts| && Succeeded(acts[..n], id)
    ensures Succeeded(acts, id)
  {
    var i :| 0 <= i < n && Completes(acts[..n][i], id) && acts[..n][i].p.error == "";
    assert Completes(acts[i], id);
  }

  /** A stored "completed" always comes from a successful report of that task. */
  lemma {:induction false} CompletedSucceeded(acts: seq<Action>, id: TaskID)
    requires IsCompleted(Run(acts).db, id)
    ensures Succeeded(acts, id)
  {
    var n := |acts| - 1;
    var s := Run(acts[..n]);
    RunConsistent(acts[..n]);
    StepStatus(s, acts[n], id);
    if IsCompleted(s.db, id) {
      CompletedSucceeded(acts[..n], id);
      SucceededLater(acts, n, id);
    } else {
      assert Completes(acts[n], id);
    }
  }

  /** Only pending, completed and failed are ever stored. */
  lemma {:induction false} StatusRange(acts: seq<Action>, id: TaskID)
    requires id in Run(acts).db.tasks
    ensures Run(acts).db.tasks[id].status in {Pending, Completed, Failed}
  {
    var n := |acts| - 1;
    var s := Run(acts[..n]);
    RunConsistent(acts[..n]);
    StepStatus(s, acts[n], id);
    if id in s.db.tasks {
      StatusRange(acts[..n], id);
    }
  }

  /** Safety of every run: an assigned task is stored, belongs to the workflow it was
      assigned under, and each of its dependencies had been reported successful. */
  lemma {:induction false} AssignedDeps(acts: seq<Action>, k: nat)
    requires k < |Run(acts).bus| && Run(acts).bus[k].TaskAssigned?
    ensures var e := Run(acts).bus[k]; var db := Run(acts).db;
            && e.taskID in db.tasks && db.tasks[e.taskID].workflowID == e.workflowID
            && forall d :: d in db.tasks[e.taskID].dependsOn ==> Succeeded(acts, d)
  {
    var n := |acts| - 1;
    var s, s' := Run(acts[..n]), Run(acts);
    RunConsistent(acts[..n]);
    StepKeeps(s, acts[n]);
    var t := s'.bus[k].taskID;
    if k < |s.bus| {
      AssignedDeps(acts[..n], k);
      forall d | d in s.db.tasks[t].dependsOn ensures Succeeded(acts, d) {
        SucceededLater(acts, n, d);
      }
    } else {
      AssignmentSafe(s, acts[n], k);
      forall d | d in s'.db.tasks[t].dependsOn ensures Succeeded(acts, d) {
        CompletedSucceeded(acts, d);
      }
    }
  }

  /** At the step that assigns a task, all its dependencies are completed in the store. */
  lemma {:induction false} AssignedWhenSatisfied(acts: seq<Action>, a: Action, k: nat)
    requires |Run(acts).bus| <= k < |Run(acts + [a]).bus| && Run(acts + [a]).bus[k].TaskAssigned?
    ensures var s := Run(acts + [a]);
            s.bus[k].taskID in s.db.tasks && Satisfied(s.db, s.bus[k].taskID)
  {
    assert (acts + [a])[..|acts|] == acts;
    RunConsistent(acts);
    AssignmentSafe(Run(acts), a, k);
  }

  /** A task with a dependency that names no stored task is never assigned. */
  lemma {:induction false} DanglingNeverStarts(acts: seq<Action>, t: TaskID, d: TaskID, k: nat)
    requires t in Run(acts).db.tasks && d in Run(acts).db.tasks[t].dependsOn && d !in Run(acts).db.tasks
    requires k < |Run(acts).bus| && Run(acts).bus[k].TaskAssigned?
    ensures Run(acts).bus[k].taskID != t
  {
    var n := |acts| - 1;
    var s := Run(acts[..n]);
    RunConsistent(acts[..n]);
    StepKeeps(s, acts[n]);
    if k >= |s.bus| {
      AssignmentSafe(s, acts[n], k);
    } else if t in s.db.tasks {
      DanglingNeverStarts(acts[..n], t, d, k);
    } else {
      AssignedDeps(acts[..n], k);
    }
  }

  /** A task none of whose dependencies the prefilter shows is never assigned, even after
      they are all completed: the prefilter drops it every time. */
  lemma {:induction false} UnfindableNeverStarts(acts: seq<Action>, t: TaskID, k: nat)
    requires t in Run(acts).db.tasks && Run(acts).db.tasks[t].dependsOn != []
    requires var deps := Run(acts).db.tasks[t].dependsOn;
             forall d :: d in deps ==> !DependencyText.Shows(deps, d)
    requires k < |Run(acts).bus| && Run(acts).bus[k].TaskAssigned?
    ensures Run(acts).bus[k].taskID != t
  {
    var n := |acts| - 1;
    var s := Run(acts[..n]);
    RunConsistent(acts[..n]);
    StepKeeps(s, acts[n]);
    if k < |s.bus| {
      AssignedDeps(acts[..n], k);
      if t in s.db.tasks {
        UnfindableNeverStarts(acts[..n], t, k);
      }
    } else if acts[n].SubmitAction? {
      SubmitAssigns(s, acts[n], k);
    } else {
      CompleteAssigns(s, acts[n].p, acts[n].f, k);
    }
  }

  // ---- exactly once ----

  lemma {:induction false} FirstReport(acts: seq<Action>)
    requires OncePerTask(acts) && acts != [] && acts[|acts| - 1].CompleteAction?
    ensures !Succeeded(acts[..|acts| - 1], acts[|acts| - 1].p.taskID)
  {
    var n := |acts| - 1;
    forall i | 0 <= i < n ensures !Completes(acts[..n][i], acts[n].p.taskID) {
      if Completes(acts[i], acts[n].p.taskID) {
        assert Completes(acts[n], acts[i].p.taskID);
      }
    }
  }

  lemma {:induction false} FailedNeverSucceeds(acts: seq<Action>, i: nat)
    requires OncePerTask(acts) && i < |acts| && acts[i].CompleteAction? && acts[i].p.error != ""
    ensures !Succeeded(acts, acts[i].p.taskID)
  {
    forall j | 0 <= j < |acts| && j != i ensures !Completes(acts[j], acts[i].p.taskID) {
      if Completes(acts[j], acts[i].p.taskID) {
        assert Completes(acts[i], acts[j].p.taskID);
      }
    }
  }

  /** If each task is reported at most once, no run assigns a task twice. */
  lemma {:induction false} AssignedAtMostOnce(acts: seq<Action>, j: nat, k: nat)
    requires OncePerTask(acts) && j < k < |Run(acts).bus|
    requires Run(acts).bus[j].TaskAssigned? && Run(acts).bus[k].TaskAssigned?
    ensures Run(acts).bus[j].taskID != Run(acts).bus[k].taskID
  {
    var n := |acts| - 1;
    var s, s' := Run(acts[..n]), Run(acts);
    RunConsistent(acts[..n]);
    StepKeeps(s, acts[n]);
    PrefixEnvironment(acts, n);
    if k < |s.bus| {
      AssignedAtMostOnce(acts[..n], j, k);
    } else if j >= |s.bus| {
      StepAssignsOnce(s, acts[n], j, k);
    } else {
      AssignedDeps(acts[..n], j);
      if acts[n].SubmitAction? {
        SubmitAssigns(s, acts[n], k);
      } else if s'.bus[j].taskID == s'.bus[k].taskID {
        CompleteAssigns(s, acts[n].p, acts[n].f, k);
        FirstReport(acts);
        assert false;
      }
    }
  }

  /** The environment need only answer each assignment at most once: then every report is
      truthful and each task is reported at most once. */
  lemma {:induction false} AnswersOnceSuffices(acts: seq<Action>, answers: seq<nat>)
    requires AnswersOnce(acts, answers)
    ensures OncePerTask(acts) && Truthful(acts)
  {
    forall i | 0 <= i < |acts| ensures ReportsAssigned(acts, i) {
      assert Answers(acts, i, answers[i]);
    }
    AnsweredTasks(acts, answers, |acts|);
    assert acts[..|acts|] == acts;
  }

  lemma {:induction false} AnsweredTasks(acts: seq<Action>, answers: seq<nat>, n: nat)
    requires AnswersOnce(acts, answers) && n <= |acts|
    ensures OncePerTask(acts[..n])
  {
    if n > 0 {
      AnsweredTasks(acts, answers, n - 1);
      forall i | 0 <= i < n - 1 && acts[i].CompleteAction? ensures !Completes(acts[n - 1], acts[i].p.taskID) {
        AnsweredOther(acts, answers, i, n - 1);
      }
    }
  }

  lemma {:induction false} AnsweredOther(acts: seq<Action>, answers: seq<nat>, i: nat, n: nat)
    requires AnswersOnce(acts, answers) && i < n < |acts| && OncePerTask(acts[..n]) && acts[i].CompleteAction?
    ensures !Completes(acts[n], acts[i].p.taskID)
  {
    if Completes(acts[n], acts[i].p.taskID) {
      assert Answers(acts, i, answers[i]) && Answers(acts, n, answers[n]);
      assert acts[..n][..i] == acts[..i];
      RunExtends(acts[..n], i);
      SameTaskSameEvent(acts[..n], answers[i], answers[n]);
    }
  }

  lemma SameTaskSameEvent(acts: seq<Action>, j: nat, k: nat)
    requires OncePerTask(acts) && j < |Run(acts).bus| && k < |Run(acts).bus|
    requires Run(acts).bus[j].TaskAssigned? && Run(acts).bus[k].TaskAssigned?
    requires Run(acts).bus[j].taskID == Run(acts).bus[k].taskID
    ensures j == k
  {
    if j < k {
      AssignedAtMostOnce(acts, j, k);
    } else if k < j {
      AssignedAtMostOnce(acts, k, j);
    }
  }

  /** An announced workflow is stored and every one of its tasks had been reported successful. */
  lemma {:induction false} AnnouncedMembers(acts: seq<Action>, k: nat, t: TaskID)
    requires k < |Run(acts).bus| && Run(acts).bus[k].WorkflowCompleted?
    ensures Run(acts).bus[k].workflowID in Run(acts).db.workflows
    ensures t in MemberSet(Run(acts).db, Run(acts).bus[k].workflowID) ==> Succeeded(acts, t)
  {
    var n := |acts| - 1;
    var s, s' := Run(acts[..n]), Run(acts);
    RunConsistent(acts[..n]);
    StepKeeps(s, acts[n]);
    var w := s'.bus[k].workflowID;
    if k < |s.bus| {
      AnnouncedMembers(acts[..n], k, t);
      if t in MemberSet(s'.db, w) {
        if t !in s.db.tasks {
          StepStatus(s, acts[n], t);
          SubmitStatus(s, acts[n], t);
        } else {
          SucceededLater(acts, n, t);
        }
      }
    } else {
      CompleteAnnounces(s, acts[n], k);
      if t in MemberSet(s'.db, w) {
        CompletedSucceeded(acts, t);
      }
    }
  }

  /** A truthful report names the workflow its task is stored under. */
  lemma {:induction false} TruthfulWorkflow(acts: seq<Action>, i: nat)
    requires Truthful(acts) && i < |acts| && acts[i].CompleteAction?
    ensures var db := Run(acts[..i]).db; var p := acts[i].p;
            p.taskID in db.tasks && db.tasks[p.taskID].workflowID == p.workflowID
  {
    assert ReportsAssigned(acts, i);
    var k :| AssignedAt(Run(acts[..i]).bus, k, acts[i].p.workflowID, acts[i].p.taskID);
    AssignedDeps(acts[..i], k);
  }

  /** A workflow is announced at most once. */
  lemma {:induction false} AnnouncedAtMostOnce(acts: seq<Action>, j: nat, k: nat)
    requires OncePerTask(acts) && Truthful(acts) && j < k < |Run(acts).bus|
    requires Run(acts).bus[j].WorkflowCompleted? && Run(acts).bus[k].WorkflowCompleted?
    ensures Run(acts).bus[j].workflowID != Run(acts).bus[k].workflowID
  {
    var n := |acts| - 1;
    var s, s' := Run(acts[..n]), Run(acts);
    RunConsistent(acts[..n]);
    StepKeeps(s, acts[n]);
    PrefixEnvironment(acts, n);
    if k < |s.bus| {
      AnnouncedAtMostOnce(acts[..n], j, k);
    } else {
      CompleteAnnounces(s, acts[n], k);
      if j >= |s.bus| {
        CompleteAnnounces(s, acts[n], j);
      } else if s'.bus[j].workflowID == s'.bus[k].workflowID {
        var d := acts[n].p.taskID;
        TruthfulWorkflow(acts, n);
        AnnouncedMembers(acts[..n], j, d);
        FirstReport(acts);
        assert false;
      }
    }
  }

  /** An announcement is made with status "completed", when all the workflow's tasks are
      completed, and carries the results of exactly the tasks that have one. */
  lemma {:induction false} AnnouncedWhenComplete(acts: seq<Action>, a: Action, k: nat)
    requires |Run(acts).bus| <= k < |Run(acts + [a]).bus| && Run(acts + [a]).bus[k].WorkflowCompleted?
    ensures var s := Run(acts + [a]); var e := s.bus[k];
            && e.outcome == "completed" && AllCompleted(s.db, e.workflowID)
            && (forall t :: t in e.results <==> t in MemberSet(s.db, e.workflowID) && s.db.tasks[t].result.Some?)
            && (forall t :: t in e.results ==> e.results[t] == s.db.tasks[t].result.value)
  {
    assert (acts + [a])[..|acts|] == acts;
    RunConsistent(acts);
    CompleteAnnounces(Run(acts), a, k);
  }

  // ---- order and failure ----

  lemma {:induction false} SucceededAssigned(acts: seq<Action>, d: TaskID) returns (k: nat)
    requires Truthful(acts) && Succeeded(acts, d)
    ensures k < |Run(acts).bus| && Run(acts).bus[k].TaskAssigned? && Run(acts).bus[k].taskID == d
  {
    var i :| 0 <= i < |acts| && Completes(acts[i], d) && acts[i].p.error == "";
    assert ReportsAssigned(acts, i);
    k :| AssignedAt(Run(acts[..i]).bus, k, acts[i].p.workflowID, d);
    RunExtends(acts, i);
  }

  /** The bus lists assignments in a topological order of the dependency graph. */
  lemma {:induction false} TopologicalAssignment(acts: seq<Action>, k: nat, d: TaskID) returns (j: nat)
    requires Truthful(acts) && k < |Run(acts).bus| && Run(acts).bus[k].TaskAssigned?
    requires Run(acts).bus[k].taskID in Run(acts).db.tasks
    requires d in Run(acts).db.tasks[Run(acts).bus[k].taskID].dependsOn
    ensures j < k && Run(acts).bus[j].TaskAssigned? && Run(acts).bus[j].taskID == d
  {
    var n := |acts| - 1;
    var s, s' := Run(acts[..n]), Run(acts);
    RunConsistent(acts[..n]);
    StepKeeps(s, acts[n]);
    PrefixEnvironment(acts, n);
    if k < |s.bus| {
      AssignedDeps(acts[..n], k);
      j := TopologicalAssignment(acts[..n], k, d);
    } else {
      AssignmentSafe(s, acts[n], k);
      assert IsCompleted(s'.db, d);
      if IsCompleted(s.db, d) {
        CompletedSucceeded(acts[..n], d);
        j := SucceededAssigned(acts[..n], d);
      } else {
        StepStatus(s, acts[n], d);
        if d !in s.db.tasks {
          assert false;
        }
        assert ReportsAssigned(acts, n);
        j :| AssignedAt(s.bus, j, acts[n].p.workflowID, d);
      }
    }
  }

  /** The stored dependencies as a graph. */
  ghost function RowGraph(db: Tables): Graph {
    map id | id in db.tasks :: db.tasks[id].dependsOn
  }

  /** Nothing downstream of a failed task is ever assigned: `p` is any dependency path
      from an assigned task, and it never leads to a task that was reported failed. */
  lemma {:induction false} NothingAfterFailure(acts: seq<Action>, i: nat, p: seq<TaskID>, k: nat)
    requires OncePerTask(acts) && Truthful(acts)
    requires i < |acts| && acts[i].CompleteAction? && acts[i].p.error != ""
    requires |p| >= 2 && IsWalk(RowGraph(Run(acts).db), p) && p[|p| - 1] == acts[i].p.taskID
    requires k < |Run(acts).bus| && Run(acts).bus[k].TaskAssigned?
    ensures Run(acts).bus[k].taskID != p[0]
    decreases |p|
  {
    if Run(acts).bus[k].taskID == p[0] {
      var d := p[1];
      AssignedDeps(acts, k);
      assert Hop(RowGraph(Run(acts).db), p, 0);
      assert Succeeded(acts, d);
      if |p| == 2 {
        FailedNeverSucceeds(acts, i);
      } else {
        var m := SucceededAssigned(acts, d);
        SubWalk(RowGraph(Run(acts).db), p, 1, |p|);
        assert p[1..|p|] == p[1..];
        NothingAfterFailure(acts, i, p[1..], m);
      }
      assert false;
    }
  }
}
