/** Workflow definitions as submitted, and their validation. */
module WorkflowTypes {
  import opened TaskGraph

  datatype TaskDef = TaskDef(
    id: TaskID,
    name: string,
    description: string,
    kind: string,
    dependsOn: seq<TaskID>,
    agent: string,
    maxRetries: int,
    timeout: int,               // nanoseconds
    originalMessage: string)

  datatype Definition = Definition(
    id: string,
    isTemplate: bool,
    name: string,
    createdBy: string,
    originalMessage: string,
    tasks: seq<TaskDef>)

  /** The dependency graph of a task list; a later task with the same ID wins. */
  function GraphOf(tasks: seq<TaskDef>): Graph {
    if tasks == [] then map[]
    else GraphOf(tasks[..|tasks| - 1])[tasks[|tasks| - 1].id := tasks[|tasks| - 1].dependsOn]
  }

  predicate DistinctIDs(tasks: seq<TaskDef>) {
    forall i, j :: 0 <= i < j < |tasks| ==> tasks[i].id != tasks[j].id
  }

  /** With distinct IDs the graph is the task list read as a relation. */
  lemma {:induction false} GraphOfTasks(tasks: seq<TaskDef>)
    ensures forall id :: id in GraphOf(tasks) <==> exists i :: 0 <= i < |tasks| && tasks[i].id == id
    ensures DistinctIDs(tasks) ==> forall i :: 0 <= i < |tasks| ==> GraphOf(tasks)[tasks[i].id] == tasks[i].dependsOn
  {
    if tasks != [] {
      var n := |tasks| - 1;
      GraphOfTasks(tasks[..n]);
      forall id ensures id in GraphOf(tasks) <==> exists i :: 0 <= i < |tasks| && tasks[i].id == id {
        if id in GraphOf(tasks[..n]) {
          var i :| 0 <= i < n && tasks[..n][i].id == id;
          assert tasks[i].id == id;
        }
        if i :| 0 <= i < |tasks| && tasks[i].id == id {
          if i < n {
            assert tasks[..n][i].id == id;
          }
        }
      }
      if DistinctIDs(tasks) {
        forall i | 0 <= i < |tasks| ensures GraphOf(tasks)[tasks[i].id] == tasks[i].dependsOn {
          if i < n {
            assert tasks[..n][i] == tasks[i];
          }
        }
      }
    }
  }

  /** Of tasks with the same ID the last one's dependencies count. */
  lemma {:induction false} LastWins(tasks: seq<TaskDef>, i: nat)
    requires i < |tasks| && forall j :: i < j < |tasks| ==> tasks[j].id != tasks[i].id
    ensures tasks[i].id in GraphOf(tasks) && GraphOf(tasks)[tasks[i].id] == tasks[i].dependsOn
  {
    var n := |tasks| - 1;
    if i < n {
      assert forall j :: i < j < n ==> tasks[..n][j] == tasks[j];
      LastWins(tasks[..n], i);
    }
  }

  /** The submission check: true exactly when some task reaches itself. A `false` answer
      comes with the order the search finished in, which is topological. */
  method HasCycle(tasks: seq<TaskDef>) returns (cycle: bool, ghost order: seq<TaskID>)
    ensures cycle <==> Cyclic(GraphOf(tasks))
    ensures !cycle ==> IsTopological(GraphOf(tasks), order)
  {
    var graph: Graph := map[];
    for i := 0 to |tasks|
      invariant graph == GraphOf(tasks[..i])
    {
      graph := graph[tasks[i].id := tasks[i].dependsOn];
      assert tasks[..i + 1][..i] == tasks[..i];
    }
    assert tasks[..|tasks|] == tasks;
    order := [];
    var search := new CycleSearch(graph);
    var left := graph.Keys;
    while left != {}
      invariant search.Valid([]) && search.graph == graph
      invariant left <= graph.Keys && forall id :: id in graph.Keys - left ==> id in search.done
      decreases |left|
    {
      var id :| id in left;
      left := left - {id};
      if !On(search.visited, id) {
        var found := search.Dfs(id, []);
        if found {
          return true, [];
        }
      }
    }
    order := search.done;
    TopologicalIsAcyclic(graph, order);
    return false, order;
  }

  predicate IsRoot(t: TaskDef) {
    t.dependsOn == []
  }

  function Roots(tasks: seq<TaskDef>): (roots: seq<TaskDef>)
    ensures forall t :: t in roots <==> t in tasks && IsRoot(t)
  {
    if tasks == [] then []
    else
      var rest := Roots(tasks[..|tasks| - 1]);
      var last := tasks[|tasks| - 1];
      if IsRoot(last) then rest + [last] else rest
  }

  /** Roots are listed in the order of their tasks, each as often as its task. */
  lemma {:induction false} RootsInOrder(a: seq<TaskDef>, b: seq<TaskDef>)
    ensures Roots(a + b) == Roots(a) + Roots(b)
    ensures |b| == 1 ==> Roots(b) == if b[0].dependsOn == [] then b else []
  {
    if b == [] {
      assert a + b == a;
    } else {
      var n := |b| - 1;
      assert (a + b)[..|a| + n] == a + b[..n];
      RootsInOrder(a, b[..n]);
      assert n == 0 ==> b[..0] == [];
    }
  }

  method GetRootTasks(tasks: seq<TaskDef>) returns (roots: seq<TaskDef>)
    ensures roots == Roots(tasks)
  {
    roots := [];
    for i := 0 to |tasks|
      invariant roots == Roots(tasks[..i])
    {
      if |tasks[i].dependsOn| == 0 {
        roots := roots + [tasks[i]];
      }
      assert tasks[..i + 1][..i] == tasks[..i];
    }
    assert tasks[..|tasks|] == tasks;
  }

  datatype ValidationError = NoTasks | CyclicDependencies
  datatype Validation = Accepted(def: Definition) | Rejected(error: ValidationError)

  /** What submission accepts: a nonempty acyclic task list; a missing ID is filled in. */
  ghost predicate Acceptable(tasks: seq<TaskDef>) {
    tasks != [] && !Cyclic(GraphOf(tasks))
  }

  method Validate(def: Definition, freshID: string) returns (v: Validation)
    ensures v.Accepted? <==> Acceptable(def.tasks)
    ensures v.Accepted? ==> v.def == def.(id := if def.id == "" then freshID else def.id)
    ensures v.Rejected? ==> (v.error == NoTasks <==> def.tasks == [])
  {
    var d := if def.id == "" then def.(id := freshID) else def;
    if |d.tasks| == 0 {
      return Rejected(NoTasks);
    }
    var cycle, _ := HasCycle(d.tasks);
    if cycle {
      return Rejected(CyclicDependencies);
    }
    return Accepted(d);
  }

  lemma IntoClosed(g: Graph, id: TaskID, d: TaskID)
    requires Closed(g) && d in Deps(g, id)
    ensures DependsInto(g, id, g.Keys)
  {
    assert d in g.Keys;
  }

  /** An accepted workflow always has a task that can start: if every dependency names
      one of its tasks, some task depends on nothing. */
  lemma {:induction false} AcceptedHasRoot(tasks: seq<TaskDef>)
    requires Acceptable(tasks) && DistinctIDs(tasks) && Closed(GraphOf(tasks))
    ensures Roots(tasks) != []
  {
    var g := GraphOf(tasks);
    GraphOfTasks(tasks);
    assert tasks[0].id in g;
    var id := MinimalTask(g, g.Keys);
    var i :| 0 <= i < |tasks| && tasks[i].id == id;
    if tasks[i].dependsOn != [] {
      var d := tasks[i].dependsOn[0];
      IntoClosed(g, id, d);
      assert false;
    }
    assert tasks[i] in Roots(tasks);
  }
}
