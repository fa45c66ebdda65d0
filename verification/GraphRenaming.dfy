/** Giving tasks fresh IDs: when a generated workflow is parsed and when a template is
    instantiated. The renamed task list has the same shape as the original. */
module GraphRenaming {
  import opened TaskGraph
  import opened WorkflowTypes

  // ---- renamed graphs ----

  function NewName(m: map<TaskID, TaskID>, id: TaskID): TaskID {
    if id in m then m[id] else id
  }

  function NewNames(m: map<TaskID, TaskID>, ids: seq<TaskID>): (r: seq<TaskID>)
    ensures |r| == |ids| && forall i :: 0 <= i < |ids| ==> r[i] == NewName(m, ids[i])
  {
    seq(|ids|, i requires 0 <= i < |ids| => NewName(m, ids[i]))
  }

  lemma InNewNames(m: map<TaskID, TaskID>, ids: seq<TaskID>, x: TaskID)
    ensures x in NewNames(m, ids) <==> exists id :: id in ids && NewName(m, id) == x
  {
    if x in NewNames(m, ids) {
      var i :| 0 <= i < |ids| && NewNames(m, ids)[i] == x;
      assert ids[i] in ids && NewName(m, ids[i]) == x;
    }
    if id :| id in ids && NewName(m, id) == x {
      var i :| 0 <= i < |ids| && ids[i] == id;
      assert NewNames(m, ids)[i] == x;
    }
  }

  ghost predicate Moved(g: Graph, h: Graph, m: map<TaskID, TaskID>, id: TaskID)
    requires id in g
  {
    NewName(m, id) in h && h[NewName(m, id)] == NewNames(m, g[id])
  }

  ghost predicate HasSource(g: Graph, m: map<TaskID, TaskID>, x: TaskID) {
    exists id :: id in g && NewName(m, id) == x
  }

  ghost predicate Apart(names: set<TaskID>, m: map<TaskID, TaskID>) {
    forall a, b :: a in names && b in names && NewName(m, a) == NewName(m, b) ==> a == b
  }

  /** `h` is `g` with every identifier renamed, and no two identifiers merged. */
  ghost predicate IsRenaming(g: Graph, h: Graph, m: map<TaskID, TaskID>) {
    && Apart(Nodes(g), m)
    && (forall id :: id in g ==> Moved(g, h, m, id))
    && (forall x :: x in h ==> HasSource(g, m, x))
  }

  lemma {:induction false} RenamedWalk(g: Graph, h: Graph, m: map<TaskID, TaskID>, p: seq<TaskID>)
    requires IsRenaming(g, h, m) && IsWalk(g, p)
    ensures IsWalk(h, NewNames(m, p))
  {
    var q := NewNames(m, p);
    forall i | 0 <= i < |q| - 1 ensures Hop(h, q, i) {
      assert Hop(g, p, i);
      assert Moved(g, h, m, p[i]);
      InNewNames(m, g[p[i]], q[i + 1]);
    }
  }

  lemma {:induction false} RenamingKeepsCycles(g: Graph, h: Graph, m: map<TaskID, TaskID>)
    requires IsRenaming(g, h, m) && Cyclic(g)
    ensures Cyclic(h)
  {
    var id :| Reaches(g, id, id);
    var p :| |p| >= 2 && p[0] == id && p[|p| - 1] == id && IsWalk(g, p);
    RenamedWalk(g, h, m, p);
    var x := NewName(m, id);
    assert NewNames(m, p)[0] == x && NewNames(m, p)[|p| - 1] == x;
    assert Reaches(h, x, x);
  }

  lemma {:induction false} RenamedDepsFirst(g: Graph, h: Graph, m: map<TaskID, TaskID>, order: seq<TaskID>, i: nat)
    requires IsRenaming(g, h, m) && DepsFirst(g, order) && i < |order| && order[i] in Nodes(g)
    ensures forall d :: d in Deps(h, NewName(m, order[i])) ==> d in NewNames(m, order)[..i]
  {
    hide IsRenaming, Nodes, Deps;
    assert NewNames(m, order[..i]) == NewNames(m, order)[..i];
    forall d | d in Deps(h, NewName(m, order[i])) ensures d in NewNames(m, order)[..i] {
      var e := RenamedDependency(g, h, m, order[i], d);
      InNewNames(m, order[..i], d);
    }
  }

  lemma {:induction false} RenamedNoDup(g: Graph, m: map<TaskID, TaskID>, order: seq<TaskID>)
    requires Apart(Nodes(g), m) && NoDup(order) && forall id :: id in order ==> id in Nodes(g)
    ensures NoDup(NewNames(m, order))
  {
    var after := NewNames(m, order);
    forall i, j | 0 <= i < j < |after| ensures after[i] != after[j] {
      assert order[i] in order && order[j] in order;
    }
  }

  /** A topological order is renamed into a topological order. */
  lemma {:induction false} RenamingKeepsOrder(g: Graph, h: Graph, m: map<TaskID, TaskID>)
    requires IsRenaming(g, h, m) && !Cyclic(g)
    ensures !Cyclic(h)
  {
    var order := BuildOrder(g);
    var after := NewNames(m, order);
    RenamedNoDup(g, m, order);
    hide Apart, Moved, Nodes, NoDup, Cyclic;
    forall x | x in h ensures x in after {
      assert HasSource(g, m, x);
      InNewNames(m, order, x);
    }
    forall i | 0 <= i < |after| ensures forall d :: d in Deps(h, after[i]) ==> d in after[..i] {
      assert order[i] in order;
      RenamedDepsFirst(g, h, m, order, i);
    }
    TopologicalIsAcyclic(h, after);
  }

  /** What a renamed task depends on is the new name of something the task depends on. */
  lemma {:induction false} RenamedDependency(g: Graph, h: Graph, m: map<TaskID, TaskID>, id: TaskID,
                                             d: TaskID) returns (e: TaskID)
    requires IsRenaming(g, h, m) && id in Nodes(g) && d in Deps(h, NewName(m, id))
    ensures e in Deps(g, id) && NewName(m, e) == d
  {
    assert HasSource(g, m, NewName(m, id));
    var a :| a in g && NewName(m, a) == NewName(m, id);
    assert a in Nodes(g);
    assert Moved(g, h, m, a);
    InNewNames(m, g[a], d);
    e :| e in Deps(g, id) && NewName(m, e) == d;
  }

  lemma {:induction false} RenamingKeepsClosed(g: Graph, h: Graph, m: map<TaskID, TaskID>)
    requires IsRenaming(g, h, m)
    ensures Closed(h) <==> Closed(g)
  {
    if Closed(g) {
      forall x, d | x in h && d in h[x] ensures d in h {
        assert HasSource(g, m, x);
        var id :| id in g && NewName(m, id) == x;
        assert id in Nodes(g);
        var e := RenamedDependency(g, h, m, id, d);
        assert e in g;
        assert Moved(g, h, m, e);
      }
    }
    if Closed(h) {
      forall id, d | id in g && d in g[id] ensures d in g {
        assert Moved(g, h, m, id);
        InNewNames(m, g[id], NewName(m, d));
        assert NewName(m, d) in h;
        assert HasSource(g, m, NewName(m, d));
        var e :| e in g && NewName(m, e) == NewName(m, d);
        assert e in Nodes(g) && d in Nodes(g);
      }
    }
  }

  /** Renaming changes neither cyclicity nor closedness. */
  lemma {:induction false} RenamingExact(g: Graph, h: Graph, m: map<TaskID, TaskID>)
    requires IsRenaming(g, h, m)
    ensures Cyclic(h) <==> Cyclic(g)
    ensures Closed(h) <==> Closed(g)
  {
    RenamingKeepsClosed(g, h, m);
    if Cyclic(g) {
      RenamingKeepsCycles(g, h, m);
    } else {
      RenamingKeepsOrder(g, h, m);
    }
  }

  // ---- renamed task lists ----

  ghost predicate SameShape(a: TaskDef, b: TaskDef, m: map<TaskID, TaskID>) {
    b.id == NewName(m, a.id) && b.dependsOn == NewNames(m, a.dependsOn)
  }

  ghost predicate Renamed(before: seq<TaskDef>, after: seq<TaskDef>, m: map<TaskID, TaskID>) {
    |after| == |before| && forall i :: 0 <= i < |before| ==> SameShape(before[i], after[i], m)
  }

  ghost function Names(tasks: seq<TaskDef>): set<TaskID> {
    (set t | t in tasks :: t.id) + set t, d | t in tasks && d in t.dependsOn :: d
  }

  lemma {:induction false} RenamedIDs(before: seq<TaskDef>, after: seq<TaskDef>, m: map<TaskID, TaskID>)
    requires Renamed(before, after, m) && Apart(Names(before), m)
    ensures DistinctIDs(after) <==> DistinctIDs(before)
  {
    forall i, j | 0 <= i < j < |before| ensures after[i].id == after[j].id <==> before[i].id == before[j].id {
      assert SameShape(before[i], after[i], m) && SameShape(before[j], after[j], m);
      assert before[i] in before && before[j] in before;
    }
  }

  lemma {:induction false} NodesAreNames(tasks: seq<TaskDef>)
    requires DistinctIDs(tasks)
    ensures Nodes(GraphOf(tasks)) <= Names(tasks)
  {
    var g := GraphOf(tasks);
    GraphOfTasks(tasks);
    forall id | id in Nodes(g) ensures id in Names(tasks) {
      if id in g {
        var i :| 0 <= i < |tasks| && tasks[i].id == id;
        assert tasks[i] in tasks;
      } else {
        var a :| a in g && id in g[a];
        var i :| 0 <= i < |tasks| && tasks[i].id == a;
        assert tasks[i] in tasks;
      }
    }
  }

  lemma {:induction false} RenamedGraph(before: seq<TaskDef>, after: seq<TaskDef>, m: map<TaskID, TaskID>)
    requires Renamed(before, after, m) && Apart(Names(before), m) && DistinctIDs(before)
    ensures IsRenaming(GraphOf(before), GraphOf(after), m)
  {
    var g, h := GraphOf(before), GraphOf(after);
    RenamedIDs(before, after, m);
    NodesAreNames(before);
    GraphOfTasks(before);
    GraphOfTasks(after);
    forall id | id in g ensures Moved(g, h, m, id) {
      var i :| 0 <= i < |before| && before[i].id == id;
      assert SameShape(before[i], after[i], m);
    }
    forall x | x in h ensures HasSource(g, m, x) {
      var i :| 0 <= i < |after| && after[i].id == x;
      assert SameShape(before[i], after[i], m);
    }
  }

  /** A renamed task list is accepted, closed and rooted exactly where the original is. */
  lemma {:induction false} RenamedTasks(before: seq<TaskDef>, after: seq<TaskDef>, m: map<TaskID, TaskID>)
    requires Renamed(before, after, m) && Apart(Names(before), m) && DistinctIDs(before)
    ensures DistinctIDs(after)
    ensures Acceptable(after) <==> Acceptable(before)
    ensures Closed(GraphOf(after)) <==> Closed(GraphOf(before))
    ensures forall i :: 0 <= i < |before| ==> (IsRoot(after[i]) <==> IsRoot(before[i]))
  {
    RenamedIDs(before, after, m);
    RenamedGraph(before, after, m);
    RenamingExact(GraphOf(before), GraphOf(after), m);
    forall i | 0 <= i < |before| ensures IsRoot(after[i]) <==> IsRoot(before[i]) {
      assert SameShape(before[i], after[i], m);
    }
  }
}
