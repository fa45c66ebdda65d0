/** Task dependency graphs and the depth-first cycle test that guards workflow
    submission. An edge goes from a task to a task it depends on. */
module TaskGraph {

  datatype TaskID = TaskID(text: string)
  type Graph = map<TaskID, seq<TaskID>>

  function Deps(g: Graph, id: TaskID): seq<TaskID> {
    if id in g then g[id] else []
  }

  /** Every identifier that is a task or is named as a dependency. */
  ghost function Nodes(g: Graph): set<TaskID> {
    g.Keys + set a, d | a in g && d in g[a] :: d
  }

  ghost predicate Hop(g: Graph, p: seq<TaskID>, i: int)
    requires 0 <= i < |p| - 1
  {
    p[i + 1] in Deps(g, p[i])
  }

  ghost predicate IsWalk(g: Graph, p: seq<TaskID>) {
    forall i :: 0 <= i < |p| - 1 ==> Hop(g, p, i)
  }

  /** `to` is reached from `from` through one or more dependency edges. */
  ghost predicate Reaches(g: Graph, from: TaskID, to: TaskID) {
    exists p :: |p| >= 2 && p[0] == from && p[|p| - 1] == to && IsWalk(g, p)
  }

  ghost predicate Cyclic(g: Graph) {
    exists id :: Reaches(g, id, id)
  }

  /** Every dependency names a task of the graph. */
  ghost predicate Closed(g: Graph) {
    forall id, d :: id in g && d in g[id] ==> d in g
  }

  ghost predicate NoDup<T>(s: seq<T>) {
    forall i, j :: 0 <= i < j < |s| ==> s[i] != s[j]
  }

  /** Each entry is preceded by everything it depends on. */
  ghost predicate DepsFirst(g: Graph, order: seq<TaskID>) {
    forall i :: 0 <= i < |order| ==> forall d :: d in Deps(g, order[i]) ==> d in order[..i]
  }

  ghost predicate IsTopological(g: Graph, order: seq<TaskID>) {
    NoDup(order) && DepsFirst(g, order) && forall id :: id in g ==> id in order
  }

  // ---- walks ----

  lemma {:induction false} SubWalk(g: Graph, p: seq<TaskID>, i: nat, j: nat)
    requires IsWalk(g, p) && i <= j <= |p|
    ensures IsWalk(g, p[i..j])
  {
    forall m | 0 <= m < j - i - 1 ensures Hop(g, p[i..j], m) {
      assert Hop(g, p, i + m);
    }
  }

  lemma {:induction false} ExtendWalk(g: Graph, p: seq<TaskID>, d: TaskID)
    requires IsWalk(g, p) && (p != [] ==> d in Deps(g, p[|p| - 1]))
    ensures IsWalk(g, p + [d])
  {
    forall m | 0 <= m < |p| ensures Hop(g, p + [d], m) {
      if m < |p| - 1 {
        assert Hop(g, p, m);
      }
    }
  }

  lemma {:induction false} StepReaches(g: Graph, from: TaskID, d: TaskID)
    requires d in Deps(g, from)
    ensures Reaches(g, from, d)
  {
    ExtendWalk(g, [from], d);
    assert [from] + [d] == [from, d];
  }

  lemma {:induction false} ReachesFurther(g: Graph, from: TaskID, d: TaskID, to: TaskID)
    requires d in Deps(g, from) && Reaches(g, d, to)
    ensures Reaches(g, from, to)
  {
    var p :| |p| >= 2 && p[0] == d && p[|p| - 1] == to && IsWalk(g, p);
    var q := [from] + p;
    forall i | 0 <= i < |q| - 1 ensures Hop(g, q, i) {
      if i > 0 {
        assert Hop(g, p, i - 1);
      }
    }
    assert q[0] == from && q[|q| - 1] == to && IsWalk(g, q);
  }

  lemma {:induction false} WalkWithin(g: Graph, order: seq<TaskID>, p: seq<TaskID>, i: nat) returns (k: nat)
    requires DepsFirst(g, order) && IsWalk(g, p) && |p| >= 1
    requires i < |order| && order[i] == p[0]
    ensures k <= i && order[k] == p[|p| - 1] && (|p| >= 2 ==> k < i)
    decreases |p|
  {
    k := i;
    if |p| >= 2 {
      assert Hop(g, p, 0);
      assert p[1] in order[..i];
      var j :| 0 <= j < i && order[j] == p[1];
      SubWalk(g, p, 1, |p|);
      assert p[1..] == p[1..|p|];
      k := WalkWithin(g, order, p[1..], j);
    }
  }

  /** A topological order rules out cycles. */
  lemma {:induction false} TopologicalIsAcyclic(g: Graph, order: seq<TaskID>)
    requires IsTopological(g, order)
    ensures !Cyclic(g)
  {
    if Cyclic(g) {
      var id :| Reaches(g, id, id);
      var p :| |p| >= 2 && p[0] == id && p[|p| - 1] == id && IsWalk(g, p);
      assert Hop(g, p, 0);
      var i :| 0 <= i < |order| && order[i] == id;
      var k := WalkWithin(g, order, p, i);
    }
  }

  // ---- a nonempty set of tasks of an acyclic graph has a minimal member ----

  lemma {:induction false} NoDupFits<T>(p: seq<T>, s: set<T>)
    requires NoDup(p) && forall i :: 0 <= i < |p| ==> p[i] in s
    ensures |p| <= |s|
  {
    if p != [] {
      NoDupFits(p[1..], s - {p[0]});
    }
  }

  ghost predicate DependsInto(g: Graph, id: TaskID, s: set<TaskID>) {
    exists d :: d in s && d in Deps(g, id)
  }

  lemma {:induction false} LongWalk(g: Graph, s: set<TaskID>, n: nat) returns (p: seq<TaskID>)
    requires s != {} && forall id {:trigger DependsInto(g, id, s)} :: id in s ==> DependsInto(g, id, s)
    ensures |p| == n + 1 && IsWalk(g, p) && forall i :: 0 <= i < |p| ==> p[i] in s
  {
    if n == 0 {
      var id :| id in s;
      p := [id];
    } else {
      var q := LongWalk(g, s, n - 1);
      assert DependsInto(g, q[n - 1], s);
      var d :| d in s && d in Deps(g, q[n - 1]);
      ExtendWalk(g, q, d);
      p := q + [d];
    }
  }

  /** Some member of a nonempty set of nodes depends on no member of the set. */
  lemma {:induction false} MinimalTask(g: Graph, s: set<TaskID>) returns (id: TaskID)
    requires s != {} && !Cyclic(g)
    ensures id in s && !DependsInto(g, id, s)
  {
    if forall id {:trigger DependsInto(g, id, s)} :: id in s ==> DependsInto(g, id, s) {
      var p := LongWalk(g, s, |s|);
      if NoDup(p) {
        NoDupFits(p, s);
      } else {
        var i, j :| 0 <= i < j < |p| && p[i] == p[j];
        SubWalk(g, p, i, j + 1);
        var loop := p[i..j + 1];
        assert |loop| >= 2 && loop[0] == p[i] && loop[|loop| - 1] == p[i];
        assert Reaches(g, p[i], p[i]);
      }
      assert false;
    }
    id :| id in s && !DependsInto(g, id, s);
  }

  lemma {:induction false} AppendFinished(g: Graph, order: seq<TaskID>, id: TaskID)
    requires DepsFirst(g, order) && forall d :: d in Deps(g, id) ==> d in order
    ensures DepsFirst(g, order + [id])
  {
    var longer := order + [id];
    forall i | 0 <= i < |longer| ensures forall d :: d in Deps(g, longer[i]) ==> d in longer[..i] {
      assert longer[..i] == order[..i];
    }
  }

  lemma {:induction false} BuildOrder(g: Graph) returns (order: seq<TaskID>)
    requires !Cyclic(g)
    ensures IsTopological(g, order) && forall id :: id in order ==> id in Nodes(g)
  {
    var left := Nodes(g);
    order := [];
    while left != {}
      invariant left <= Nodes(g) && NoDup(order) && DepsFirst(g, order)
      invariant forall id :: id in Nodes(g) ==> (id in order <==> id !in left)
      invariant forall id :: id in order ==> id in Nodes(g)
      decreases |left|
    {
      var id := MinimalTask(g, left);
      forall d | d in Deps(g, id) ensures d in order {
        assert d in Nodes(g);
      }
      AppendFinished(g, order, id);
      order, left := order + [id], left - {id};
    }
  }

  /** Acyclic graphs are exactly those with a topological order. */
  lemma {:induction false} AcyclicIffTopological(g: Graph)
    ensures !Cyclic(g) <==> exists order :: IsTopological(g, order)
  {
    if !Cyclic(g) {
      var order := BuildOrder(g);
    } else {
      forall order | IsTopological(g, order) ensures false {
        TopologicalIsAcyclic(g, order);
      }
    }
  }

  // ---- depth-first search ----

  predicate On(m: map<TaskID, bool>, id: TaskID) {
    id in m && m[id]
  }

  /** `stack` is the chain of calls in progress, and everything visited is on it or done. */
  ghost predicate SearchInv(g: Graph, stack: seq<TaskID>, visited: map<TaskID, bool>,
                            recStack: map<TaskID, bool>, done: seq<TaskID>)
  {
    && IsWalk(g, stack)
    && NoDup(done) && DepsFirst(g, done)
    && (forall id :: id in stack ==> id !in done)
    && (forall id :: On(visited, id) <==> id in stack || id in done)
    && (forall id :: On(recStack, id) <==> id in stack)
  }

  lemma {:induction false} EnterTask(g: Graph, stack: seq<TaskID>, visited: map<TaskID, bool>,
                                     recStack: map<TaskID, bool>, done: seq<TaskID>, id: TaskID)
    requires SearchInv(g, stack, visited, recStack, done)
    requires IsWalk(g, stack + [id]) && !On(visited, id)
    ensures SearchInv(g, stack + [id], visited[id := true], recStack[id := true], done) && id !in stack
  {
    assert forall x :: x in stack + [id] <==> x in stack || x == id;
  }

  lemma {:induction false} FinishTask(g: Graph, stack: seq<TaskID>, visited: map<TaskID, bool>,
                                      recStack: map<TaskID, bool>, done: seq<TaskID>, id: TaskID)
    requires SearchInv(g, stack + [id], visited, recStack, done) && id !in stack
    requires forall d :: d in Deps(g, id) ==> d in done
    ensures SearchInv(g, stack, visited, recStack[id := false], done + [id])
  {
    AppendFinished(g, done, id);
    SubWalk(g, stack + [id], 0, |stack|);
    assert (stack + [id])[0..|stack|] == stack;
    assert forall x :: x in stack + [id] <==> x in stack || x == id;
    assert forall x :: x in done + [id] <==> x in done || x == id;
  }

  /** The state shared by the recursive search: which identifiers were visited, which
      are on the recursion stack, and (for the proof) the order they were finished in. */
  class CycleSearch {
    const graph: Graph
    var visited: map<TaskID, bool>
    var recStack: map<TaskID, bool>
    ghost var done: seq<TaskID>

    constructor (graph: Graph)
      ensures this.graph == graph && done == [] && Valid([])
      ensures forall id :: !On(visited, id)
    {
      this.graph := graph;
      visited, recStack, done := map[], map[], [];
    }

    ghost predicate Valid(stack: seq<TaskID>)
      reads this
    {
      SearchInv(graph, stack, visited, recStack, done)
    }

    ghost function Unvisited(): set<TaskID>
      reads this
    {
      set id | id in Nodes(graph) && !On(visited, id)
    }

    method Dfs(id: TaskID, ghost stack: seq<TaskID>) returns (cycle: bool)
      requires Valid(stack) && IsWalk(graph, stack + [id])
      requires id in Nodes(graph) && !On(visited, id)
      modifies this`visited, this`recStack, this`done
      ensures cycle ==> Cyclic(graph)
      ensures !cycle ==> Valid(stack) && id in done && old(done) <= done
      decreases Unvisited()
    {
      ghost var chain := stack + [id];
      EnterTask(graph, stack, visited, recStack, done, id);
      visited := visited[id := true];
      recStack := recStack[id := true];
      var deps := Deps(graph, id);
      var i := 0;
      while i < |deps|
        invariant 0 <= i <= |deps|
        invariant Valid(chain) && old(done) <= done
        invariant forall k :: 0 <= k < i ==> deps[k] in done
      {
        var dep := deps[i];
        if !On(visited, dep) {
          ExtendWalk(graph, chain, dep);
          assert id in old(Unvisited()) && Unvisited() <= old(Unvisited()) - {id};
          var found := Dfs(dep, chain);
          if found {
            return true;
          }
        } else if On(recStack, dep) {
          ClosingEdge(graph, chain, dep);
          return true;
        }
        i := i + 1;
      }
      FinishTask(graph, stack, visited, recStack, done, id);
      recStack := recStack[id := false];
      done := done + [id];
      return false;
    }
  }

  /** An edge from the top of the recursion stack back into it closes a cycle. */
  lemma {:induction false} ClosingEdge(g: Graph, chain: seq<TaskID>, dep: TaskID)
    requires IsWalk(g, chain) && dep in chain && dep in Deps(g, chain[|chain| - 1])
    ensures Cyclic(g)
  {
    var k :| 0 <= k < |chain| && chain[k] == dep;
    SubWalk(g, chain, k, |chain|);
    var loop := chain[k..] + [dep];
    assert chain[k..] == chain[k..|chain|];
    ExtendWalk(g, chain[k..], dep);
    assert |loop| >= 2 && loop[0] == dep && loop[|loop| - 1] == dep;
    assert Reaches(g, dep, dep);
  }
}
