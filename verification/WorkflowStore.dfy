/** The workflow tables, updated in place. Every call may fail with a driver error (`fault`),
    in which case it changes nothing. */
module WorkflowStore {
  import opened Options
  import opened TaskGraph
  import DependencyText
  import opened WorkflowState

  class Store {
    var workflows: map<string, WorkflowRow>
    var tasks: map<TaskID, TaskRow>
    var order: seq<TaskID>

    constructor ()
      ensures Contents() == EMPTY.db
    {
      workflows, tasks, order := map[], map[], [];
    }

    function Contents(): Tables
      reads this
    {
      Tables(workflows, tasks, order)
    }

    method CreateWorkflow(row: WorkflowRow, fault: bool) returns (failed: bool)
      modifies this
      ensures failed <==> fault || row.id in old(workflows)
      ensures Contents() == if failed then old(Contents())
                            else old(Contents()).(workflows := old(workflows)[row.id := row])
    {
      failed := fault || row.id in workflows;
      if !failed {
        workflows := workflows[row.id := row];
      }
    }

    method GetWorkflow(id: string, fault: bool) returns (row: Option<WorkflowRow>)
      ensures row == if fault || id !in workflows then None else Some(workflows[id])
    {
      row := if fault || id !in workflows then None else Some(workflows[id]);
    }

    method UpdateWorkflowStatus(id: string, status: WorkflowStatus, fault: bool)
      modifies this
      ensures Contents() == if fault || id !in old(workflows) then old(Contents())
                            else old(Contents()).(workflows :=
                                   old(workflows)[id := old(workflows)[id].(status := status)])
    {
      if !fault && id in workflows {
        workflows := workflows[id := workflows[id].(status := status)];
      }
    }

    /** The ID is the primary key: a second row with it is refused. */
    method CreateWFTask(row: TaskRow, fault: bool) returns (failed: bool)
      modifies this
      ensures failed <==> fault || row.id in old(tasks)
      ensures Contents() == if failed then old(Contents()) else AddRow(old(Contents()), row)
    {
      failed := fault || row.id in tasks;
      if !failed {
        tasks := tasks[row.id := row];
        order := order + [row.id];
      }
    }

    method GetWFTask(id: TaskID, fault: bool) returns (row: Option<TaskRow>)
      ensures row == if fault || id !in tasks then None else Some(tasks[id])
    {
      row := if fault || id !in tasks then None else Some(tasks[id]);
    }

    method UpdateWFTaskStatus(id: TaskID, status: TaskStatus, error: string, fault: bool)
      modifies this
      ensures Contents() == SetStatus(old(Contents()), id, status, error, fault)
    {
      if !fault && id in tasks {
        tasks := tasks[id := tasks[id].(status := status, error := error)];
      }
    }

    method UpdateWFTaskResult(id: TaskID, result: Option<string>, fault: bool)
      modifies this
      ensures Contents() == SetResult(old(Contents()), id, result, fault)
    {
      if !fault && id in tasks {
        tasks := tasks[id := tasks[id].(result := result)];
      }
    }

    method GetWFTasks(workflowID: string, fault: bool) returns (rows: Option<seq<TaskRow>>)
      requires Consistent(Contents())
      ensures rows == if fault then None
                      else Some(RowsOf(Contents(), Pick(order, MemberSet(Contents(), workflowID))))
    {
      if fault {
        return None;
      }
      var found := [];
      ghost var members := MemberSet(Contents(), workflowID);
      for i := 0 to |order|
        invariant found == RowsOf(Contents(), Pick(order[..i], members))
      {
        PickStep(order, i, members);
        if tasks[order[i]].workflowID == workflowID {
          found := found + [tasks[order[i]]];
        }
      }
      assert order[..|order|] == order;
      return Some(found);
    }

    /** A LIKE scan over the encoded lists, then an exact filter on the decoded ones. */
    method GetDependentWFTasks(id: TaskID, fault: bool) returns (found: Option<seq<TaskID>>)
      requires Consistent(Contents())
      ensures found == if fault then None else Some(Pick(order, DependentSet(Contents(), id)))
    {
      if fault {
        return None;
      }
      var candidates := SelectLike(id);
      var filtered := FilterExact(candidates, id);
      PickTwice(order, LikeSet(Contents(), id), DependentSet(Contents(), id));
      return Some(filtered);
    }

    method SelectLike(id: TaskID) returns (candidates: seq<TaskID>)
      requires Consistent(Contents())
      ensures candidates == Pick(order, LikeSet(Contents(), id))
    {
      candidates := [];
      ghost var like := LikeSet(Contents(), id);
      for i := 0 to |order|
        invariant candidates == Pick(order[..i], like)
      {
        PickStep(order, i, like);
        if DependencyText.Shows(tasks[order[i]].dependsOn, id) {
          candidates := candidates + [order[i]];
        }
      }
      assert order[..|order|] == order;
    }

    method FilterExact(candidates: seq<TaskID>, id: TaskID) returns (filtered: seq<TaskID>)
      requires forall t :: t in candidates ==> t in LikeSet(Contents(), id)
      ensures filtered == Pick(candidates, DependentSet(Contents(), id))
    {
      filtered := [];
      ghost var exact := DependentSet(Contents(), id);
      for i := 0 to |candidates|
        invariant filtered == Pick(candidates[..i], exact)
      {
        PickStep(candidates, i, exact);
        assert candidates[i] in LikeSet(Contents(), id);
        var listed := Lists(tasks[candidates[i]].dependsOn, id);
        if listed {
          filtered := filtered + [candidates[i]];
        }
      }
      assert candidates[..|candidates|] == candidates;
    }

    static method Lists(deps: seq<TaskID>, id: TaskID) returns (listed: bool)
      ensures listed <==> id in deps
    {
      for i := 0 to |deps|
        invariant id !in deps[..i]
      {
        if deps[i] == id {
          return true;
        }
      }
      assert deps[..|deps|] == deps;
      return false;
    }

    /** None when the row cannot be read; a dependency that is absent or not completed
        makes the answer false. */
    method AllDependenciesSatisfied(id: TaskID, fault: bool) returns (all: Option<bool>)
      ensures all == if fault || id !in tasks then None else Some(Satisfied(Contents(), id))
    {
      if fault || id !in tasks {
        return None;
      }
      var deps := tasks[id].dependsOn;
      for i := 0 to |deps|
        invariant forall k :: 0 <= k < i ==> IsCompleted(Contents(), deps[k])
      {
        if deps[i] !in tasks || tasks[deps[i]].status != Completed {
          return Some(false);
        }
      }
      return Some(true);
    }
  }

  lemma {:induction false} PickTwice(order: seq<TaskID>, first: set<TaskID>, second: set<TaskID>)
    requires second <= first
    ensures Pick(Pick(order, first), second) == Pick(order, second)
  {
    if order != [] {
      var n := |order| - 1;
      PickTwice(order[..n], first, second);
      var rest := Pick(order[..n], first);
      assert (rest + [order[n]])[..|rest|] == rest;
    }
  }
}
