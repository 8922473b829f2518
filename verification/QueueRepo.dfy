/** orchestrator/queue_repo.py: the repository itself, updating its tables in place. */
module QueueRepo {
  import opened DagRuntime
  import opened Graphs
  import opened TaskInvariants
  import opened TaskQuery
  import opened TaskStore
  import opened Wrappers

  class QueueRepository {
    var tasks: map<TaskId, Task>
    var edges: set<(TaskId, TaskId)>
    var approvals: map<string, Approval>
    var leases: set<LeaseRow>
    var deadLetters: seq<DeadLetter>

    function Snapshot(): Store
      reads this
    {
      Store(tasks, edges, approvals, leases, deadLetters)
    }

    constructor ()
      ensures Snapshot() == EMPTY
    {
      tasks, edges, approvals, leases, deadLetters := map[], {}, map[], {}, [];
    }

    method CreateTask(id: TaskId, projectId: string, parent: Option<TaskId>, now: int) returns (e: Option<Error>)
      modifies this
      ensures Outcome(Snapshot(), e) == Create(old(Snapshot()), id, projectId, parent, now)
    {
      if id in tasks || (parent.Some? && parent.value != id && parent.value !in tasks) {
        return Some(IntegrityError);
      }
      tasks := tasks[id := NewTask(Snapshot(), projectId, parent, now)];
      if parent.Some? {
        edges := edges + {(parent.value, id)};
      }
      e := None;
      assert parent.None? ==> old(edges) + {} == edges;
    }

    /** `claim_ready_task`: the query scans the rows in any order and keeps an oldest ready one. */
    method ClaimReadyTask(project: string, workerId: string, expiresAt: int, leaseId: string)
      returns (pick: Option<TaskId>)
      modifies this
      ensures LegalPick(old(Snapshot()), project, pick)
      ensures Snapshot() == Claim(old(Snapshot()), workerId, expiresAt, leaseId, pick)
    {
      pick := None;
      var rest := tasks.Keys;
      while rest != {}
        invariant rest <= tasks.Keys
        invariant Snapshot() == old(Snapshot())
        invariant pick.Some? ==> Ready(Snapshot(), project, pick.value)
        invariant forall id :: Ready(Snapshot(), project, id) && id !in rest ==>
                    pick.Some? && tasks[pick.value].createdAt <= tasks[id].createdAt
      {
        var id :| id in rest;
        if Ready(Snapshot(), project, id)
           && (pick.None? || tasks[id].createdAt < tasks[pick.value].createdAt) {
          pick := Some(id);
        }
        rest := rest - {id};
      }
      if pick.Some? {
        var t := tasks[pick.value];
        tasks := tasks[pick.value := t.(lease := Some(Lease(workerId, expiresAt)), revision := t.revision + 1)];
        leases := leases + {LeaseRow(leaseId, pick.value, workerId)};
      }
    }

    /** `release_expired_leases`; returns how many leases were released. */
    method ReleaseExpiredLeases(now: int) returns (count: nat)
      modifies this
      ensures Snapshot() == Release(old(Snapshot()), now)
      ensures count == |ExpiredIds(old(Snapshot()), now)|
    {
      var taskIds := ExpiredIds(Snapshot(), now);
      var rest := taskIds;
      while rest != {}
        invariant rest <= taskIds
        invariant tasks == Released(old(tasks), taskIds - rest)
        invariant edges == old(edges) && approvals == old(approvals) && leases == old(leases)
            && deadLetters == old(deadLetters)
      {
        var id :| id in rest;
        ReleaseOne(old(tasks), taskIds - rest, id);
        tasks := tasks[id := Bump(tasks[id].(lease := None))];
        assert taskIds - rest + {id} == taskIds - (rest - {id});
        rest := rest - {id};
      }
      assert taskIds - rest == taskIds;
      ReleaseAll(old(Snapshot()), now);
      DeleteLeases(taskIds);
      count := |taskIds|;
    }

    /** `DELETE FROM leases WHERE task_id = ?` for each of the tasks. */
    method DeleteLeases(ids: set<TaskId>)
      modifies `leases
      ensures leases == WithoutLeases(old(leases), ids)
    {
      var rest := ids;
      while rest != {}
        invariant rest <= ids
        invariant leases == WithoutLeases(old(leases), ids - rest)
      {
        var id :| id in rest;
        leases := set r | r in leases && r.taskId != id;
        rest := rest - {id};
      }
    }

    method TransitionTaskState(id: TaskId, from: State, to: State) returns (e: Option<Error>)
      modifies `tasks
      ensures Outcome(Snapshot(), e) == Transition(old(Snapshot()), id, from, to)
    {
      if !Allowed(from, to) {
        return Some(ValueError);
      }
      if id !in tasks {
        return Some(KeyError);
      }
      if tasks[id].state != from {
        return Some(ValueError);
      }
      tasks := tasks[id := tasks[id].(state := to, revision := tasks[id].revision + 1)];
      e := None;
    }

    method SetTaskState(id: TaskId, to: State) returns (e: Option<Error>)
      modifies `tasks
      ensures id !in old(tasks) ==> e == Some(KeyError) && Snapshot() == old(Snapshot())
      ensures id in old(tasks) ==> Outcome(Snapshot(), e) == Transition(old(Snapshot()), id, old(tasks)[id].state, to)
    {
      if id !in tasks {
        return Some(KeyError);
      }
      e := TransitionTaskState(id, tasks[id].state, to);
    }

    method CompleteTask(id: TaskId) returns (e: Option<Error>)
      modifies `tasks, `leases
      ensures Outcome(Snapshot(), e) == Complete(old(Snapshot()), id)
    {
      if id !in tasks {
        return Some(KeyError);
      }
      if !Allowed(tasks[id].state, Completed) {
        return Some(ValueError);
      }
      tasks := tasks[id := tasks[id].(state := Completed, lease := None, revision := tasks[id].revision + 1)];
      DeleteLeases({id});
      e := None;
    }

    /** The edges that leave `parent`, in any order. */
    method EdgesFrom(parent: TaskId) returns (found: seq<(TaskId, TaskId)>)
      ensures Distinct(found) && forall e :: e in found <==> e in edges && e.0 == parent
    {
      found := [];
      var rest := edges;
      while rest != {}
        invariant rest <= edges
        invariant Distinct(found) && forall e :: e in found <==> e in edges && e !in rest && e.0 == parent
      {
        var e :| e in rest;
        if e.0 == parent {
          found := found + [e];
        }
        rest := rest - {e};
      }
    }

    /** The recursive query: rows are worked off in the order they were found. */
    method DescendantEdges(id: TaskId) returns (rows: seq<(TaskId, TaskId)>)
      requires Forest(Snapshot()) && (id, id) !in edges
      ensures Elements(rows) == ReachableEdges(edges, id)
    {
      rows := EdgesFrom(id);
      var i := 0;
      while i < |rows|
        invariant Querying(edges, id, rows, i)
        decreases |edges| - i
      {
        DistinctBounded(rows, edges);
        var found := EdgesFrom(rows[i].1);
        QueryOneRow(Snapshot(), id, rows, i, found);
        rows := rows + found;
        i := i + 1;
      }
      QueryDone(edges, id, rows);
    }

    /** `_descendants` */
    method Descendants(id: TaskId) returns (order: seq<TaskId>)
      requires Forest(Snapshot()) && (id, id) !in edges
      ensures DescendantsInOrder(edges, id, order)
    {
      var rows := DescendantEdges(id);
      var sorted := TopologicalDescendants(id, rows);
      ReachableEdgesSuffice(edges, id);
      NoInnerCycle(Snapshot(), id);
      order := sorted.value;
    }

    /**
     * `reject_and_prune`. For a task that is its own parent the recursive query never ends; for all
     * others the call returns, with the descendants in an order that puts parents first.
     */
    method RejectAndPrune(id: TaskId, reason: string) returns (r: Result<seq<TaskId>, Error>)
      requires Forest(Snapshot()) && (id, id) !in edges
      modifies `tasks, `leases
      ensures Snapshot() == Reject(old(Snapshot()), id, reason).store
      ensures r.Err? <==> id !in old(tasks)
      ensures r.Err? ==> r.error == IntegrityError
      ensures r.Ok? ==> DescendantsInOrder(edges, id, r.value)
    {
      var descendants := Descendants(id);
      if id !in tasks {
        return Err(IntegrityError);
      }
      OrderCoversDescendants(edges, id, descendants);
      PruneRows(id, descendants, reason);
      DeleteLeases({id} + Elements(descendants));
      r := Ok(descendants);
    }

    /** The row updates of `reject_and_prune`, one for the task and one for each ACTIVE descendant. */
    method PruneRows(id: TaskId, descendants: seq<TaskId>, reason: string)
      requires id in tasks && Distinct(descendants)
      modifies `tasks
      ensures tasks == Prune(old(Snapshot()), id, Elements(descendants), reason).tasks
    {
      ghost var before := Snapshot();
      var t := tasks[id];
      tasks := tasks[id :=
          t.(resolution := Rejected, lease := None, prunedReason := Some(reason), revision := t.revision + 1)];
      for k := 0 to |descendants|
        invariant tasks == Prune(before, id, Elements(descendants[..k]), reason).tasks
      {
        PruneOne(before, id, descendants, k, reason);
        var child := descendants[k];
        if child in tasks && tasks[child].resolution == Active {
          tasks := tasks[child := PrunedTask(tasks[child], id, reason)];
        }
      }
      assert descendants[..|descendants|] == descendants;
    }

    /** The new row is committed before the transition, which may fail. */
    method CreateApproval(approvalId: string, id: TaskId) returns (e: Option<Error>)
      modifies `tasks, `approvals
      ensures Outcome(Snapshot(), e) == OpenApproval(old(Snapshot()), approvalId, id)
    {
      if id !in tasks {
        return Some(KeyError);
      }
      var state := tasks[id].state;
      if approvalId in approvals {
        return Some(IntegrityError);
      }
      approvals := approvals[approvalId := Approval(id, Pending, None)];
      e := TransitionTaskState(id, state, PendingApproval);
    }

    method DecideApprovals(id: TaskId, decision: Decision, decider: string)
      modifies `approvals
      ensures Snapshot() == Decide(old(Snapshot()), id, decision, decider)
    {
      var rest := approvals.Keys;
      while rest != {}
        invariant rest <= approvals.Keys == old(approvals).Keys
        invariant forall a :: a in approvals ==>
                    approvals[a] == if a in rest then old(approvals)[a]
                        else Decide(old(Snapshot()), id, decision, decider).approvals[a]
      {
        var a :| a in rest;
        if approvals[a].taskId == id && approvals[a].decision == Pending {
          approvals := approvals[a := Approval(id, decision, Some(decider))];
        }
        rest := rest - {a};
      }
    }

    method ApproveTask(id: TaskId, decidedBy: string) returns (e: Option<Error>)
      modifies `tasks, `approvals
      ensures Outcome(Snapshot(), e)
          == Transition(Decide(old(Snapshot()), id, Approved, decidedBy), id, PendingApproval, Planning)
    {
      DecideApprovals(id, Approved, decidedBy);
      e := TransitionTaskState(id, PendingApproval, Planning);
    }

    method RejectApproval(id: TaskId, decidedBy: string, reason: string) returns (r: Result<seq<TaskId>, Error>)
      requires Forest(Snapshot()) && (id, id) !in edges
      modifies `tasks, `leases, `approvals
      ensures Snapshot() == Reject(Decide(old(Snapshot()), id, Declined, decidedBy), id, reason).store
      ensures r.Err? <==> id !in old(tasks)
      ensures r.Ok? ==> DescendantsInOrder(edges, id, r.value)
    {
      DecideApprovals(id, Declined, decidedBy);
      assert Forest(Snapshot()) by { SameTablesSameForest(old(Snapshot()), Snapshot()); }
      r := RejectAndPrune(id, reason);
    }

    method UpdateScores(id: TaskId, scores: Scores)
      modifies `tasks
      ensures Snapshot() == if id in old(tasks) then Put(old(Snapshot()), id, old(tasks)[id].(scores := scores))
                            else old(Snapshot())
    {
      if id in tasks {
        tasks := tasks[id := tasks[id].(scores := scores)];
      }
    }

    /** `add_negative_constraint`; returns the new reroll count. */
    method AddNegativeConstraint(id: TaskId, constraint: string) returns (r: Result<nat, Error>)
      modifies `tasks
      ensures r.Err? ==> Outcome(Snapshot(), Some(r.error)) == AddConstraint(old(Snapshot()), id, constraint)
      ensures r.Ok? ==> Outcome(Snapshot(), None) == AddConstraint(old(Snapshot()), id, constraint)
                        && id in tasks && r.value == tasks[id].rerollCount
    {
      if id !in tasks {
        return Err(KeyError);
      }
      var t := tasks[id];
      var constraints := t.negativeConstraints + [constraint];
      var rerollCount := t.rerollCount + 1;
      var rerolled := t.(negativeConstraints := constraints, rerollCount := rerollCount, lease := None);
      tasks := tasks[id := Bump(rerolled)];
      r := Ok(rerollCount);
    }

    method DeadLetter(id: TaskId, reason: Reason)
      modifies `deadLetters
      ensures Snapshot() == AddDeadLetter(old(Snapshot()), id, reason)
    {
      deadLetters := deadLetters + [TaskStore.DeadLetter(id, reason)];
    }
  }

  lemma SameTablesSameForest(s: Store, s': Store)
    requires Forest(s) && s'.tasks == s.tasks && s'.edges == s.edges
    ensures Forest(s')
  {
    forall e | e in s'.edges ensures EdgeIsParent(s', e) {
      assert EdgeIsParent(s, e);
    }
    forall id | id in s'.tasks ensures ParentIsEdge(s', id) {
      assert ParentIsEdge(s, id);
    }
  }

  lemma NoInnerCycle(s: Store, id: TaskId)
    requires Forest(s) && (id, id) !in s.edges
    ensures !Cyclic(InnerEdges(s.edges, id))
  {
    var inner := InnerEdges(s.edges, id);
    if Cyclic(inner) {
      var x :| Reaches(inner, x, x);
      var b := ReachesFirst(inner, x, x);
      assert Reaches(s.edges, id, x);
      ReachesMonotone(inner, s.edges, x, x);
      QueryStopsUnlessSelfParent(s, id);
      assert false;
    }
  }

  lemma OrderCoversDescendants(edges: set<(TaskId, TaskId)>, id: TaskId, order: seq<TaskId>)
    requires DescendantsInOrder(edges, id, order)
    ensures Elements(order) == TaskStore.Descendants(edges, id)
  {
    forall x | x in order ensures x in TaskStore.Descendants(edges, id) {
      var b := ReachesLast(edges, id, x);
      assert (b, x) in edges && (b, x).1 == x;
    }
  }

  function Released(tasks: map<TaskId, Task>, ids: set<TaskId>): map<TaskId, Task> {
    map id | id in tasks :: if id in ids then Bump(tasks[id].(lease := None)) else tasks[id]
  }

  lemma ReleaseOne(tasks: map<TaskId, Task>, ids: set<TaskId>, id: TaskId)
    requires id in tasks && id !in ids
    ensures var before := Released(tasks, ids);
            Released(tasks, ids + {id}) == before[id := Bump(before[id].(lease := None))]
  {
  }

  lemma ReleaseAll(s: Store, now: int)
    ensures Release(s, now).tasks == Released(s.tasks, ExpiredIds(s, now))
  {
  }

  /** One `UPDATE` of the cascade. */
  lemma PruneOne(s: Store, id: TaskId, descendants: seq<TaskId>, k: nat, reason: string)
    requires id in s.tasks && k < |descendants| && Distinct(descendants)
    ensures var before, after := Prune(s, id, Elements(descendants[..k]), reason).tasks,
                                 Prune(s, id, Elements(descendants[..k + 1]), reason).tasks;
            var child := descendants[k];
            after == if child in before && before[child].resolution == Active
                     then before[child := PrunedTask(before[child], id, reason)] else before
  {
    PrefixSnoc(descendants, k);
  }
}
