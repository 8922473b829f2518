/**
 * Two short runs. In one `b`, completed without a claim, lets its child `c` start although `a`, the parent
 * of `b`, has not. In the other a single task is created as its own parent.
 */
module TaskCounterexample {
  import opened Graphs
  import opened TaskDraining
  import opened TaskInvariants
  import opened TaskQuery
  import opened TaskSafety
  import opened TaskStore
  import opened Wrappers

  function Row(parent: Option<TaskId>, state: State, lease: Option<Lease>, revision: nat, serial: nat): Task {
    Task("p", state, Active, parent, lease, 0, [], revision, Scores(0.0, 0.0, 0.0), 0, None, None, serial)
  }

  function Rows(tasks: map<TaskId, Task>, edges: set<(TaskId, TaskId)>): Store {
    Store(tasks, edges, map[], {}, [])
  }

  function Ops(a: TaskId, b: TaskId, c: TaskId): seq<Op> {
    [CreateTask(a, "p", None, 0), CreateTask(b, "p", Some(a), 0), CompleteTask(b), CreateTask(c, "p", Some(b), 0),
     ClaimReadyTask("p", "w", 9, "lease", Some(c))]
  }

  function States(a: TaskId, b: TaskId, c: TaskId): seq<Store> {
    var rowA, rowB, doneB := Row(None, Planning, None, 0, 0), Row(Some(a), Planning, None, 0, 1),
        Row(Some(a), Completed, None, 1, 1);
    var rowC, heldC := Row(Some(b), Planning, None, 0, 2), Row(Some(b), Planning, Some(Lease("w", 9)), 1, 2);
    [EMPTY,
     Rows(map[a := rowA], {}),
     Rows(map[a := rowA, b := rowB], {(a, b)}),
     Rows(map[a := rowA, b := doneB], {(a, b)}),
     Rows(map[a := rowA, b := doneB, c := rowC], {(a, b), (b, c)}),
     Rows(map[a := rowA, b := doneB, c := heldC], {(a, b), (b, c)}).(leases := {LeaseRow("lease", c, "w")})]
  }

  lemma FirstCreation(a: TaskId, b: TaskId)
    ensures Create(States(a, b, b)[0], a, "p", None, 0).store == States(a, b, b)[1]
  {
  }

  lemma SecondCreation(a: TaskId, b: TaskId)
    requires a != b
    ensures Create(States(a, b, b)[1], b, "p", Some(a), 0).store == States(a, b, b)[2]
  {
    assert |States(a, b, b)[1].tasks| == 1;
  }

  lemma Completion(a: TaskId, b: TaskId)
    requires a != b
    ensures Complete(States(a, b, b)[2], b).store == States(a, b, b)[3]
  {
  }

  lemma LastCreation(a: TaskId, b: TaskId, c: TaskId)
    requires a != b && b != c && c != a
    ensures Create(States(a, b, c)[3], c, "p", Some(b), 0).store == States(a, b, c)[4]
  {
    assert |States(a, b, c)[3].tasks| == 2;
  }

  lemma LastClaim(a: TaskId, b: TaskId, c: TaskId)
    requires a != b && b != c && c != a
    ensures LegalPick(States(a, b, c)[4], "p", Some(c))
    ensures Claim(States(a, b, c)[4], "w", 9, "lease", Some(c)) == States(a, b, c)[5]
  {
  }

  lemma StatesAreARun(a: TaskId, b: TaskId, c: TaskId)
    requires a != b && b != c && c != a
    ensures IsRun(States(a, b, c), Ops(a, b, c))
  {
    var states, ops := States(a, b, c), Ops(a, b, c);
    forall i | 0 <= i < 5 ensures Enabled(states[i], ops[i]) && states[i + 1] == Next(states[i], ops[i]).store {
      if i == 0 {
        FirstCreation(a, b);
      } else if i == 1 {
        SecondCreation(a, b);
      } else if i == 2 {
        Completion(a, b);
      } else if i == 3 {
        LastCreation(a, b, c);
      } else {
        LastClaim(a, b, c);
      }
    }
  }

  lemma UnclaimedCompletionBreaksSafety(a: TaskId, b: TaskId, c: TaskId)
    requires a != b && b != c && c != a
    ensures var states, ops := States(a, b, c), Ops(a, b, c);
            && IsRun(states, ops) && !CompletesOnlyClaimed(states, ops)
            && c in Claimed(ops) && states[5].tasks[c].resolution == Active
            && Reaches(states[5].edges, a, c) && !Finished(states[5].tasks[a])
  {
    var states, ops := States(a, b, c), Ops(a, b, c);
    StatesAreARun(a, b, c);
    assert Reaches(states[5].edges, a, c) by {
      EdgeReaches(states[5].edges, a, b);
      ReachesAppend(states[5].edges, a, b, c);
    }
    ClaimsOf(a, b, c);
    assert !CompletesOnly(states[2], states[2 + 1], Claimed(ops[..2]));
  }

  lemma ClaimsOf(a: TaskId, b: TaskId, c: TaskId)
    ensures Claimed(Ops(a, b, c)[..2]) == {} && c in Claimed(Ops(a, b, c))
  {
    ClaimedStep(Ops(a, b, c), 1);
    ClaimedStep(Ops(a, b, c), 2);
  }

  /**
   * After one call of `create_task` the recursive query for the task does not end, and the claim query finds
   * nothing although the task is unfinished.
   */
  lemma SelfParentBlocksQueries(a: TaskId) returns (states: seq<Store>, ops: seq<Op>)
    ensures IsRun(states, ops) && ops == [CreateTask(a, "p", Some(a), 0)]
    ensures !QueryStops(states[1].edges, a)
    ensures Resting(states[1], "p") && LegalPick(states[1], "p", None)
    ensures Unfinished(states[1]) == {a} && Stuck(states[1], a)
  {
    var s := Create(EMPTY, a, "p", Some(a), 0).store;
    states, ops := [EMPTY, s], [CreateTask(a, "p", Some(a), 0)];
    RunIsForest(states, ops, 1);
    assert s.edges == {(a, a)};
    QueryStopsUnlessSelfParent(s, a);
    assert StuckPath(s, [a], a);
    DeadlockExactly(s, "p");
  }
}
