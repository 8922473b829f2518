/** Bookkeeping over whole runs: rerolls against constraints and dead letters, leases against lease rows. */
module TaskAccounts {
  import opened TaskInvariants
  import opened TaskStore
  import opened Wrappers

  // Rerolls

  function LimitLetters(s: Store, id: TaskId): nat {
    multiset(s.deadLetters)[DeadLetter(id, RerollLimitExhausted)]
  }

  /** How many of `rerolls` consecutive rerolls exceed the limit; a negative limit is exceeded from the first on. */
  function Excess(rerolls: nat, maxRerolls: int): nat {
    var limit := if maxRerolls < 0 then 0 else maxRerolls;
    if rerolls > limit then rerolls - limit else 0
  }

  /** Rerolls and their dead letters come only from `handle_validation_failure`, always with the same limit. */
  predicate OnlyHandledFailures(ops: seq<Op>, maxRerolls: int) {
    forall op :: op in ops ==>
      && !op.AddNegativeConstraint?
      && (op.RecordDeadLetter? ==> op.why != RerollLimitExhausted)
      && (op.HandleValidationFailure? ==> op.maxRerolls == maxRerolls)
  }

  ghost predicate RerollsBalanced(s: Store, maxRerolls: int) {
    && (forall id :: id in s.tasks ==> LimitLetters(s, id) == Excess(s.tasks[id].rerollCount, maxRerolls))
    && forall id :: id !in s.tasks ==> LimitLetters(s, id) == 0
  }

  ghost predicate SameRerolls(s: Store, s': Store) {
    && s'.deadLetters == s.deadLetters
    && s.tasks.Keys <= s'.tasks.Keys
    && forall id :: id in s.tasks ==> s'.tasks[id].rerollCount == s.tasks[id].rerollCount
  }

  lemma RejectKeepsRerolls(s: Store, id: TaskId, reason: string)
    ensures SameRerolls(s, Reject(s, id, reason).store)
  {
  }

  lemma OtherCallsKeepRerolls(s: Store, op: Op)
    requires Enabled(s, op)
    requires !op.AddNegativeConstraint? && !op.HandleValidationFailure? && !op.RecordDeadLetter?
    ensures SameRerolls(s, Next(s, op).store)
  {
    match op
    case RejectAndPrune(id, reason) => RejectKeepsRerolls(s, id, reason);
    case RejectApproval(id, decider, reason) => RejectKeepsRerolls(Decide(s, id, Declined, decider), id, reason);
    case _ =>
  }

  /** A task has one constraint per reroll, and one reroll-limit dead letter per reroll beyond the limit. */
  lemma RerollConservation(states: seq<Store>, ops: seq<Op>, maxRerolls: int, i: nat, id: TaskId)
    requires IsRun(states, ops) && OnlyHandledFailures(ops, maxRerolls) && i < |states| && id in states[i].tasks
    ensures var t := states[i].tasks[id];
            |t.negativeConstraints| == t.rerollCount && LimitLetters(states[i], id) == Excess(t.rerollCount, maxRerolls)
  {
    ConstraintsCountRerolls(states, ops, i);
    RunIsBalanced(states, ops, maxRerolls, i);
  }

  lemma {:induction false} RunIsBalanced(states: seq<Store>, ops: seq<Op>, maxRerolls: int, i: nat)
    requires IsRun(states, ops) && OnlyHandledFailures(ops, maxRerolls) && i < |states|
    ensures RerollsBalanced(states[i], maxRerolls)
  {
    if i > 0 {
      RunIsBalanced(states, ops, maxRerolls, i - 1);
      var op := ops[i - 1];
      assert op in ops;
      StepKeepsRerolls(states[i - 1], op, maxRerolls);
    }
  }

  lemma StepKeepsRerolls(s: Store, op: Op, maxRerolls: int)
    requires Enabled(s, op) && OnlyHandledFailures([op], maxRerolls) && RerollsBalanced(s, maxRerolls)
    ensures RerollsBalanced(Next(s, op).store, maxRerolls)
  {
    if op.HandleValidationFailure? {
      assert op in [op];
      FailureKeepsRerolls(s, op.id, op.constraint, maxRerolls);
    } else {
      assert op in [op];
      if !op.RecordDeadLetter? {
        OtherCallsKeepRerolls(s, op);
        NewRowsAreFresh(s, op);
      }
    }
  }

  lemma FailureKeepsRerolls(s: Store, id: TaskId, constraint: string, maxRerolls: int)
    requires RerollsBalanced(s, maxRerolls)
    ensures RerollsBalanced(HandleFailure(s, id, constraint, maxRerolls).store, maxRerolls)
  {
    var s' := HandleFailure(s, id, constraint, maxRerolls).store;
    if id in s.tasks && s.tasks[id].rerollCount + 1 > maxRerolls {
      assert s'.deadLetters == s.deadLetters + [DeadLetter(id, RerollLimitExhausted)];
    }
  }

  /** In every run a task's reroll count is the number of its negative constraints. */
  ghost predicate OneConstraintPerReroll(s: Store) {
    forall id :: id in s.tasks ==> s.tasks[id].rerollCount == |s.tasks[id].negativeConstraints|
  }

  lemma StepKeepsConstraints(s: Store, op: Op)
    requires Enabled(s, op) && OneConstraintPerReroll(s)
    ensures OneConstraintPerReroll(Next(s, op).store)
  {
    StepEvolves(s, op);
    NewRowsAreFresh(s, op);
  }

  lemma {:induction false} ConstraintsCountRerolls(states: seq<Store>, ops: seq<Op>, i: nat)
    requires IsRun(states, ops) && i < |states|
    ensures OneConstraintPerReroll(states[i])
  {
    if i > 0 {
      ConstraintsCountRerolls(states, ops, i - 1);
      StepKeepsConstraints(states[i - 1], ops[i - 1]);
    }
  }

  // Leases

  ghost predicate HasLeaseRow(leases: set<LeaseRow>, id: TaskId, owner: string) {
    exists r :: r in leases && r.taskId == id && r.workerId == owner
  }

  ghost predicate LeasesRecorded(s: Store) {
    forall id :: id in s.tasks && s.tasks[id].lease.Some? ==> HasLeaseRow(s.leases, id, s.tasks[id].lease.value.owner)
  }

  lemma DroppingOthersKeepsRow(leases: set<LeaseRow>, ids: set<TaskId>, id: TaskId, owner: string)
    requires HasLeaseRow(leases, id, owner) && id !in ids
    ensures HasLeaseRow(WithoutLeases(leases, ids), id, owner)
  {
    var r :| r in leases && r.taskId == id && r.workerId == owner;
    assert r in WithoutLeases(leases, ids);
  }

  /** Calls other than a claim only drop leases, and drop lease rows only of tasks that lose theirs. */
  lemma LeasesOnlyDrop(s: Store, op: Op)
    requires Enabled(s, op) && !op.ClaimReadyTask? && WellResolved(s)
    ensures OnlyDrops(s, Next(s, op).store, DroppedBy(s, op))
  {
    match op
    case RejectAndPrune(id, reason) => RejectDrops(s, id, reason);
    case RejectApproval(id, decider, reason) => RejectDrops(Decide(s, id, Declined, decider), id, reason);
    case CreateApproval(_, _) => ApprovalsDropNothing(s, op);
    case ApproveTask(_, _) => ApprovalsDropNothing(s, op);
    case TransitionTaskState(id, from, to) => TransitionDropsNothing(s, id, from, to);
    case ReleaseExpiredLeases(now) => ReleaseDrops(s, now);
    case CompleteTask(id) => CompletionDrops(s, id);
    case _ => OtherCallsDropNothing(s, op);
  }

  /** The lease rows of `dropped` are gone, and no task has a lease that it did not have or that was dropped. */
  ghost predicate OnlyDrops(s: Store, s': Store, dropped: set<TaskId>) {
    && s'.leases == WithoutLeases(s.leases, dropped)
    && forall id :: id in s'.tasks && s'.tasks[id].lease.Some?
         ==> id in s.tasks && s'.tasks[id].lease == s.tasks[id].lease && id !in dropped
  }

  lemma ReleaseDrops(s: Store, now: int)
    ensures OnlyDrops(s, Release(s, now), ExpiredIds(s, now))
  {
  }

  lemma CompletionDrops(s: Store, id: TaskId)
    ensures OnlyDrops(s, Complete(s, id).store, if Complete(s, id).error.None? then {id} else {})
  {
    assert WithoutLeases(s.leases, {}) == s.leases;
  }

  lemma TransitionDropsNothing(s: Store, id: TaskId, from: State, to: State)
    ensures OnlyDrops(s, Transition(s, id, from, to).store, {})
  {
    assert WithoutLeases(s.leases, {}) == s.leases;
  }

  lemma ApprovalsDropNothing(s: Store, op: Op)
    requires op.CreateApproval? || op.ApproveTask?
    ensures OnlyDrops(s, Next(s, op).store, {})
  {
    assert WithoutLeases(s.leases, {}) == s.leases;
    if op.ApproveTask? {
      TransitionDropsNothing(Decide(s, op.id, Approved, op.decidedBy), op.id, PendingApproval, Planning);
    } else if op.id in s.tasks {
      var pending := s.(approvals := Next(s, op).store.approvals);
      TransitionDropsNothing(pending, op.id, s.tasks[op.id].state, PendingApproval);
    }
  }

  lemma OtherCallsDropNothing(s: Store, op: Op)
    requires op.CreateTask? || op.UpdateScores? || op.AddNegativeConstraint? || op.RecordDeadLetter?
             || op.HandleValidationFailure?
    ensures OnlyDrops(s, Next(s, op).store, {})
  {
    assert WithoutLeases(s.leases, {}) == s.leases;
  }

  lemma RejectDrops(s: Store, id: TaskId, reason: string)
    requires WellResolved(s)
    ensures OnlyDrops(s, Reject(s, id, reason).store, if id in s.tasks then {id} + Descendants(s.edges, id) else {})
  {
    assert WithoutLeases(s.leases, {}) == s.leases;
  }

  ghost function DroppedBy(s: Store, op: Op): set<TaskId> {
    match op
    case ReleaseExpiredLeases(now) => ExpiredIds(s, now)
    case CompleteTask(id) => if Complete(s, id).error.None? then {id} else {}
    case RejectAndPrune(id, _) => if id in s.tasks then {id} + Descendants(s.edges, id) else {}
    case RejectApproval(id, _, _) => if id in s.tasks then {id} + Descendants(s.edges, id) else {}
    case _ => {}
  }

  lemma StepKeepsLeasesRecorded(s: Store, op: Op)
    requires Enabled(s, op) && LeasesRecorded(s) && WellResolved(s)
    ensures LeasesRecorded(Next(s, op).store)
  {
    var s' := Next(s, op).store;
    if op.ClaimReadyTask? {
      forall id | id in s'.tasks && s'.tasks[id].lease.Some?
        ensures HasLeaseRow(s'.leases, id, s'.tasks[id].lease.value.owner)
      {
        if op.pick == Some(id) {
          assert LeaseRow(op.leaseId, id, op.workerId) in s'.leases;
        } else {
          var r :| r in s.leases && r.taskId == id && r.workerId == s.tasks[id].lease.value.owner;
          assert r in s'.leases;
        }
      }
    } else {
      var dropped := DroppedBy(s, op);
      LeasesOnlyDrop(s, op);
      forall id | id in s'.tasks && s'.tasks[id].lease.Some?
        ensures HasLeaseRow(s'.leases, id, s'.tasks[id].lease.value.owner)
      {
        DroppingOthersKeepsRow(s.leases, dropped, id, s.tasks[id].lease.value.owner);
      }
    }
  }

  /** Every leased task has a lease row naming its owner in the control database (the converse fails). */
  lemma {:induction false} LeasedTasksHaveRows(states: seq<Store>, ops: seq<Op>, i: nat)
    requires IsRun(states, ops) && i < |states|
    ensures LeasesRecorded(states[i])
  {
    if i > 0 {
      LeasedTasksHaveRows(states, ops, i - 1);
      RunIsWellResolved(states, ops, i - 1);
      StepKeepsLeasesRecorded(states[i - 1], ops[i - 1]);
    }
  }
}
