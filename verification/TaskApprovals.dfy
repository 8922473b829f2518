/** When the tasks that wait for approval are those somebody can still approve. */
module TaskApprovals {
  import opened TaskStore
  import opened Wrappers

  /** Somebody has yet to decide about the task. */
  predicate Undecided(s: Store, id: TaskId) {
    exists a :: a in s.approvals && s.approvals[a].taskId == id && s.approvals[a].decision == Pending
  }

  predicate Waits(s: Store, id: TaskId) {
    id in s.tasks && s.tasks[id].state == PendingApproval && s.tasks[id].resolution == Active
  }

  /** Each ACTIVE task in PENDING_APPROVAL has a PENDING approval row. */
  ghost predicate Decidable(s: Store) {
    forall id :: Waits(s, id) ==> Undecided(s, id)
  }

  /** A bare transition to PENDING_APPROVAL takes effect. */
  predicate Parks(s: Store, op: Op) {
    && op.TransitionTaskState? && op.to == PendingApproval && op.from == Planning
    && op.id in s.tasks && s.tasks[op.id].state == Planning && s.tasks[op.id].resolution == Active
  }

  /** What that transition does not check. */
  predicate ParkedWithApproval(s: Store, op: Op) {
    Parks(s, op) ==> Undecided(s, op.id)
  }

  /** Tasks that wait afterwards waited before, and no row is gone or decided. */
  lemma KeepingRowsKeepsDecidable(s: Store, s': Store)
    requires Decidable(s)
    requires forall id :: Waits(s', id) ==> Waits(s, id)
    requires forall a :: a in s.approvals ==> a in s'.approvals && s'.approvals[a] == s.approvals[a]
    ensures Decidable(s')
  {
    forall id | Waits(s', id) ensures Undecided(s', id) {
      assert Undecided(s, id);
    }
  }

  /** Deciding about one task leaves the rows of all others open. */
  lemma DecidingSparesOthers(s: Store, id: TaskId, decision: Decision, decider: string, other: TaskId)
    requires other != id && Undecided(s, other)
    ensures Undecided(Decide(s, id, decision, decider), other)
  {
    var a :| a in s.approvals && s.approvals[a].taskId == other && s.approvals[a].decision == Pending;
    assert a in Decide(s, id, decision, decider).approvals;
  }

  lemma DecidingKeepsDecidable(s: Store, id: TaskId, decision: Decision, decider: string, s': Store)
    requires Decidable(s) && s'.approvals == Decide(s, id, decision, decider).approvals
    requires forall x :: Waits(s', x) ==> x != id && Waits(s, x)
    ensures Decidable(s')
  {
    forall x | Waits(s', x) ensures Undecided(s', x) {
      DecidingSparesOthers(s, id, decision, decider, x);
      var a :| a in s'.approvals && s'.approvals[a].taskId == x && s'.approvals[a].decision == Pending;
    }
  }

  lemma OpeningKeepsDecidable(s: Store, approvalId: string, id: TaskId)
    requires Decidable(s)
    ensures Decidable(OpenApproval(s, approvalId, id).store)
  {
    if id in s.tasks && approvalId !in s.approvals {
      var s' := OpenApproval(s, approvalId, id).store;
      assert s'.approvals == s.approvals[approvalId := Approval(id, Pending, None)];
      forall x | Waits(s', x) ensures Undecided(s', x) {
        if x == id {
          assert approvalId in s'.approvals;
        } else {
          assert Waits(s, x);
          var a :| a in s.approvals && s.approvals[a].taskId == x && s.approvals[a].decision == Pending;
          assert a in s'.approvals && s'.approvals[a] == s.approvals[a];
        }
      }
    }
  }

  lemma ParkingExactly(s: Store, op: Op)
    requires Decidable(s) && op.TransitionTaskState?
    ensures Decidable(Next(s, op).store) <==> ParkedWithApproval(s, op)
  {
    var s' := Next(s, op).store;
    assert s'.approvals == s.approvals;
    forall id ensures Undecided(s', id) <==> Undecided(s, id) {
    }
    if Parks(s, op) {
      assert Waits(s', op.id);
    }
    forall id | Waits(s', id) ensures Waits(s, id) || (Parks(s, op) && id == op.id) {
    }
  }

  lemma ApprovingEndsWaiting(s: Store, id: TaskId, decider: string)
    ensures var s' := Transition(Decide(s, id, Approved, decider), id, PendingApproval, Planning).store;
            && s'.approvals == Decide(s, id, Approved, decider).approvals
            && forall x :: Waits(s', x) ==> x != id && Waits(s, x)
  {
  }

  lemma RejectingEndsWaiting(s: Store, id: TaskId, reason: string)
    ensures var s' := Reject(s, id, reason).store;
            s'.approvals == s.approvals && forall x :: Waits(s', x) ==> x != id && Waits(s, x)
  {
  }

  /** The calls that have nothing to do with approvals. */
  lemma OtherCallsParkNothing(s: Store, op: Op)
    requires Enabled(s, op) && !op.TransitionTaskState? && !op.CreateApproval? && !op.ApproveTask?
    requires !op.RejectAndPrune? && !op.RejectApproval?
    ensures var s' := Next(s, op).store;
            s'.approvals == s.approvals && forall id :: Waits(s', id) ==> Waits(s, id)
  {
    match op
    case CreateTask(id, projectId, parent, now) => CreationParksNothing(s, id, projectId, parent, now);
    case ReleaseExpiredLeases(now) => ReleaseParksNothing(s, now);
    case HandleValidationFailure(id, constraint, maxRerolls) => FailureParksNothing(s, id, constraint, maxRerolls);
    case _ =>
  }

  lemma CreationParksNothing(s: Store, id: TaskId, projectId: string, parent: Option<TaskId>, now: int)
    ensures var s' := Create(s, id, projectId, parent, now).store;
            s'.approvals == s.approvals && forall x :: Waits(s', x) ==> Waits(s, x)
  {
  }

  lemma ReleaseParksNothing(s: Store, now: int)
    ensures forall id :: Waits(Release(s, now), id) ==> Waits(s, id)
  {
  }

  lemma FailureParksNothing(s: Store, id: TaskId, constraint: string, maxRerolls: int)
    ensures var s' := HandleFailure(s, id, constraint, maxRerolls).store;
            s'.approvals == s.approvals && forall x :: Waits(s', x) ==> Waits(s, x)
  {
  }

  /**
   * Every call but a bare transition to PENDING_APPROVAL keeps waiting tasks decidable; that one does so exactly
   * if there is an open row.
   */
  lemma StepDecidableExactly(s: Store, op: Op)
    requires Enabled(s, op) && Decidable(s)
    ensures Decidable(Next(s, op).store) <==> ParkedWithApproval(s, op)
  {
    match op
    case TransitionTaskState(_, _, _) => ParkingExactly(s, op);
    case CreateApproval(approvalId, id) => OpeningKeepsDecidable(s, approvalId, id);
    case ApproveTask(id, decider) =>
      ApprovingEndsWaiting(s, id, decider);
      DecidingKeepsDecidable(s, id, Approved, decider, Next(s, op).store);
    case RejectApproval(id, decider, reason) =>
      RejectingEndsWaiting(Decide(s, id, Declined, decider), id, reason);
      DecidingKeepsDecidable(s, id, Declined, decider, Next(s, op).store);
    case RejectAndPrune(id, reason) =>
      RejectingEndsWaiting(s, id, reason);
      KeepingRowsKeepsDecidable(s, Next(s, op).store);
    case _ =>
      OtherCallsParkNothing(s, op);
      KeepingRowsKeepsDecidable(s, Next(s, op).store);
  }

  /** Over any run: waiting tasks can always be decided if and only if no bare transition parks one without a row. */
  lemma {:induction false} DecidableRunsExactly(states: seq<Store>, ops: seq<Op>, n: nat)
    requires IsRun(states, ops) && n <= |ops|
    ensures (forall i :: 0 <= i <= n ==> Decidable(states[i]))
       <==> forall i :: 0 <= i < n ==> ParkedWithApproval(states[i], ops[i])
  {
    if n > 0 {
      DecidableRunsExactly(states, ops, n - 1);
      if Decidable(states[n - 1]) {
        NextDecidableExactly(states, ops, n);
      }
    }
  }

  lemma NextDecidableExactly(states: seq<Store>, ops: seq<Op>, n: nat)
    requires IsRun(states, ops) && 0 < n <= |ops| && Decidable(states[n - 1])
    ensures Decidable(states[n]) <==> ParkedWithApproval(states[n - 1], ops[n - 1])
  {
    StepDecidableExactly(states[n - 1], ops[n - 1]);
    assert states[n - 1 + 1] == Next(states[n - 1], ops[n - 1]).store;
  }

  /** A task is created and parked: nobody can decide about it. */
  lemma ParkedWithoutApproval(a: TaskId) returns (states: seq<Store>, ops: seq<Op>)
    ensures ops == [CreateTask(a, "p", None, 0), TransitionTaskState(a, Planning, PendingApproval)]
    ensures IsRun(states, ops) && !Decidable(states[2])
  {
    var s := Create(EMPTY, a, "p", None, 0).store;
    var s' := Transition(s, a, Planning, PendingApproval).store;
    states, ops := [EMPTY, s, s'], [CreateTask(a, "p", None, 0), TransitionTaskState(a, Planning, PendingApproval)];
    assert Waits(s', a) && !Undecided(s', a);
  }
}
