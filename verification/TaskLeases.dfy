/** What leases and creation times promise over whole runs: nobody works on a task twice, and older tasks go first. */
module TaskLeases {
  import opened Graphs
  import opened TaskDraining
  import opened TaskEffects
  import opened TaskInvariants
  import opened TaskSafety
  import opened TaskStore
  import opened Wrappers

  /** The call takes a lease away that ends at `expiresAt`: after its end, or with a constraint. */
  predicate TakesLease(op: Op, id: TaskId, expiresAt: int) {
    match op
    case ReleaseExpiredLeases(now) => expiresAt < now
    case AddNegativeConstraint(x, _) => x == id
    case HandleValidationFailure(x, _, _) => x == id
    case _ => false
  }

  /** The task is leased until then, or can never be claimed again. */
  predicate HeldOrOver(s: Store, id: TaskId, expiresAt: int) {
    && id in s.tasks
    && var t := s.tasks[id];
       t.state == Completed || t.resolution != Active || (t.lease.Some? && t.lease.value.expiresAt == expiresAt)
  }

  lemma RejectKeepsHeld(s: Store, x: TaskId, reason: string, id: TaskId, expiresAt: int)
    requires HeldOrOver(s, id, expiresAt)
    ensures HeldOrOver(Reject(s, x, reason).store, id, expiresAt)
  {
  }

  lemma TransitionKeepsHeld(s: Store, x: TaskId, from: State, to: State, id: TaskId, expiresAt: int)
    requires HeldOrOver(s, id, expiresAt)
    ensures HeldOrOver(Transition(s, x, from, to).store, id, expiresAt)
  {
  }

  lemma StepKeepsHeld(s: Store, op: Op, id: TaskId, expiresAt: int)
    requires Enabled(s, op) && HeldOrOver(s, id, expiresAt) && !TakesLease(op, id, expiresAt)
    ensures HeldOrOver(Next(s, op).store, id, expiresAt)
  {
    match op
    case RejectAndPrune(x, reason) => RejectKeepsHeld(s, x, reason, id, expiresAt);
    case RejectApproval(x, decider, reason) =>
      RejectKeepsHeld(Decide(s, x, Declined, decider), x, reason, id, expiresAt);
    case ApproveTask(x, decider) =>
      TransitionKeepsHeld(Decide(s, x, Approved, decider), x, PendingApproval, Planning, id, expiresAt);
    case ReleaseExpiredLeases(now) => ReleaseEffect(s, now);
    case CreateApproval(approvalId, x) => OpeningEffect(s, approvalId, x);
    case _ =>
  }

  ghost predicate KeepsHeld(s: Store, s': Store, id: TaskId, expiresAt: int) {
    HeldOrOver(s, id, expiresAt) ==> HeldOrOver(s', id, expiresAt)
  }

  lemma {:induction false} HeldOverStates(states: seq<Store>, i: nat, k: nat, id: TaskId, expiresAt: int)
    requires i <= k < |states| && HeldOrOver(states[i], id, expiresAt)
    requires forall m :: i < m <= k ==> KeepsHeld(states[m - 1], states[m], id, expiresAt)
    ensures HeldOrOver(states[k], id, expiresAt)
    decreases k
  {
    if i < k {
      HeldOverStates(states, i, k - 1, id, expiresAt);
      assert KeepsHeld(states[k - 1], states[k], id, expiresAt);
    }
  }

  lemma StretchKeepsHeld(states: seq<Store>, ops: seq<Op>, i: nat, k: nat, id: TaskId, expiresAt: int)
    requires IsRun(states, ops) && i <= k <= |ops| && HeldOrOver(states[i], id, expiresAt)
    requires forall m :: i <= m < k ==> !TakesLease(ops[m], id, expiresAt)
    ensures HeldOrOver(states[k], id, expiresAt)
  {
    forall m | i < m <= k ensures KeepsHeld(states[m - 1], states[m], id, expiresAt) {
      if HeldOrOver(states[m - 1], id, expiresAt) {
        NextKeepsHeld(states, ops, m, id, expiresAt);
      }
    }
    HeldOverStates(states, i, k, id, expiresAt);
  }

  lemma NextKeepsHeld(states: seq<Store>, ops: seq<Op>, k: nat, id: TaskId, expiresAt: int)
    requires IsRun(states, ops) && 0 < k <= |ops| && HeldOrOver(states[k - 1], id, expiresAt)
    requires !TakesLease(ops[k - 1], id, expiresAt)
    ensures HeldOrOver(states[k], id, expiresAt)
  {
    StepKeepsHeld(states[k - 1], ops[k - 1], id, expiresAt);
    assert states[k - 1 + 1] == Next(states[k - 1], ops[k - 1]).store;
  }

  /**
   * Between two claims of one task there is a release at a time later than the end of the first lease, or a
   * constraint added to the task: nobody is handed a task that somebody still holds.
   */
  lemma NoTaskIsHandedOutTwice(states: seq<Store>, ops: seq<Op>, i: nat, j: nat, id: TaskId)
    requires IsRun(states, ops) && i < j < |ops|
    requires ClaimOf(ops[i]) == {id} && ClaimOf(ops[j]) == {id}
    ensures exists m :: i < m < j &&
              ((ops[m].ReleaseExpiredLeases? && ops[i].expiresAt < ops[m].now)
               || (ops[m].AddNegativeConstraint? && ops[m].id == id)
               || (ops[m].HandleValidationFailure? && ops[m].id == id))
  {
    var expiresAt := ops[i].expiresAt;
    AfterClaim(states, ops, i, id);
    BeforeClaim(states, ops, j, id, expiresAt);
    if forall m :: i < m < j ==> !TakesLease(ops[m], id, expiresAt) {
      StretchKeepsHeld(states, ops, i + 1, j, id, expiresAt);
    }
  }

  lemma BeforeClaim(states: seq<Store>, ops: seq<Op>, j: nat, id: TaskId, expiresAt: int)
    requires IsRun(states, ops) && j < |ops| && ClaimOf(ops[j]) == {id}
    ensures !HeldOrOver(states[j], id, expiresAt)
  {
    assert id in ClaimOf(ops[j]);
    ClaimPicksOldest(states[j], ops[j].project, id);
  }

  lemma AfterClaim(states: seq<Store>, ops: seq<Op>, i: nat, id: TaskId)
    requires IsRun(states, ops) && i < |ops| && ClaimOf(ops[i]) == {id}
    ensures ops[i].ClaimReadyTask? && ops[i].pick == Some(id) && HeldOrOver(states[i + 1], id, ops[i].expiresAt)
  {
    assert id in ClaimOf(ops[i]);
    var s, op := states[i], ops[i];
    ClaimEffect(s, op.project, op.workerId, op.expiresAt, op.leaseId, id);
  }

  /** Of two tasks that are both ready, draining picks the one created first, in whatever rounds. */
  lemma OlderTasksGoFirst(s: Store, project: string, who: seq<Claimant>, picks: seq<TaskId>, i: nat, j: nat)
    requires Resting(s, project) && Drains(s, project, who, picks) && i < j < |picks|
    requires picks[i] in s.tasks && picks[j] in s.tasks && Waiting(s, project, picks[j])
    ensures s.tasks[picks[i]].createdAt <= s.tasks[picks[j]].createdAt
  {
    var race := Race(picks[i], picks[j], s.tasks[picks[i]].createdAt, s.tasks[picks[j]].createdAt);
    DrainingInduction(s, project, who, picks);
    EarlierPickIsOlder(s, project, who, picks, i, j, race);
  }

  /** Two tasks and the times they were created at. */
  datatype Race = Race(a: TaskId, b: TaskId, timeA: int, timeB: int)

  /** In these rounds `a` is picked in round `i`, and `b`, which is ready already, in round `j`. */
  ghost predicate Ahead(s: Store, project: string, who: seq<Claimant>, picks: seq<TaskId>, i: nat, j: nat, race: Race) {
    && Drains(s, project, who, picks) && Distinct(picks)
    && i < j < |picks| && picks[i] == race.a && picks[j] == race.b
    && race.a in s.tasks && s.tasks[race.a].createdAt == race.timeA
    && race.b in s.tasks && s.tasks[race.b].createdAt == race.timeB && Waiting(s, project, race.b)
  }

  lemma {:induction false} EarlierPickIsOlder(s: Store, project: string, who: seq<Claimant>, picks: seq<TaskId>, i: nat,
                                              j: nat, race: Race)
    requires Ahead(s, project, who, picks, i, j, race)
    ensures race.timeA <= race.timeB
    decreases i
  {
    if i == 0 {
      FirstIsOldest(s, project, who, picks, j, race);
    } else {
      var next, whoNext, rest, j' := AfterFirst(s, project, who, picks, i, j, race);
      EarlierPickIsOlder(next, project, whoNext, rest, i - 1, j', race);
    }
  }

  lemma FirstIsOldest(s: Store, project: string, who: seq<Claimant>, picks: seq<TaskId>, j: nat, race: Race)
    requires Ahead(s, project, who, picks, 0, j, race)
    ensures race.timeA <= race.timeB
  {
    ClaimPicksOldest(s, project, race.a);
  }

  lemma AfterFirst(s: Store, project: string, who: seq<Claimant>, picks: seq<TaskId>, i: nat, j: nat, race: Race)
    returns (next: Store, whoNext: seq<Claimant>, rest: seq<TaskId>, j': nat)
    requires i > 0 && Ahead(s, project, who, picks, i, j, race)
    ensures Ahead(next, project, whoNext, rest, i - 1, j', race)
  {
    var first := picks[0];
    next, whoNext, rest, j' := Round(s, who[0], first), who[1..], picks[1..], j - 1;
    ClaimPicksOldest(s, project, first);
    WithoutFirst(picks, i, j);
    RoundRow(s, who[0], first);
    FinishingKeepsWaiting(s, next, project, first, race.b);
  }

  lemma WithoutFirst(picks: seq<TaskId>, i: nat, j: nat)
    requires Distinct(picks) && 0 < i < j < |picks|
    ensures Distinct(picks[1..]) && picks[0] != picks[j]
    ensures picks[1..][i - 1] == picks[i] && picks[1..][j - 1] == picks[j]
  {
  }

  lemma FinishingKeepsWaiting(s: Store, s': Store, project: string, id: TaskId, x: TaskId)
    requires FinishesOne(s, s', id) && s.tasks[id].resolution == Active
    requires x in s.tasks && x != id && Waiting(s, project, x)
    ensures Waiting(s', project, x)
  {
  }
}
