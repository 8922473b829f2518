/**
 * The claim query looks at direct parents only; over whole runs that is enough for all ancestors,
 * provided tasks are completed only after they were claimed, as the worker does.
 */
module TaskSafety {
  import opened Graphs
  import opened TaskInvariants
  import opened TaskStore
  import opened Wrappers

  function ClaimOf(op: Op): set<TaskId> {
    if op.ClaimReadyTask? && op.pick.Some? then {op.pick.value} else {}
  }

  /** Every task claimed in the course of `ops`. */
  function Claimed(ops: seq<Op>): set<TaskId> {
    if ops == [] then {} else Claimed(ops[..|ops| - 1]) + ClaimOf(ops[|ops| - 1])
  }

  function CompletionOf(op: Op): set<TaskId> {
    match op
    case CompleteTask(id) => {id}
    case TransitionTaskState(id, _, Completed) => {id}
    case _ => {}
  }

  lemma OnlyCompletionsComplete(s: Store, op: Op, id: TaskId)
    requires Enabled(s, op) && id in s.tasks && id in Next(s, op).store.tasks
    requires s.tasks[id].state != Completed && Next(s, op).store.tasks[id].state == Completed
    ensures id in CompletionOf(op)
  {
  }

  ghost predicate CompletesOnly(s: Store, s': Store, claimed: set<TaskId>) {
    forall id :: id in s.tasks && id in s'.tasks && s.tasks[id].state != Completed && s'.tasks[id].state == Completed
      ==> id in claimed
  }

  ghost predicate CompletesOnlyClaimed(states: seq<Store>, ops: seq<Op>)
    requires |states| == |ops| + 1
  {
    forall i :: 0 <= i < |ops| ==> CompletesOnly(states[i], states[i + 1], Claimed(ops[..i]))
  }

  ghost predicate ParentsFinished(s: Store, id: TaskId) {
    forall e :: e in s.edges && e.1 == id ==> e.0 in s.tasks && Finished(s.tasks[e.0])
  }

  /** The inductive invariant, which every run keeps. */
  ghost predicate Guarded(s: Store, claimed: set<TaskId>) {
    && claimed <= s.tasks.Keys
    && forall id :: id in claimed && s.tasks[id].resolution == Active ==> ParentsFinished(s, id)
  }

  /** No finished task has a parent that is not. */
  ghost predicate Sound(s: Store) {
    forall id :: id in s.tasks && Finished(s.tasks[id]) ==> ParentsFinished(s, id)
  }

  /** Every claimed task that is still ACTIVE has all its ancestors COMPLETED and ACTIVE. */
  ghost predicate Safe(s: Store, claimed: set<TaskId>) {
    forall id, ancestor ::
      (id in claimed && id in s.tasks && s.tasks[id].resolution == Active && Reaches(s.edges, ancestor, id))
      ==> (ancestor in s.tasks && Finished(s.tasks[ancestor]))
  }

  lemma RejectKeepsGuarded(s: Store, id: TaskId, reason: string, claimed: set<TaskId>)
    requires Forest(s) && Guarded(s, claimed)
    ensures Guarded(Reject(s, id, reason).store, claimed)
  {
    if id in s.tasks {
      var s' := Reject(s, id, reason).store;
      forall t, e | t in claimed && s'.tasks[t].resolution == Active && e in s'.edges && e.1 == t
        ensures e.0 in s'.tasks && Finished(s'.tasks[e.0])
      {
        // a pruned or rejected parent would have taken this child with it
        assert ParentsFinished(s, t);
        if e.0 == id {
          EdgeReaches(s.edges, id, t);
        } else if Reaches(s.edges, id, e.0) {
          ReachesAppend(s.edges, id, e.0, t);
        }
        assert t !in Descendants(s.edges, id);
      }
    }
  }

  lemma QuietKeepsGuarded(s: Store, s': Store, claimed: set<TaskId>)
    requires Guarded(s, claimed)
    requires forall id :: id in s.tasks ==> id in s'.tasks && Quiet(s.tasks[id], s'.tasks[id])
    requires forall id :: id in s.tasks && s.tasks[id].state == Completed ==> s'.tasks[id].state == Completed
    requires forall e :: e in s'.edges ==> e in s.edges || e.1 !in s.tasks
    ensures Guarded(s', claimed)
  {
    forall id | id in claimed && s'.tasks[id].resolution == Active ensures ParentsFinished(s', id) {
      assert ParentsFinished(s, id);
    }
  }

  lemma QuietStepKeepsGuarded(s: Store, op: Op, claimed: set<TaskId>)
    requires Enabled(s, op) && Guarded(s, claimed) && !op.RejectAndPrune? && !op.RejectApproval?
    ensures Guarded(Next(s, op).store, claimed)
  {
    StepEvolves(s, op);
    StepIsQuiet(s, op);
    NewRowsAreFresh(s, op);
    QuietKeepsGuarded(s, Next(s, op).store, claimed);
  }

  lemma ClaimKeepsGuarded(s: Store, workerId: string, expiresAt: int, leaseId: string, id: TaskId, project: string,
                          claimed: set<TaskId>)
    requires Guarded(s, claimed) && Forest(s) && Ready(s, project, id)
    ensures Guarded(Claim(s, workerId, expiresAt, leaseId, Some(id)), claimed + {id})
  {
    var s' := Claim(s, workerId, expiresAt, leaseId, Some(id));
    assert ParentsFinished(s', id);
    forall t | t in claimed && s'.tasks[t].resolution == Active ensures ParentsFinished(s', t) {
      assert ParentsFinished(s, t);
    }
  }

  lemma StepKeepsGuarded(s: Store, op: Op, claimed: set<TaskId>)
    requires Enabled(s, op) && Forest(s) && Guarded(s, claimed)
    ensures Guarded(Next(s, op).store, claimed + ClaimOf(op))
  {
    match op
    case RejectAndPrune(id, reason) => RejectKeepsGuarded(s, id, reason, claimed);
    case RejectApproval(id, decider, reason) =>
      RejectKeepsGuarded(Decide(s, id, Declined, decider), id, reason, claimed);
    case ClaimReadyTask(project, workerId, expiresAt, leaseId, Some(id)) =>
      ClaimKeepsGuarded(s, workerId, expiresAt, leaseId, id, project, claimed);
    case _ =>
      QuietStepKeepsGuarded(s, op, claimed);
      assert claimed + ClaimOf(op) == claimed;
  }

  lemma ClaimedStep(ops: seq<Op>, i: nat)
    requires 0 < i <= |ops|
    ensures Claimed(ops[..i]) == Claimed(ops[..i - 1]) + ClaimOf(ops[i - 1])
  {
    assert ops[..i][..i - 1] == ops[..i - 1];
  }

  lemma {:induction false} RunIsGuarded(states: seq<Store>, ops: seq<Op>, i: nat)
    requires IsRun(states, ops) && i < |states|
    ensures Guarded(states[i], Claimed(ops[..i]))
  {
    if i == 0 {
      assert ops[..0] == [];
    } else {
      RunIsGuarded(states, ops, i - 1);
      RunIsForest(states, ops, i - 1);
      StepKeepsGuarded(states[i - 1], ops[i - 1], Claimed(ops[..i - 1]));
      ClaimedStep(ops, i);
    }
  }

  lemma {:induction false} CompletedAreClaimed(states: seq<Store>, ops: seq<Op>, i: nat)
    requires IsRun(states, ops) && CompletesOnlyClaimed(states, ops) && i < |states|
    ensures forall id :: id in states[i].tasks && states[i].tasks[id].state == Completed ==> id in Claimed(ops[..i])
  {
    if i > 0 {
      var s, op := states[i - 1], ops[i - 1];
      CompletedAreClaimed(states, ops, i - 1);
      assert CompletesOnly(states[i - 1], states[i - 1 + 1], Claimed(ops[..i - 1]));
      NewRowsAreFresh(s, op);
      ClaimedStep(ops, i);
    }
  }

  /** When only claimed tasks are completed, no finished task has an unfinished parent. */
  lemma ClaimingFirstIsSound(states: seq<Store>, ops: seq<Op>, i: nat)
    requires IsRun(states, ops) && CompletesOnlyClaimed(states, ops) && i < |states|
    ensures Sound(states[i])
  {
    RunIsGuarded(states, ops, i);
    CompletedAreClaimed(states, ops, i);
  }

  lemma {:induction false} FinishedAncestor(s: Store, p: seq<TaskId>, a: TaskId, id: TaskId)
    requires Sound(s) && ParentsFinished(s, id) && Connects(s.edges, p, a, id)
    ensures a in s.tasks && Finished(s.tasks[a])
    decreases |p|
  {
    var m := p[|p| - 2];
    assert (m, p[|p| - 2 + 1]) in s.edges;
    if |p| > 2 {
      FinishedAncestor(s, p[..|p| - 1], a, m);
    }
  }

  /** A check of direct parents at every claim is enough in a sound store. */
  lemma SoundIsSafe(s: Store, claimed: set<TaskId>)
    requires Guarded(s, claimed) && Sound(s)
    ensures Safe(s, claimed)
  {
    forall id, a | id in claimed && s.tasks[id].resolution == Active && Reaches(s.edges, a, id)
      ensures a in s.tasks && Finished(s.tasks[a])
    {
      var p :| Connects(s.edges, p, a, id);
      FinishedAncestor(s, p, a, id);
    }
  }

  /** Every task ever claimed and still ACTIVE has all its ancestors COMPLETED and ACTIVE, at every moment. */
  lemma AncestorSafety(states: seq<Store>, ops: seq<Op>, i: nat, id: TaskId, ancestor: TaskId)
    requires IsRun(states, ops) && CompletesOnlyClaimed(states, ops) && i < |states|
    requires id in Claimed(ops[..i])
    ensures id in states[i].tasks
    ensures states[i].tasks[id].resolution == Active && Reaches(states[i].edges, ancestor, id)
      ==> ancestor in states[i].tasks && Finished(states[i].tasks[ancestor])
  {
    RunIsGuarded(states, ops, i);
    ClaimingFirstIsSound(states, ops, i);
    SoundIsSafe(states[i], Claimed(ops[..i]));
  }
}
