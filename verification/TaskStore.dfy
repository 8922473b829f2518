/**
 * The task tables of the queue and control databases (orchestrator/queue_repo.py), and what one
 * repository call does to them. Every call is one atomic step.
 */
module TaskStore {
  import opened Graphs
  import opened Wrappers

  type TaskId = string

  datatype State = Planning | PendingApproval | Completed

  datatype Resolution = Active | Rejected | CascadePruned

  datatype Lease = Lease(owner: string, expiresAt: int)

  datatype Scores = Scores(slr: real, depthPenalty: real, final: real)

  datatype Task = Task(
    projectId: string,
    state: State,
    resolution: Resolution,
    parent: Option<TaskId>,
    lease: Option<Lease>,
    rerollCount: nat,
    negativeConstraints: seq<string>,
    revision: nat,
    scores: Scores,
    createdAt: int,
    prunedBy: Option<TaskId>,
    prunedReason: Option<string>,
    serial: nat)  // how many rows were inserted before this one; a history variable, not a column

  datatype LeaseRow = LeaseRow(leaseId: string, taskId: TaskId, workerId: string)

  datatype Decision = Pending | Approved | Declined

  datatype Approval = Approval(taskId: TaskId, decision: Decision, decidedBy: Option<string>)

  datatype Reason = InvalidTaskPayload | RerollLimitExhausted

  datatype DeadLetter = DeadLetter(taskId: TaskId, reason: Reason)

  datatype Store = Store(
    tasks: map<TaskId, Task>,
    edges: set<(TaskId, TaskId)>,
    approvals: map<string, Approval>,
    leases: set<LeaseRow>,
    deadLetters: seq<DeadLetter>)

  const EMPTY := Store(map[], {}, map[], {}, [])

  /** The repository calls. What the outside world decides (ids, clocks, ties) travels with the call. */
  datatype Op =
    | CreateTask(id: TaskId, projectId: string, parent: Option<TaskId>, now: int)
    | ClaimReadyTask(project: string, workerId: string, expiresAt: int, leaseId: string, pick: Option<TaskId>)
    | ReleaseExpiredLeases(now: int)
    | TransitionTaskState(id: TaskId, from: State, to: State)
    | CompleteTask(id: TaskId)
    | RejectAndPrune(id: TaskId, reason: string)
    | CreateApproval(approvalId: string, id: TaskId)
    | ApproveTask(id: TaskId, decidedBy: string)
    | RejectApproval(id: TaskId, decidedBy: string, reason: string)
    | UpdateScores(id: TaskId, scores: Scores)
    | AddNegativeConstraint(id: TaskId, constraint: string)
    | RecordDeadLetter(id: TaskId, why: Reason)
    | HandleValidationFailure(id: TaskId, constraint: string, maxRerolls: int)

  datatype Error = KeyError | ValueError | IntegrityError

  datatype Outcome = Outcome(store: Store, error: Option<Error>)

  function Succeed(s: Store): Outcome { Outcome(s, None) }

  function Raise(s: Store, e: Error): Outcome { Outcome(s, Some(e)) }

  // ALLOWED_TASK_TRANSITIONS
  predicate Allowed(from: State, to: State) {
    || (from == Planning && to == PendingApproval)
    || (from == Planning && to == Completed)
    || (from == PendingApproval && to == Planning)
    || (from == PendingApproval && to == Completed)
  }

  predicate Finished(t: Task) {
    t.state == Completed && t.resolution == Active
  }

  /** The rows the claim query may pick: it looks at direct parents only. */
  predicate Ready(s: Store, project: string, id: TaskId) {
    && id in s.tasks
    && s.tasks[id].projectId == project
    && s.tasks[id].state == Planning
    && s.tasks[id].resolution == Active
    && s.tasks[id].lease == None
    && forall e :: e in s.edges && e.1 == id && e.0 in s.tasks ==> Finished(s.tasks[e.0])
  }

  /** `ORDER BY created_at LIMIT 1`: an oldest ready row, ties broken arbitrarily. */
  ghost predicate LegalPick(s: Store, project: string, pick: Option<TaskId>) {
    match pick
    case None => forall id :: !Ready(s, project, id)
    case Some(t) =>
      && Ready(s, project, t)
      && forall id :: Ready(s, project, id) ==> s.tasks[t].createdAt <= s.tasks[id].createdAt
  }

  /** The recursive query of `_descendants` stops: no cycle can be reached from `id`. */
  ghost predicate QueryStops(edges: set<(TaskId, TaskId)>, id: TaskId) {
    forall x :: x == id || Reaches(edges, id, x) ==> !Reaches(edges, x, x)
  }

  ghost predicate Enabled(s: Store, op: Op) {
    match op
    case ClaimReadyTask(project, _, _, _, pick) => LegalPick(s, project, pick)
    case RejectAndPrune(id, _) => QueryStops(s.edges, id)
    case RejectApproval(id, _, _) => QueryStops(s.edges, id)
    case _ => true
  }

  function Bump(t: Task): Task {
    t.(revision := t.revision + 1)
  }

  function Put(s: Store, id: TaskId, t: Task): Store {
    s.(tasks := s.tasks[id := t])
  }

  function WithoutLeases(leases: set<LeaseRow>, ids: set<TaskId>): set<LeaseRow> {
    set r | r in leases && r.taskId !in ids
  }

  function NewTask(s: Store, projectId: string, parent: Option<TaskId>, now: int): Task {
    Task(projectId, Planning, Active, parent, None, 0, [], 0, Scores(0.0, 0.0, 0.0), now, None, None, |s.tasks|)
  }

  function Create(s: Store, id: TaskId, projectId: string, parent: Option<TaskId>, now: int): Outcome {
    // the foreign key is checked once the row is in, so a row may name itself as its parent
    if id in s.tasks || (parent.Some? && parent.value != id && parent.value !in s.tasks) then Raise(s, IntegrityError)
    else Succeed(Put(s, id, NewTask(s, projectId, parent, now)).(
                   edges := s.edges + if parent.Some? then {(parent.value, id)} else {}))
  }

  function Claim(s: Store, workerId: string, expiresAt: int, leaseId: string, pick: Option<TaskId>): Store
    requires pick.Some? ==> pick.value in s.tasks
  {
    if pick.None? then s else
      Put(s, pick.value, Bump(s.tasks[pick.value].(lease := Some(Lease(workerId, expiresAt)))))
        .(leases := s.leases + {LeaseRow(leaseId, pick.value, workerId)})
  }

  predicate Expired(t: Task, now: int) {
    t.lease.Some? && t.lease.value.expiresAt < now
  }

  function ExpiredIds(s: Store, now: int): set<TaskId> {
    set id | id in s.tasks && Expired(s.tasks[id], now)
  }

  function Release(s: Store, now: int): Store {
    s.(tasks := map id | id in s.tasks ::
                  if Expired(s.tasks[id], now) then Bump(s.tasks[id].(lease := None)) else s.tasks[id],
       leases := WithoutLeases(s.leases, ExpiredIds(s, now)))
  }

  function Transition(s: Store, id: TaskId, from: State, to: State): Outcome {
    if !Allowed(from, to) then Raise(s, ValueError)
    else if id !in s.tasks then Raise(s, KeyError)
    else if s.tasks[id].state != from then Raise(s, ValueError)
    else Succeed(Put(s, id, Bump(s.tasks[id].(state := to))))
  }

  function Complete(s: Store, id: TaskId): Outcome {
    if id !in s.tasks then Raise(s, KeyError)
    else if !Allowed(s.tasks[id].state, Completed) then Raise(s, ValueError)
    else Succeed(Put(s, id, Bump(s.tasks[id].(state := Completed, lease := None)))
                   .(leases := WithoutLeases(s.leases, {id})))
  }

  ghost function Descendants(edges: set<(TaskId, TaskId)>, id: TaskId): set<TaskId> {
    set e | e in edges && Reaches(edges, id, e.1) :: e.1
  }

  function RejectedTask(t: Task, reason: string): Task {
    Bump(t.(resolution := Rejected, lease := None, prunedReason := Some(reason)))
  }

  function PrunedTask(t: Task, pruner: TaskId, reason: string): Task {
    if t.resolution != Active then t
    else Bump(t.(resolution := CascadePruned, lease := None, prunedBy := Some(pruner), prunedReason := Some(reason)))
  }

  function Prune(s: Store, id: TaskId, descendants: set<TaskId>, reason: string): Store {
    s.(tasks := map x | x in s.tasks ::
                  if x == id then RejectedTask(s.tasks[x], reason)
                  else if x in descendants then PrunedTask(s.tasks[x], id, reason)
                  else s.tasks[x],
       leases := WithoutLeases(s.leases, {id} + descendants))
  }

  ghost function Reject(s: Store, id: TaskId, reason: string): Outcome {
    // recording the event of a missing task violates its foreign key
    if id !in s.tasks then Raise(s, IntegrityError)
    else Succeed(Prune(s, id, Descendants(s.edges, id), reason))
  }

  function Decide(s: Store, id: TaskId, decision: Decision, decider: string): Store {
    s.(approvals := map a | a in s.approvals ::
                      if s.approvals[a].taskId == id && s.approvals[a].decision == Pending
                      then Approval(id, decision, Some(decider)) else s.approvals[a])
  }

  /** The approval row is committed before the transition is tried, and stays when the transition fails. */
  function OpenApproval(s: Store, approvalId: string, id: TaskId): Outcome {
    if id !in s.tasks then Raise(s, KeyError)
    else if approvalId in s.approvals then Raise(s, IntegrityError)
    else Transition(s.(approvals := s.approvals[approvalId := Approval(id, Pending, None)]),
                    id, s.tasks[id].state, PendingApproval)
  }

  function AddConstraint(s: Store, id: TaskId, constraint: string): Outcome {
    if id !in s.tasks then Raise(s, KeyError)
    else var t := s.tasks[id];
         Succeed(Put(s, id, Bump(t.(negativeConstraints := t.negativeConstraints + [constraint],
                                    rerollCount := t.rerollCount + 1, lease := None))))
  }

  function AddDeadLetter(s: Store, id: TaskId, reason: Reason): Store {
    s.(deadLetters := s.deadLetters + [DeadLetter(id, reason)])
  }

  /** execution_loop.py: one reroll, and a dead letter once the limit is passed. */
  function HandleFailure(s: Store, id: TaskId, constraint: string, maxRerolls: int): Outcome {
    var r := AddConstraint(s, id, constraint);
    if r.error.None? && id in r.store.tasks && r.store.tasks[id].rerollCount > maxRerolls
    then Succeed(AddDeadLetter(r.store, id, RerollLimitExhausted))
    else r
  }

  ghost function Next(s: Store, op: Op): Outcome
    requires Enabled(s, op)
  {
    match op
    case CreateTask(id, projectId, parent, now) => Create(s, id, projectId, parent, now)
    case ClaimReadyTask(_, workerId, expiresAt, leaseId, pick) => Succeed(Claim(s, workerId, expiresAt, leaseId, pick))
    case ReleaseExpiredLeases(now) => Succeed(Release(s, now))
    case TransitionTaskState(id, from, to) => Transition(s, id, from, to)
    case CompleteTask(id) => Complete(s, id)
    case RejectAndPrune(id, reason) => Reject(s, id, reason)
    case CreateApproval(approvalId, id) => OpenApproval(s, approvalId, id)
    case ApproveTask(id, decider) => Transition(Decide(s, id, Approved, decider), id, PendingApproval, Planning)
    case RejectApproval(id, decider, reason) => Reject(Decide(s, id, Declined, decider), id, reason)
    case UpdateScores(id, scores) =>
      Succeed(if id in s.tasks then Put(s, id, s.tasks[id].(scores := scores)) else s)
    case AddNegativeConstraint(id, constraint) => AddConstraint(s, id, constraint)
    case RecordDeadLetter(id, why) => Succeed(AddDeadLetter(s, id, why))
    case HandleValidationFailure(id, constraint, maxRerolls) => HandleFailure(s, id, constraint, maxRerolls)
  }

  /** A run: the successive states of the store, from empty, under enabled calls (which may fail). */
  ghost predicate IsRun(states: seq<Store>, ops: seq<Op>) {
    && |states| == |ops| + 1
    && states[0] == EMPTY
    && forall i :: 0 <= i < |ops| ==> Enabled(states[i], ops[i]) && states[i + 1] == Next(states[i], ops[i]).store
  }
}
