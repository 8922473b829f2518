/**
 * What each repository call changes, row by row: the columns it writes, and that it leaves the others and all
 * other rows as they were.
 */
module TaskEffects {
  import opened TaskStore
  import opened Wrappers

  /** Only the row of `id` may have changed. */
  ghost predicate OtherRowsStay(s: Store, s': Store, id: TaskId) {
    && s'.edges == s.edges && s'.tasks.Keys == s.tasks.Keys
    && forall x :: x in s.tasks && x != id ==> s'.tasks[x] == s.tasks[x]
  }

  /** A new row has the given project, parent and time, and every other column its default. */
  lemma CreationEffect(s: Store, id: TaskId, project: string, parent: Option<TaskId>, now: int)
    ensures var o := Next(s, CreateTask(id, project, parent, now));
            if id in s.tasks || (parent.Some? && parent.value != id && parent.value !in s.tasks)
            then o == Outcome(s, Some(IntegrityError))
            else
              && o.error == None && id in o.store.tasks
              && var t := o.store.tasks[id];
              && t.projectId == project && t.parent == parent && t.createdAt == now
              && t.state == Planning && t.resolution == Active && t.lease == None
              && t.rerollCount == 0 && t.negativeConstraints == [] && t.revision == 0
              && t.scores == Scores(0.0, 0.0, 0.0) && t.prunedBy == None && t.prunedReason == None
  {
  }

  /** Besides the new row there is its parent edge, if it has a parent, and nothing else. */
  lemma CreationAddsNothingElse(s: Store, id: TaskId, project: string, parent: Option<TaskId>, now: int)
    requires id !in s.tasks && (parent.Some? ==> parent.value == id || parent.value in s.tasks)
    ensures var s' := Next(s, CreateTask(id, project, parent, now)).store;
            && s'.tasks.Keys == s.tasks.Keys + {id} && (forall x :: x in s.tasks ==> s'.tasks[x] == s.tasks[x])
            && s'.edges == s.edges + (if parent.Some? then {(parent.value, id)} else {})
            && s'.approvals == s.approvals && s'.leases == s.leases && s'.deadLetters == s.deadLetters
  {
  }

  /** Which row a claim takes: one nobody holds, with finished parents, none older. */
  lemma ClaimPicksOldest(s: Store, project: string, id: TaskId)
    requires LegalPick(s, project, Some(id))
    ensures id in s.tasks
    ensures var t := s.tasks[id];
            && t.projectId == project && t.state == Planning && t.resolution == Active && t.lease == None
            && forall e :: e in s.edges && e.1 == id && e.0 in s.tasks ==>
                 s.tasks[e.0].state == Completed && s.tasks[e.0].resolution == Active
    ensures forall x :: x in s.tasks && Waiting(s, project, x) ==> s.tasks[id].createdAt <= s.tasks[x].createdAt
  {
    forall x | x in s.tasks && Waiting(s, project, x) ensures Ready(s, project, x) {
    }
  }

  /** A row that could be claimed, column by column. */
  predicate Waiting(s: Store, project: string, id: TaskId)
    requires id in s.tasks
  {
    var t := s.tasks[id];
    && t.projectId == project && t.state == Planning && t.resolution == Active && t.lease == None
    && forall e :: e in s.edges && e.1 == id && e.0 in s.tasks ==>
         s.tasks[e.0].state == Completed && s.tasks[e.0].resolution == Active
  }

  /** A claim comes back empty exactly when no row could be claimed. */
  lemma EmptyClaimExactly(s: Store, project: string)
    ensures LegalPick(s, project, None) <==> forall x :: x in s.tasks ==> !Waiting(s, project, x)
  {
    forall x ensures Ready(s, project, x) <==> x in s.tasks && Waiting(s, project, x) {
    }
  }

  lemma ClaimEffect(s: Store, project: string, worker: string, expiresAt: int, leaseId: string, id: TaskId)
    requires LegalPick(s, project, Some(id))
    ensures var o := Next(s, ClaimReadyTask(project, worker, expiresAt, leaseId, Some(id)));
            && o.error == None && OtherRowsStay(s, o.store, id)
            && var t, t' := s.tasks[id], o.store.tasks[id];
            && t'.lease.Some? && t'.lease.value.owner == worker && t'.lease.value.expiresAt == expiresAt
            && t'.revision == t.revision + 1 && t' == t.(lease := t'.lease, revision := t'.revision)
            && (forall r :: r in o.store.leases <==>
                  r in s.leases || (r.leaseId == leaseId && r.taskId == id && r.workerId == worker))
            && o.store.approvals == s.approvals && o.store.deadLetters == s.deadLetters
  {
  }

  lemma EmptyClaimEffect(s: Store, project: string, worker: string, expiresAt: int, leaseId: string)
    requires LegalPick(s, project, None)
    ensures Next(s, ClaimReadyTask(project, worker, expiresAt, leaseId, None)) == Outcome(s, None)
  {
  }

  /** The row holds a lease that ended before `now`. */
  predicate HasRunOut(t: Task, now: int) {
    t.lease.Some? && t.lease.value.expiresAt < now
  }

  /** Exactly the leases that ended before `now` are taken away, with their lease rows. */
  lemma ReleaseEffect(s: Store, now: int)
    ensures var o := Next(s, ReleaseExpiredLeases(now));
            && o.error == None && o.store.tasks.Keys == s.tasks.Keys && o.store.edges == s.edges
            && (forall x :: x in s.tasks && HasRunOut(s.tasks[x], now) ==>
                  o.store.tasks[x] == s.tasks[x].(lease := None, revision := s.tasks[x].revision + 1))
            && (forall x :: x in s.tasks && !HasRunOut(s.tasks[x], now) ==> o.store.tasks[x] == s.tasks[x])
            && (forall r :: r in o.store.leases <==>
                  r in s.leases && !(r.taskId in s.tasks && HasRunOut(s.tasks[r.taskId], now)))
            && o.store.approvals == s.approvals && o.store.deadLetters == s.deadLetters
    ensures forall x :: x in ExpiredIds(s, now) <==> x in s.tasks && HasRunOut(s.tasks[x], now)
  {
  }

  /** From a state that is not final any other state can be reached, from COMPLETED none. */
  lemma AllowedExactly(from: State, to: State)
    ensures Allowed(from, to) <==> from != Completed && from != to
  {
  }

  lemma TransitionEffect(s: Store, id: TaskId, from: State, to: State)
    ensures var o := Next(s, TransitionTaskState(id, from, to));
            if from == Completed || from == to then o == Outcome(s, Some(ValueError))
            else if id !in s.tasks then o == Outcome(s, Some(KeyError))
            else if s.tasks[id].state != from then o == Outcome(s, Some(ValueError))
            else
              && o.error == None && OtherRowsStay(s, o.store, id)
              && o.store.tasks[id] == s.tasks[id].(state := to, revision := s.tasks[id].revision + 1)
              && o.store.approvals == s.approvals && o.store.leases == s.leases && o.store.deadLetters == s.deadLetters
  {
  }

  lemma CompletionEffect(s: Store, id: TaskId)
    ensures var o := Next(s, CompleteTask(id));
            if id !in s.tasks then o == Outcome(s, Some(KeyError))
            else if s.tasks[id].state == Completed then o == Outcome(s, Some(ValueError))
            else
              && o.error == None && OtherRowsStay(s, o.store, id)
              && o.store.tasks[id] ==
                 s.tasks[id].(state := Completed, lease := None, revision := s.tasks[id].revision + 1)
              && (forall r :: r in o.store.leases <==> r in s.leases && r.taskId != id)
              && o.store.approvals == s.approvals && o.store.deadLetters == s.deadLetters
  {
  }

  /** The rows of a task that were open take the decision and who made it; no other row changes. */
  ghost predicate OnlyDecides(was: map<string, Approval>, now: map<string, Approval>, id: TaskId, decision: Decision,
                              decider: string) {
    && now.Keys == was.Keys
    && forall a :: a in was ==>
         if was[a].taskId == id && was[a].decision == Pending
         then now[a].taskId == id && now[a].decision == decision && now[a].decidedBy == Some(decider)
         else now[a] == was[a]
  }

  lemma ApprovalEffect(s: Store, id: TaskId, decider: string)
    ensures var o := Next(s, ApproveTask(id, decider));
            && OnlyDecides(s.approvals, o.store.approvals, id, Approved, decider)
            && o.store.leases == s.leases && o.store.deadLetters == s.deadLetters && OtherRowsStay(s, o.store, id)
            && if id !in s.tasks then o.error == Some(KeyError)
               else if s.tasks[id].state != PendingApproval
               then o.error == Some(ValueError) && o.store.tasks[id] == s.tasks[id]
               else
                 && o.error == None
                 && o.store.tasks[id] == s.tasks[id].(state := Planning, revision := s.tasks[id].revision + 1)
  {
  }

  lemma RefusalEffect(s: Store, id: TaskId, decider: string, reason: string)
    requires QueryStops(s.edges, id)
    ensures var o, pruned := Next(s, RejectApproval(id, decider, reason)), Next(s, RejectAndPrune(id, reason));
            && OnlyDecides(s.approvals, o.store.approvals, id, Declined, decider)
            && o.error == pruned.error && o.store.tasks == pruned.store.tasks && o.store.edges == pruned.store.edges
            && o.store.leases == pruned.store.leases && o.store.deadLetters == pruned.store.deadLetters
    ensures id !in s.tasks ==> Next(s, RejectAndPrune(id, reason)) == Outcome(s, Some(IntegrityError))
    ensures id in s.tasks ==> Next(s, RejectAndPrune(id, reason)).error == None
  {
  }

  lemma OpeningEffect(s: Store, approvalId: string, id: TaskId)
    ensures var o := Next(s, CreateApproval(approvalId, id));
            if id !in s.tasks then o == Outcome(s, Some(KeyError))
            else if approvalId in s.approvals then o == Outcome(s, Some(IntegrityError))
            else
              && OtherRowsStay(s, o.store, id) && o.store.leases == s.leases && o.store.deadLetters == s.deadLetters
              && o.store.approvals.Keys == s.approvals.Keys + {approvalId}
              && (forall a :: a in s.approvals ==> o.store.approvals[a] == s.approvals[a])
              && o.store.approvals[approvalId] == Approval(id, Pending, None)
              && (o.error == if s.tasks[id].state == Planning then None else Some(ValueError))
              && o.store.tasks[id] == if s.tasks[id].state != Planning then s.tasks[id]
                                      else s.tasks[id].(state := PendingApproval, revision := s.tasks[id].revision + 1)
  {
  }

  lemma ScoresEffect(s: Store, id: TaskId, scores: Scores)
    ensures var o := Next(s, UpdateScores(id, scores));
            && o.error == None && OtherRowsStay(s, o.store, id)
            && (id in s.tasks ==> o.store.tasks[id] == s.tasks[id].(scores := scores))
            && o.store.approvals == s.approvals && o.store.leases == s.leases && o.store.deadLetters == s.deadLetters
  {
  }

  /** The constraint is appended and the reroll counted; the row loses its lease, the lease row stays. */
  lemma ConstraintEffect(s: Store, id: TaskId, constraint: string)
    ensures var o := Next(s, AddNegativeConstraint(id, constraint));
            if id !in s.tasks then o == Outcome(s, Some(KeyError))
            else
              && o.error == None && OtherRowsStay(s, o.store, id)
              && var t, t' := s.tasks[id], o.store.tasks[id];
              && t'.negativeConstraints == t.negativeConstraints + [constraint]
              && t'.rerollCount == t.rerollCount + 1 && t'.lease == None && t'.revision == t.revision + 1
              && t' == t.(negativeConstraints := t'.negativeConstraints, rerollCount := t'.rerollCount, lease := None,
                          revision := t'.revision)
              && o.store.approvals == s.approvals && o.store.leases == s.leases && o.store.deadLetters == s.deadLetters
  {
  }

  lemma DeadLetterEffect(s: Store, id: TaskId, why: Reason)
    ensures var o := Next(s, RecordDeadLetter(id, why));
            o.error == None && o.store == s.(deadLetters := s.deadLetters + [DeadLetter(id, why)])
  {
  }

  /** A handled failure is the constraint, and beyond the limit one dead letter more. */
  lemma FailureEffect(s: Store, id: TaskId, constraint: string, maxRerolls: int)
    ensures var o, c := Next(s, HandleValidationFailure(id, constraint, maxRerolls)),
                        Next(s, AddNegativeConstraint(id, constraint));
            && o.error == c.error && o.store.tasks == c.store.tasks && o.store.edges == s.edges
            && o.store.approvals == s.approvals && o.store.leases == s.leases
            && o.store.deadLetters == s.deadLetters +
               if id in s.tasks && s.tasks[id].rerollCount + 1 > maxRerolls
               then [DeadLetter(id, RerollLimitExhausted)] else []
  {
    assert s.deadLetters + [] == s.deadLetters;
  }
}
