/** What every step, and so every run, of the task store keeps. */
module TaskInvariants {
  import opened Graphs
  import opened TaskStore
  import opened Wrappers

  // One step

  ghost predicate SameVersion(t: Task, t': Task) {
    && t'.state == t.state && t'.resolution == t.resolution && t'.lease == t.lease
    && t'.rerollCount == t.rerollCount && t'.negativeConstraints == t.negativeConstraints
  }

  /** What any call may do to an existing row. */
  ghost predicate Evolves(t: Task, t': Task) {
    && t'.parent == t.parent && t'.serial == t.serial
    && t.revision <= t'.revision
    && (t'.revision == t.revision ==> SameVersion(t, t'))
    && (t.state == Completed ==> t'.state == Completed)
    && (t.resolution != Active ==> t'.resolution != Active)
    && (t.resolution == Rejected ==> t'.resolution == Rejected)
    && (t.rerollCount == |t.negativeConstraints| ==> t'.rerollCount == |t'.negativeConstraints|)
  }

  ghost predicate FreshRow(t: Task) {
    && t.state == Planning && t.resolution == Active && t.lease == None
    && t.rerollCount == 0 && t.negativeConstraints == []
  }

  ghost predicate StoreEvolves(s: Store, s': Store) {
    && s.edges <= s'.edges
    && forall id :: id in s.tasks ==> id in s'.tasks && Evolves(s.tasks[id], s'.tasks[id])
  }

  ghost predicate SameRows(s: Store, s': Store) {
    s'.edges == s.edges && s'.tasks.Keys == s.tasks.Keys
  }

  lemma RejectEvolves(s: Store, id: TaskId, reason: string)
    ensures StoreEvolves(s, Reject(s, id, reason).store) && SameRows(s, Reject(s, id, reason).store)
  {
  }

  lemma ReleaseEvolves(s: Store, now: int)
    ensures StoreEvolves(s, Release(s, now)) && SameRows(s, Release(s, now))
  {
  }

  lemma TransitionEvolves(s: Store, id: TaskId, from: State, to: State)
    ensures StoreEvolves(s, Transition(s, id, from, to).store) && SameRows(s, Transition(s, id, from, to).store)
  {
  }

  lemma FailureEvolves(s: Store, id: TaskId, constraint: string, maxRerolls: int)
    ensures StoreEvolves(s, AddConstraint(s, id, constraint).store)
        && SameRows(s, AddConstraint(s, id, constraint).store)
    ensures StoreEvolves(s, HandleFailure(s, id, constraint, maxRerolls).store)
    ensures SameRows(s, HandleFailure(s, id, constraint, maxRerolls).store)
  {
  }

  lemma StepEvolves(s: Store, op: Op)
    requires Enabled(s, op)
    ensures StoreEvolves(s, Next(s, op).store)
    ensures !op.CreateTask? ==> SameRows(s, Next(s, op).store)
  {
    match op
    case CreateTask(id, projectId, parent, now) =>
    case ClaimReadyTask(_, _, _, _, _) =>
    case ReleaseExpiredLeases(now) => ReleaseEvolves(s, now);
    case TransitionTaskState(id, from, to) => TransitionEvolves(s, id, from, to);
    case CompleteTask(id) =>
    case RejectAndPrune(id, reason) => RejectEvolves(s, id, reason);
    case CreateApproval(approvalId, id) =>
      if id in s.tasks {
        TransitionEvolves(s.(approvals := s.approvals[approvalId := Approval(id, Pending, None)]), id,
            s.tasks[id].state, PendingApproval);
      }
    case ApproveTask(id, decider) => TransitionEvolves(Decide(s, id, Approved, decider), id, PendingApproval, Planning);
    case RejectApproval(id, decider, reason) => RejectEvolves(Decide(s, id, Declined, decider), id, reason);
    case UpdateScores(id, scores) =>
    case AddNegativeConstraint(id, constraint) => FailureEvolves(s, id, constraint, 0);
    case RecordDeadLetter(id, why) =>
    case HandleValidationFailure(id, constraint, maxRerolls) => FailureEvolves(s, id, constraint, maxRerolls);
  }

  lemma NewRowsAreFresh(s: Store, op: Op)
    requires Enabled(s, op)
    ensures var s' := Next(s, op).store;
            && (forall id :: id in s'.tasks && id !in s.tasks ==> FreshRow(s'.tasks[id]))
            && forall e :: e in s'.edges ==> e in s.edges || e.1 !in s.tasks
  {
    if !op.CreateTask? {
      StepEvolves(s, op);
    }
  }

  lemma EvolvesTransitive(s: Store, s': Store, s'': Store)
    requires StoreEvolves(s, s') && StoreEvolves(s', s'')
    ensures StoreEvolves(s, s'')
  {
  }

  lemma NextEvolves(states: seq<Store>, ops: seq<Op>, j: nat)
    requires IsRun(states, ops) && 0 < j < |states|
    ensures StoreEvolves(states[j - 1], states[j])
  {
    StepEvolves(states[j - 1], ops[j - 1]);
    assert states[j - 1 + 1] == Next(states[j - 1], ops[j - 1]).store;
  }

  lemma EvolvesReflexive(s: Store)
    ensures StoreEvolves(s, s)
  {
  }

  ghost predicate StepByStep(states: seq<Store>) {
    forall j :: 0 < j < |states| ==> StoreEvolves(states[j - 1], states[j])
  }

  lemma {:induction false} StepsAddUp(states: seq<Store>, i: nat, j: nat)
    requires StepByStep(states) && i <= j < |states|
    ensures StoreEvolves(states[i], states[j])
    decreases j
  {
    if i == j {
      EvolvesReflexive(states[i]);
    } else {
      StepsAddUp(states, i, j - 1);
      EvolvesTransitive(states[i], states[j - 1], states[j]);
    }
  }

  lemma RunEvolves(states: seq<Store>, ops: seq<Op>, i: nat, j: nat)
    requires IsRun(states, ops) && i <= j < |states|
    ensures StoreEvolves(states[i], states[j])
  {
    forall k | 0 < k < |states| ensures StoreEvolves(states[k - 1], states[k]) {
      NextEvolves(states, ops, k);
    }
    StepsAddUp(states, i, j);
  }

  /** At two moments with the same revision a task is the same in every versioned column. */
  lemma RevisionIsAVersion(states: seq<Store>, ops: seq<Op>, i: nat, j: nat, id: TaskId)
    requires IsRun(states, ops) && i < |states| && j < |states|
    requires id in states[i].tasks && id in states[j].tasks
    requires states[i].tasks[id].revision == states[j].tasks[id].revision
    ensures SameVersion(states[i].tasks[id], states[j].tasks[id])
  {
    if i <= j {
      RunEvolves(states, ops, i, j);
    } else {
      RunEvolves(states, ops, j, i);
    }
  }

  /** A resolution never returns to ACTIVE, REJECTED never changes, and COMPLETED is final. */
  lemma ResolutionOnlyHardens(states: seq<Store>, ops: seq<Op>, i: nat, j: nat, id: TaskId)
    requires IsRun(states, ops) && i <= j < |states| && id in states[i].tasks
    ensures id in states[j].tasks
    ensures states[i].tasks[id].resolution != Active ==> states[j].tasks[id].resolution != Active
    ensures states[i].tasks[id].resolution == Rejected ==> states[j].tasks[id].resolution == Rejected
    ensures states[i].tasks[id].state == Completed ==> states[j].tasks[id].state == Completed
  {
    RunEvolves(states, ops, i, j);
  }

  // The parent forest

  ghost predicate EdgeIsParent(s: Store, e: (TaskId, TaskId)) {
    && e.0 in s.tasks && e.1 in s.tasks && s.tasks[e.1].parent == Some(e.0)
    && (e.0 == e.1 || s.tasks[e.0].serial < s.tasks[e.1].serial)
  }

  ghost predicate ParentIsEdge(s: Store, id: TaskId)
    requires id in s.tasks
  {
    && s.tasks[id].serial < |s.tasks|
    && (s.tasks[id].parent.Some? ==> (s.tasks[id].parent.value, id) in s.edges)
  }

  /** Edges are exactly the parent columns, and apart from self-parents a parent is an older row. */
  ghost predicate Forest(s: Store) {
    && (forall e :: e in s.edges ==> EdgeIsParent(s, e))
    && (forall id :: id in s.tasks ==> ParentIsEdge(s, id))
  }

  lemma CreateKeepsForest(s: Store, id: TaskId, projectId: string, parent: Option<TaskId>, now: int)
    requires Forest(s)
    ensures Forest(Create(s, id, projectId, parent, now).store)
  {
    var s' := Create(s, id, projectId, parent, now).store;
    if id !in s.tasks {
      forall e | e in s'.edges ensures EdgeIsParent(s', e) {
        if e in s.edges {
          assert EdgeIsParent(s, e);
        } else if e.0 != id {
          assert ParentIsEdge(s, e.0);
        }
      }
      forall x | x in s'.tasks ensures ParentIsEdge(s', x) {
        assert x != id ==> ParentIsEdge(s, x);
      }
    }
  }

  lemma StepKeepsForest(s: Store, op: Op)
    requires Enabled(s, op) && Forest(s)
    ensures Forest(Next(s, op).store)
  {
    if op.CreateTask? {
      CreateKeepsForest(s, op.id, op.projectId, op.parent, op.now);
    } else {
      StepEvolves(s, op);
      SameRowsKeepForest(s, Next(s, op).store);
    }
  }

  lemma SameRowsKeepForest(s: Store, s': Store)
    requires Forest(s) && StoreEvolves(s, s') && SameRows(s, s')
    ensures Forest(s')
  {
    assert |s'.tasks| == |s'.tasks.Keys| == |s.tasks.Keys| == |s.tasks|;
    forall e | e in s'.edges ensures EdgeIsParent(s', e) {
      assert EdgeIsParent(s, e);
    }
    forall id | id in s'.tasks ensures ParentIsEdge(s', id) {
      assert ParentIsEdge(s, id);
    }
  }

  lemma {:induction false} RunIsForest(states: seq<Store>, ops: seq<Op>, i: nat)
    requires IsRun(states, ops) && i < |states|
    ensures Forest(states[i])
  {
    if i > 0 {
      RunIsForest(states, ops, i - 1);
      StepKeepsForest(states[i - 1], ops[i - 1]);
    }
  }

  lemma {:induction false} PathsDescend(s: Store, p: seq<TaskId>, a: TaskId, b: TaskId)
    requires Forest(s) && Connects(s.edges, p, a, b)
    ensures a in s.tasks && b in s.tasks
    ensures if a == b then (a, a) in s.edges else s.tasks[a].serial < s.tasks[b].serial
    decreases |p|
  {
    var m := p[|p| - 2];
    assert (m, p[|p| - 2 + 1]) in s.edges && EdgeIsParent(s, (m, b));
    if |p| > 2 {
      PathsDescend(s, p[..|p| - 1], a, m);
    }
  }

  /** The only cycles `create_task` can build are tasks that are their own parent. */
  lemma CyclesAreSelfParents(s: Store, x: TaskId)
    requires Forest(s)
    ensures Reaches(s.edges, x, x) <==> (x, x) in s.edges
  {
    if Reaches(s.edges, x, x) {
      var p :| Connects(s.edges, p, x, x);
      PathsDescend(s, p, x, x);
    }
    if (x, x) in s.edges {
      EdgeReaches(s.edges, x, x);
    }
  }

  // Provenance

  /** The recorded pruner is a REJECTED strict ancestor. */
  ghost predicate PrunedFromAbove(s: Store, id: TaskId)
    requires id in s.tasks
  {
    && s.tasks[id].prunedBy.Some?
    && var pruner := s.tasks[id].prunedBy.value;
       pruner != id && pruner in s.tasks && s.tasks[pruner].resolution == Rejected && Reaches(s.edges, pruner, id)
  }

  ghost predicate WellResolved(s: Store) {
    && (forall id :: id in s.tasks && s.tasks[id].lease.Some? ==> s.tasks[id].resolution == Active)
    && forall id :: id in s.tasks && s.tasks[id].resolution == CascadePruned ==> PrunedFromAbove(s, id)
  }

  lemma RejectKeepsPrunedFromAbove(s: Store, id: TaskId, reason: string, x: TaskId)
    requires WellResolved(s) && id in s.tasks && x in s.tasks
    requires Reject(s, id, reason).store.tasks[x].resolution == CascadePruned
    ensures PrunedFromAbove(Reject(s, id, reason).store, x)
  {
    var s' := Reject(s, id, reason).store;
    if s.tasks[x].resolution == CascadePruned {
      assert PrunedFromAbove(s, x) && s'.tasks[x].prunedBy == s.tasks[x].prunedBy;
    } else {
      assert x in Descendants(s.edges, id) && s'.tasks[x].prunedBy == Some(id);
    }
  }

  lemma RejectKeepsWellResolved(s: Store, id: TaskId, reason: string)
    requires WellResolved(s)
    ensures WellResolved(Reject(s, id, reason).store)
  {
    if id in s.tasks {
      var s' := Reject(s, id, reason).store;
      forall x | x in s'.tasks && s'.tasks[x].resolution == CascadePruned
        ensures PrunedFromAbove(s', x)
      {
        RejectKeepsPrunedFromAbove(s, id, reason, x);
      }
    }
  }

  /** Calls other than the two rejections change no resolution, and only a claim sets a lease. */
  ghost predicate Quiet(t: Task, t': Task) {
    && t'.resolution == t.resolution && t'.prunedBy == t.prunedBy
    && (t'.lease.Some? ==> t.lease.Some? || t.resolution == Active)
  }

  lemma StepIsQuiet(s: Store, op: Op)
    requires Enabled(s, op) && !op.RejectAndPrune? && !op.RejectApproval?
    ensures var s' := Next(s, op).store;
            && s.edges <= s'.edges
            && (forall id :: id in s.tasks ==> id in s'.tasks && Quiet(s.tasks[id], s'.tasks[id]))
            && forall id :: id in s'.tasks && id !in s.tasks ==> s'.tasks[id].resolution == Active
  {
    match op
    case CreateApproval(approvalId, id) =>
      if id in s.tasks {
        TransitionIsQuiet(s.(approvals := Next(s, op).store.approvals), id, s.tasks[id].state, PendingApproval);
      }
    case ApproveTask(id, decider) =>
      TransitionIsQuiet(Decide(s, id, Approved, decider), id, PendingApproval, Planning);
    case TransitionTaskState(id, from, to) =>
      TransitionIsQuiet(s, id, from, to);
    case _ =>
  }

  lemma TransitionIsQuiet(s: Store, id: TaskId, from: State, to: State)
    ensures var s' := Transition(s, id, from, to).store;
            && s'.edges == s.edges && s'.tasks.Keys == s.tasks.Keys
            && forall x :: x in s.tasks ==> Quiet(s.tasks[x], s'.tasks[x])
  {
  }

  lemma QuietKeepsWellResolved(s: Store, s': Store)
    requires WellResolved(s) && s.edges <= s'.edges
    requires forall id :: id in s.tasks ==> id in s'.tasks && Quiet(s.tasks[id], s'.tasks[id])
    requires forall id :: id in s'.tasks && id !in s.tasks ==> s'.tasks[id].resolution == Active
    ensures WellResolved(s')
  {
    forall id | id in s'.tasks && s'.tasks[id].resolution == CascadePruned ensures PrunedFromAbove(s', id) {
      assert PrunedFromAbove(s, id);
      ReachesMonotone(s.edges, s'.edges, s.tasks[id].prunedBy.value, id);
    }
  }

  lemma StepKeepsWellResolved(s: Store, op: Op)
    requires Enabled(s, op) && WellResolved(s)
    ensures WellResolved(Next(s, op).store)
  {
    match op
    case RejectAndPrune(id, reason) => RejectKeepsWellResolved(s, id, reason);
    case RejectApproval(id, decider, reason) =>
      QuietKeepsWellResolved(s, Decide(s, id, Declined, decider));
      RejectKeepsWellResolved(Decide(s, id, Declined, decider), id, reason);
    case _ =>
      StepIsQuiet(s, op);
      QuietKeepsWellResolved(s, Next(s, op).store);
  }

  /** A leased task is ACTIVE; a CASCADE_PRUNED task names a REJECTED strict ancestor as its pruner. */
  lemma {:induction false} RunIsWellResolved(states: seq<Store>, ops: seq<Op>, i: nat)
    requires IsRun(states, ops) && i < |states|
    ensures WellResolved(states[i])
  {
    if i > 0 {
      RunIsWellResolved(states, ops, i - 1);
      StepKeepsWellResolved(states[i - 1], ops[i - 1]);
    }
  }

  // The cascade

  /** Membership in the cascade is reachability by one or more edges. */
  lemma DescendantsAreReachable(edges: set<(TaskId, TaskId)>, id: TaskId, x: TaskId)
    ensures x in Descendants(edges, id) <==> Reaches(edges, id, x)
  {
    if Reaches(edges, id, x) {
      var b := ReachesLast(edges, id, x);
      assert (b, x) in edges && (b, x).1 == x;
    }
  }

  /**
   * `reject_and_prune` rejects the task, prunes exactly the ACTIVE tasks below it and drops their leases,
   * leaves every other row and every other lease as it was, and no ACTIVE task below the rejected one.
   */
  lemma ExactCascade(s: Store, id: TaskId, reason: string)
    requires id in s.tasks && (id, id) !in s.edges && Forest(s)
    ensures var s' := Reject(s, id, reason).store;
            && s'.tasks.Keys == s.tasks.Keys && s'.edges == s.edges
            && s'.tasks[id] == s.tasks[id].(resolution := Rejected, lease := None, prunedReason := Some(reason),
                                            revision := s.tasks[id].revision + 1)
            && s'.approvals == s.approvals && s'.deadLetters == s.deadLetters
            && (forall x :: x in s.tasks && Reaches(s.edges, id, x) && s.tasks[x].resolution == Active ==>
                  s'.tasks[x] == s.tasks[x].(resolution := CascadePruned, lease := None, prunedBy := Some(id),
                                             prunedReason := Some(reason), revision := s.tasks[x].revision + 1))
            && (forall x :: x in s.tasks && x != id && !(Reaches(s.edges, id, x) && s.tasks[x].resolution == Active) ==>
                  s'.tasks[x] == s.tasks[x])
            && (forall x :: x in s'.tasks && Reaches(s'.edges, id, x) ==> s'.tasks[x].resolution != Active)
            && (forall r :: r in s'.leases <==> r in s.leases && r.taskId != id && !Reaches(s.edges, id, r.taskId))
  {
    CyclesAreSelfParents(s, id);
    forall x ensures x in Descendants(s.edges, id) <==> Reaches(s.edges, id, x) {
      DescendantsAreReachable(s.edges, id, x);
    }
  }
}
