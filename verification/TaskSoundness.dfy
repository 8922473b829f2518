/**
 * Exactly when ancestor safety survives: as long as no finished task has an unfinished parent. From any other
 * state of a run, creating one task and claiming it already breaks it.
 */
module TaskSoundness {
  import opened Graphs
  import opened TaskInvariants
  import opened TaskSafety
  import opened TaskStore
  import opened Wrappers

  /** A new task is created, and then a task is claimed. */
  ghost predicate CreateThenClaim(s: Store, create: Op, claim: Op) {
    create.CreateTask? && claim.ClaimReadyTask? && Enabled(Next(s, create).store, claim)
  }

  ghost function AfterBoth(s: Store, create: Op, claim: Op): Store
    requires CreateThenClaim(s, create, claim)
  {
    Next(Next(s, create).store, claim).store
  }

  /** However a task is created and one is claimed next, safety holds afterwards. */
  ghost predicate StaysSafe(s: Store, claimed: set<TaskId>) {
    forall create, claim :: CreateThenClaim(s, create, claim) ==>
      Safe(AfterBoth(s, create, claim), claimed + ClaimOf(claim))
  }

  lemma CreateKeepsSound(s: Store, create: Op)
    requires Forest(s) && Sound(s) && create.CreateTask?
    ensures Sound(Next(s, create).store)
  {
    var s' := Next(s, create).store;
    StepEvolves(s, create);
    NewRowsAreFresh(s, create);
    forall id | id in s'.tasks && Finished(s'.tasks[id]) ensures ParentsFinished(s', id) {
      assert id in s.tasks && s'.tasks[id] == s.tasks[id];
      assert ParentsFinished(s, id);
    }
  }

  lemma ClaimKeepsSound(s: Store, claim: Op)
    requires Sound(s) && claim.ClaimReadyTask? && Enabled(s, claim)
    ensures Sound(Next(s, claim).store)
  {
    var s' := Next(s, claim).store;
    forall id | id in s'.tasks && Finished(s'.tasks[id]) ensures ParentsFinished(s', id) {
      assert ParentsFinished(s, id);
    }
  }

  lemma SoundStaysSafe(s: Store, claimed: set<TaskId>)
    requires Forest(s) && Guarded(s, claimed) && Sound(s)
    ensures StaysSafe(s, claimed)
  {
    forall create, claim | CreateThenClaim(s, create, claim)
      ensures Safe(AfterBoth(s, create, claim), claimed + ClaimOf(claim))
    {
      var s' := Next(s, create).store;
      CreateKeepsSound(s, create);
      StepKeepsForest(s, create);
      StepKeepsGuarded(s, create, claimed);
      assert claimed + ClaimOf(create) == claimed;
      ClaimKeepsSound(s', claim);
      StepKeepsGuarded(s', claim, claimed);
      SoundIsSafe(AfterBoth(s, create, claim), claimed + ClaimOf(claim));
    }
  }

  /** A text longer than all of them. */
  lemma {:induction false} FreshText(used: set<string>) returns (x: string)
    ensures forall y :: y in used ==> |y| < |x|
    decreases |used|
  {
    if used == {} {
      x := "";
    } else {
      var y :| y in used;
      var longer := FreshText(used - {y});
      x := longer + y + ['x'];
    }
  }

  function ProjectsOf(s: Store): set<string> {
    set id | id in s.tasks :: s.tasks[id].projectId
  }

  /** In a project without tasks, a new child of a finished task is the one task that is ready. */
  lemma ChildIsClaimed(s: Store, parent: TaskId, child: TaskId, project: string)
    requires Forest(s) && parent in s.tasks && Finished(s.tasks[parent])
    requires child !in s.tasks && project !in ProjectsOf(s)
    ensures var s' := Create(s, child, project, Some(parent), 0).store;
            && s'.edges == s.edges + {(parent, child)} && LegalPick(s', project, Some(child))
            && (forall id :: id in s.tasks ==> id in s'.tasks && s'.tasks[id] == s.tasks[id])
            && s'.tasks[child].resolution == Active
  {
    var s' := Create(s, child, project, Some(parent), 0).store;
    forall e | e in s.edges ensures e.1 in s.tasks {
      assert EdgeIsParent(s, e);
    }
    forall id | id in s.tasks ensures s.tasks[id].projectId != project {
      assert s.tasks[id].projectId in ProjectsOf(s);
    }
  }

  lemma UnsoundIsNotSafeForLong(s: Store, claimed: set<TaskId>)
    requires Forest(s) && !Sound(s)
    ensures !StaysSafe(s, claimed)
  {
    var parent :| parent in s.tasks && Finished(s.tasks[parent]) && !ParentsFinished(s, parent);
    var e :| e in s.edges && e.1 == parent && !(e.0 in s.tasks && Finished(s.tasks[e.0]));
    assert EdgeIsParent(s, e);
    var child := FreshText(s.tasks.Keys);
    var project := FreshText(ProjectsOf(s));
    ChildIsClaimed(s, parent, child, project);
    var create := CreateTask(child, project, Some(parent), 0);
    var claim := ClaimReadyTask(project, "w", 0, "lease", Some(child));
    assert CreateThenClaim(s, create, claim);
    var end := AfterBoth(s, create, claim);
    assert Reaches(end.edges, e.0, child) by {
      EdgeReaches(end.edges, e.0, parent);
      ReachesAppend(end.edges, e.0, parent, child);
    }
    assert child in claimed + ClaimOf(claim) && end.tasks[child].resolution == Active;
    assert end.tasks[e.0] == s.tasks[e.0];
    assert !Safe(end, claimed + ClaimOf(claim));
  }

  /**
   * At the end of any run: no finished task has an unfinished parent if and only if every way of creating a
   * task and claiming one leaves each claimed ACTIVE task with finished ancestors.
   */
  lemma SafetyExactly(states: seq<Store>, ops: seq<Op>)
    requires IsRun(states, ops)
    ensures Sound(states[|ops|]) <==> StaysSafe(states[|ops|], Claimed(ops))
  {
    RunIsForest(states, ops, |ops|);
    RunIsGuarded(states, ops, |ops|);
    assert ops[..|ops|] == ops;
    if Sound(states[|ops|]) {
      SoundStaysSafe(states[|ops|], Claimed(ops));
    } else {
      UnsoundIsNotSafeForLong(states[|ops|], Claimed(ops));
    }
  }

  lemma ClaimIsOfNoSelfParent(s: Store, op: Op, id: TaskId)
    requires Enabled(s, op) && Forest(s) && (id, id) in s.edges
    ensures id !in ClaimOf(op)
  {
    assert EdgeIsParent(s, (id, id));
  }

  /** A task that is its own parent is never claimed. */
  lemma {:induction false} SelfParentsAreNeverClaimed(states: seq<Store>, ops: seq<Op>, i: nat, id: TaskId)
    requires IsRun(states, ops) && i < |states| && (id, id) in states[i].edges
    ensures id !in Claimed(ops[..i])
  {
    if i > 0 {
      var s, op := states[i - 1], ops[i - 1];
      NewRowsAreFresh(s, op);
      RunIsGuarded(states, ops, i - 1);
      RunIsForest(states, ops, i - 1);
      ClaimedStep(ops, i);
      if (id, id) in s.edges {
        SelfParentsAreNeverClaimed(states, ops, i - 1, id);
        ClaimIsOfNoSelfParent(s, op, id);
      }
    }
  }

  // The call at fault

  /** The call is going to complete the task. */
  predicate Completes(s: Store, op: Op, id: TaskId) {
    && id in s.tasks && s.tasks[id].state != Completed
    && match op
       case CompleteTask(x) => x == id
       case TransitionTaskState(x, from, to) => x == id && to == Completed && s.tasks[id].state == from
       case _ => false
  }

  /** The check that `complete_task` does not make: all parents, other than the task itself, are finished. */
  ghost predicate CompletionGuarded(s: Store, op: Op) {
    forall id, e :: Completes(s, op, id) && s.tasks[id].resolution == Active && e in s.edges && e.1 == id && e.0 != id
      ==> e.0 in s.tasks && Finished(s.tasks[e.0])
  }

  lemma RejectKeepsSound(s: Store, id: TaskId, reason: string)
    requires Forest(s) && Sound(s)
    ensures Sound(Reject(s, id, reason).store)
  {
    if id in s.tasks {
      var s' := Reject(s, id, reason).store;
      forall t, e | t in s'.tasks && Finished(s'.tasks[t]) && e in s'.edges && e.1 == t
        ensures e.0 in s'.tasks && Finished(s'.tasks[e.0])
      {
        assert t !in Descendants(s.edges, id) && ParentsFinished(s, t);
        if e.0 == id {
          EdgeReaches(s.edges, id, t);
        } else if Reaches(s.edges, id, e.0) {
          ReachesAppend(s.edges, id, e.0, t);
        }
        DescendantsAreReachable(s.edges, id, t);
        DescendantsAreReachable(s.edges, id, e.0);
      }
    }
  }

  /** A call that neither creates, rejects nor completes. */
  lemma QuietKeepsSound(s: Store, op: Op)
    requires Enabled(s, op) && Sound(s) && CompletionOf(op) == {}
    requires !op.CreateTask? && !op.RejectAndPrune? && !op.RejectApproval?
    ensures Sound(Next(s, op).store)
  {
    var s' := Next(s, op).store;
    StepEvolves(s, op);
    StepIsQuiet(s, op);
    forall id | id in s'.tasks ensures Finished(s'.tasks[id]) <==> Finished(s.tasks[id]) {
      if Finished(s'.tasks[id]) && !Finished(s.tasks[id]) {
        OnlyCompletionsComplete(s, op, id);
      }
    }
    forall id | id in s'.tasks && Finished(s'.tasks[id]) ensures ParentsFinished(s', id) {
      assert ParentsFinished(s, id);
    }
  }

  /** What any completing call comes to. */
  ghost predicate Completion(s: Store, s': Store, id: TaskId) {
    && id in s.tasks && s.tasks[id].state != Completed
    && s'.edges == s.edges && s'.tasks.Keys == s.tasks.Keys
    && s'.tasks[id].state == Completed && s'.tasks[id].resolution == s.tasks[id].resolution
    && forall x :: x in s.tasks && x != id ==> s'.tasks[x] == s.tasks[x]
  }

  lemma CompletionIsSoundExactly(s: Store, s': Store, id: TaskId)
    requires Sound(s) && Completion(s, s', id)
    ensures Sound(s') <==>
              (s.tasks[id].resolution == Active ==>
                 forall e :: e in s.edges && e.1 == id && e.0 != id ==> e.0 in s.tasks && Finished(s.tasks[e.0]))
  {
    if Sound(s') && s.tasks[id].resolution == Active {
      assert ParentsFinished(s', id);
    }
    forall x | x in s.tasks && x != id && Finished(s'.tasks[x]) ensures ParentsFinished(s', x) {
      assert ParentsFinished(s, x);
    }
  }

  /** One call: soundness survives exactly if a task that is completed has finished parents. */
  lemma StepIsSoundExactly(s: Store, op: Op)
    requires Enabled(s, op) && Forest(s) && Sound(s)
    ensures Sound(Next(s, op).store) <==> CompletionGuarded(s, op)
  {
    match op
    case CreateTask(_, _, _, _) => CreateKeepsSound(s, op);
    case RejectAndPrune(id, reason) => RejectKeepsSound(s, id, reason);
    case RejectApproval(id, decider, reason) => RejectOnDecidedKeepsSound(s, id, decider, reason);
    case CompleteTask(id) =>
      if Completes(s, op, id) {
        CompletionIsSoundExactly(s, Next(s, op).store, id);
      }
    case TransitionTaskState(id, from, to) =>
      if Completes(s, op, id) {
        CompletionIsSoundExactly(s, Next(s, op).store, id);
      } else if to == Completed {
        assert Next(s, op).store == s;
      } else {
        QuietKeepsSound(s, op);
      }
    case _ => QuietKeepsSound(s, op);
  }

  lemma RejectOnDecidedKeepsSound(s: Store, id: TaskId, decider: string, reason: string)
    requires Forest(s) && Sound(s)
    ensures Sound(Reject(Decide(s, id, Declined, decider), id, reason).store)
  {
    var decided := Decide(s, id, Declined, decider);
    assert Sound(decided) by {
      forall x | x in decided.tasks && Finished(decided.tasks[x]) ensures ParentsFinished(decided, x) {
        assert ParentsFinished(s, x);
      }
    }
    assert Forest(decided) by {
      forall e | e in decided.edges ensures EdgeIsParent(decided, e) { assert EdgeIsParent(s, e); }
      forall x | x in decided.tasks ensures ParentIsEdge(decided, x) { assert ParentIsEdge(s, x); }
    }
    RejectKeepsSound(decided, id, reason);
  }

  /**
   * Over any run: no finished task ever has an unfinished parent if and only if every call that completes an
   * ACTIVE task finds its parents, other than the task itself, finished.
   */
  lemma {:induction false} SoundRunsExactly(states: seq<Store>, ops: seq<Op>, n: nat)
    requires IsRun(states, ops) && n <= |ops|
    ensures (forall i :: 0 <= i <= n ==> Sound(states[i]))
       <==> forall i :: 0 <= i < n ==> CompletionGuarded(states[i], ops[i])
  {
    if n > 0 {
      SoundRunsExactly(states, ops, n - 1);
      if Sound(states[n - 1]) {
        NextIsSoundExactly(states, ops, n);
      }
    }
  }

  lemma NextIsSoundExactly(states: seq<Store>, ops: seq<Op>, n: nat)
    requires IsRun(states, ops) && 0 < n <= |ops| && Sound(states[n - 1])
    ensures Sound(states[n]) <==> CompletionGuarded(states[n - 1], ops[n - 1])
  {
    RunIsForest(states, ops, n - 1);
    StepIsSoundExactly(states[n - 1], ops[n - 1]);
    assert states[n - 1 + 1] == Next(states[n - 1], ops[n - 1]).store;
  }
}
