/** orchestrator/execution_loop.py and orchestrator/worker.py: who drives the repository. */
module Worker {
  import opened Graphs
  import opened QueueRepo
  import opened TaskSafety
  import opened TaskStore
  import opened Wrappers

  // Histories

  /** A stretch of a run: the states passed through under `ops`. */
  ghost predicate IsStretch(states: seq<Store>, ops: seq<Op>) {
    && |states| == |ops| + 1
    && forall i :: 0 <= i < |ops| ==> Enabled(states[i], ops[i]) && states[i + 1] == Next(states[i], ops[i]).store
  }

  /** Every call that completes a task comes after a claim of that task. */
  ghost predicate ClaimsFirst(ops: seq<Op>) {
    forall i :: 0 <= i < |ops| ==> CompletionOf(ops[i]) <= Claimed(ops[..i])
  }

  lemma ClaimsFirstIsEnough(states: seq<Store>, ops: seq<Op>)
    requires IsRun(states, ops) && ClaimsFirst(ops)
    ensures CompletesOnlyClaimed(states, ops)
  {
    forall i | 0 <= i < |ops| ensures CompletesOnly(states[i], states[i + 1], Claimed(ops[..i])) {
      forall id | id in states[i].tasks && id in states[i + 1].tasks && states[i].tasks[id].state != Completed
                  && states[i + 1].tasks[id].state == Completed
        ensures id in Claimed(ops[..i])
      {
        OnlyCompletionsComplete(states[i], ops[i], id);
      }
    }
  }

  lemma {:induction false} ClaimedConcat(a: seq<Op>, b: seq<Op>)
    ensures Claimed(a + b) == Claimed(a) + Claimed(b)
  {
    if b == [] {
      assert a + b == a;
    } else {
      ClaimedConcat(a, b[..|b| - 1]);
      assert (a + b)[..|a + b| - 1] == a + b[..|b| - 1];
    }
  }

  /** Runs compose: a stretch that starts where a run ends prolongs it, and claims still come first. */
  lemma RunsCompose(states: seq<Store>, ops: seq<Op>, later: seq<Store>, laterOps: seq<Op>)
    requires IsRun(states, ops) && IsStretch(later, laterOps) && later[0] == states[|ops|]
    ensures IsRun(states + later[1..], ops + laterOps)
    ensures ClaimsFirst(ops) && ClaimsFirst(laterOps) ==> ClaimsFirst(ops + laterOps)
  {
    var all, allOps := states + later[1..], ops + laterOps;
    forall i | 0 <= i < |allOps| ensures Enabled(all[i], allOps[i]) && all[i + 1] == Next(all[i], allOps[i]).store {
      StretchStep(states, ops, later, laterOps, i);
    }
    if ClaimsFirst(ops) && ClaimsFirst(laterOps) {
      ClaimsFirstCompose(ops, laterOps);
    }
  }

  lemma ClaimsFirstCompose(ops: seq<Op>, laterOps: seq<Op>)
    requires ClaimsFirst(ops) && ClaimsFirst(laterOps)
    ensures ClaimsFirst(ops + laterOps)
  {
    var allOps := ops + laterOps;
    forall i | 0 <= i < |allOps| ensures CompletionOf(allOps[i]) <= Claimed(allOps[..i]) {
      if i < |ops| {
        assert allOps[..i] == ops[..i];
      } else {
        assert allOps[..i] == ops + laterOps[..i - |ops|];
        ClaimedConcat(ops, laterOps[..i - |ops|]);
      }
    }
  }

  lemma StretchStep(states: seq<Store>, ops: seq<Op>, later: seq<Store>, laterOps: seq<Op>, i: nat)
    requires IsRun(states, ops) && IsStretch(later, laterOps) && later[0] == states[|ops|] && i < |ops| + |laterOps|
    ensures var all, allOps := states + later[1..], ops + laterOps;
            Enabled(all[i], allOps[i]) && all[i + 1] == Next(all[i], allOps[i]).store
  {
    var all := states + later[1..];
    if i < |ops| {
      assert all[i] == states[i] && all[i + 1] == states[i + 1];
    } else {
      var k := i - |ops|;
      assert all[i] == later[k] && all[i + 1] == later[k + 1];
    }
  }

  lemma StretchExtends(states: seq<Store>, ops: seq<Op>, op: Op, next: Store)
    requires IsStretch(states, ops) && Enabled(states[|ops|], op) && next == Next(states[|ops|], op).store
    ensures IsStretch(states + [next], ops + [op])
    ensures ClaimsFirst(ops) && CompletionOf(op) <= Claimed(ops) ==> ClaimsFirst(ops + [op])
    ensures Claimed(ops + [op]) == Claimed(ops) + ClaimOf(op)
  {
    var longer, more := states + [next], ops + [op];
    assert more[..|ops|] == ops;
    forall i | 0 <= i < |more| ensures Enabled(longer[i], more[i]) && longer[i + 1] == Next(longer[i], more[i]).store {
      if i < |ops| {
        assert longer[i] == states[i] && longer[i + 1] == states[i + 1] && more[i] == ops[i];
      }
    }
    if ClaimsFirst(ops) && CompletionOf(op) <= Claimed(ops) {
      forall i | 0 <= i < |more| ensures CompletionOf(more[i]) <= Claimed(more[..i]) {
        assert i < |ops| ==> more[..i] == ops[..i];
      }
    }
  }

  /** Ancestor safety for every history in which claims come first. */
  lemma ClaimedTasksHaveFinishedAncestors(states: seq<Store>, ops: seq<Op>, i: nat, id: TaskId, ancestor: TaskId)
    requires IsRun(states, ops) && ClaimsFirst(ops) && i < |states| && id in Claimed(ops[..i])
    ensures id in states[i].tasks
    ensures states[i].tasks[id].resolution == Active && Reaches(states[i].edges, ancestor, id)
      ==> ancestor in states[i].tasks && Finished(states[i].tasks[ancestor])
  {
    ClaimsFirstIsEnough(states, ops);
    AncestorSafety(states, ops, i, id, ancestor);
  }

  // Drivers

  datatype Action = DeadLettered | Reroll

  /** How the tool call of a task ends; `Responds(false)` is a result whose `ok` is False. */
  datatype ToolCall = Responds(ok: bool) | AdapterFails(constraint: string) | Crashes

  class ExecutionLoop {
    const repo: QueueRepository
    const maxRerolls: int

    constructor (repo: QueueRepository, maxRerolls: int)
      ensures this.repo == repo && this.maxRerolls == maxRerolls
    {
      this.repo, this.maxRerolls := repo, maxRerolls;
    }

    method HandleValidationFailure(id: TaskId, constraint: string) returns (r: Result<Action, Error>)
      modifies repo`tasks, repo`deadLetters
      ensures repo.Snapshot() == HandleFailure(old(repo.Snapshot()), id, constraint, maxRerolls).store
      ensures r.Err? <==> id !in old(repo.tasks)
      ensures r.Ok? ==> (r.value == DeadLettered <==> repo.tasks[id].rerollCount > maxRerolls)
    {
      var count := repo.AddNegativeConstraint(id, constraint);
      if count.Err? {
        return Err(count.error);
      }
      if count.value > maxRerolls {
        repo.DeadLetter(id, RerollLimitExhausted);
        return Ok(DeadLettered);
      }
      r := Ok(Reroll);
    }
  }

  datatype Report = Idle | Discarded(id: TaskId) | Worked(id: TaskId) | LeftOpen(id: TaskId)

  /** What one pass meets: the clock, a fresh lease id, the claimed payload, and the tool's answer. */
  datatype Pass = Pass(now: int, leaseId: string, payloadValid: bool, call: ToolCall)

  class DaemonWorker {
    const repo: QueueRepository
    const loop: ExecutionLoop
    const projectId: string
    const workerId: string
    const leaseSeconds: int

    constructor (repo: QueueRepository, maxRerolls: int, projectId: string, workerId: string, leaseSeconds: int)
      ensures this.repo == repo && loop.repo == repo
    {
      this.repo := repo;
      this.projectId, this.workerId, this.leaseSeconds := projectId, workerId, leaseSeconds;
      loop := new ExecutionLoop(repo, maxRerolls);
    }

    /** The repository calls of this pass so far, and the states in between. */
    ghost predicate Recorded(states: seq<Store>, ops: seq<Op>)
      reads repo
    {
      IsStretch(states, ops) && states[|ops|] == repo.Snapshot() && ClaimsFirst(ops)
    }

    /** The repository calls that follow the claim of a task. */
    ghost function CallsFor(pass: Pass, id: TaskId): seq<Op> {
      if !pass.payloadValid then [RecordDeadLetter(id, InvalidTaskPayload), CompleteTask(id)]
      else match pass.call
        case Responds(ok) => if ok then [CompleteTask(id)] else []
        case AdapterFails(constraint) => [TaskStore.HandleValidationFailure(id, constraint, loop.maxRerolls)]
        case Crashes => []
    }

    /** The report says whether the payload could be read, and whether the tool's answer was accepted. */
    predicate Reported(report: Report, pass: Pass) {
      && (report.Discarded? <==> !pass.payloadValid)
      && (report.Worked? <==> pass.payloadValid && pass.call == Responds(true))
      && (report.LeftOpen? <==> pass.payloadValid && pass.call != Responds(true))
    }

    /** The task just claimed is this worker's for the length of a lease. */
    predicate JustClaimed(t: Task, pass: Pass) {
      t.state == Planning && t.lease == Some(Lease(workerId, pass.now + leaseSeconds))
    }

    /**
     * The pass keeps the task leased when the tool did not accept it or crashed, until the lease runs out. A task it
     * completes, or sends round again, belongs to nobody.
     */
    predicate Leaves(t: Task, pass: Pass) {
      if pass.payloadValid && (pass.call == Responds(false) || pass.call == Crashes) then JustClaimed(t, pass)
      else t.lease == None
    }

    /** All repository calls of a pass. */
    ghost function CallsOf(pass: Pass, pick: Option<TaskId>): seq<Op> {
      var claim := TaskStore.ClaimReadyTask(projectId, workerId, pass.now + leaseSeconds, pass.leaseId, pick);
      [TaskStore.ReleaseExpiredLeases(pass.now), claim] + if pick.Some? then CallsFor(pass, pick.value) else []
    }

    /** Which calls a pass makes for the task it claimed. */
    lemma CallsForExactly(pass: Pass, id: TaskId)
      ensures var ops := CallsFor(pass, id);
              && (CompleteTask(id) in ops <==> !pass.payloadValid || pass.call == Responds(true))
              && (RecordDeadLetter(id, InvalidTaskPayload) in ops <==> !pass.payloadValid)
              && (forall constraint, limit ::
                    TaskStore.HandleValidationFailure(id, constraint, limit) in ops <==>
                      pass.payloadValid && pass.call == AdapterFails(constraint) && limit == loop.maxRerolls)
              && (forall op :: op in ops ==> op.CompleteTask? || op.RecordDeadLetter? || op.HandleValidationFailure?)
              && |ops| <= 2
    {
    }

    /** `run_once`, together with the repository calls it made. */
    method RunOnce(pass: Pass) returns (report: Report, ghost states: seq<Store>, ghost ops: seq<Op>)
      requires loop.repo == repo
      modifies repo
      ensures Recorded(states, ops) && states[0] == old(repo.Snapshot())
      ensures report == Idle <==> forall id :: !Ready(Release(old(repo.Snapshot()), pass.now), projectId, id)
      ensures report != Idle ==> report.id in Claimed(ops) && report.id in repo.tasks
                                 && (repo.tasks[report.id].state == Completed <==> !report.LeftOpen?)
      ensures ops == CallsOf(pass, if report == Idle then None else Some(report.id))
      ensures report != Idle ==> Reported(report, pass) && Leaves(repo.tasks[report.id], pass)
    {
      var pick;
      pick, states, ops := TakeTask(pass);
      if pick.None? {
        report := Idle;
      } else {
        report, states, ops := Execute(pass, pick.value, states, ops);
      }
    }

    method TakeTask(pass: Pass) returns (pick: Option<TaskId>, ghost states: seq<Store>, ghost ops: seq<Op>)
      modifies repo
      ensures Recorded(states, ops) && states[0] == old(repo.Snapshot())
      ensures LegalPick(Release(old(repo.Snapshot()), pass.now), projectId, pick)
      ensures pick.None? ==> ops == CallsOf(pass, None)
      ensures pick.Some? ==> ops + CallsFor(pass, pick.value) == CallsOf(pass, pick)
      ensures pick.Some? ==>
          pick.value in Claimed(ops) && pick.value in repo.tasks && JustClaimed(repo.tasks[pick.value], pass)
    {
      ghost var release := TaskStore.ReleaseExpiredLeases(pass.now);
      states, ops := [repo.Snapshot()], [];
      var _ := repo.ReleaseExpiredLeases(pass.now);
      StretchExtends(states, ops, release, repo.Snapshot());
      states, ops := states + [repo.Snapshot()], ops + [release];

      var expiresAt := pass.now + leaseSeconds;
      pick := repo.ClaimReadyTask(projectId, workerId, expiresAt, pass.leaseId);
      ghost var claim := TaskStore.ClaimReadyTask(projectId, workerId, expiresAt, pass.leaseId, pick);
      StretchExtends(states, ops, claim, repo.Snapshot());
      states, ops := states + [repo.Snapshot()], ops + [claim];
    }

    method Execute(pass: Pass, id: TaskId, ghost states0: seq<Store>, ghost ops0: seq<Op>)
      returns (report: Report, ghost states: seq<Store>, ghost ops: seq<Op>)
      requires loop.repo == repo && Recorded(states0, ops0)
      requires id in Claimed(ops0) && id in repo.tasks && JustClaimed(repo.tasks[id], pass)
      modifies repo
      ensures Recorded(states, ops) && states[0] == states0[0]
      ensures report != Idle && report.id == id && id in Claimed(ops) && id in repo.tasks
      ensures repo.tasks[id].state == Completed <==> !report.LeftOpen?
      ensures ops == ops0 + CallsFor(pass, id)
      ensures Reported(report, pass) && Leaves(repo.tasks[id], pass)
    {
      states, ops := states0, ops0;
      if !pass.payloadValid {
        states, ops := Discard(id, states, ops);
        return Discarded(id), states, ops;
      }
      match pass.call {
        case Responds(true) =>
          states, ops := Finish(id, states, ops);
          report := Worked(id);
        case AdapterFails(constraint) =>
          states, ops := SendRound(id, constraint, states, ops);
          report := LeftOpen(id);
        case _ =>
          // a result that is not ok, or an exception that leaves run_once: the task stays leased
          report := LeftOpen(id);
      }
    }

    /** A task on which an adapter fails goes round again, and is past the limit of rerolls dead-lettered. */
    method SendRound(id: TaskId, constraint: string, ghost states0: seq<Store>, ghost ops0: seq<Op>)
      returns (ghost states: seq<Store>, ghost ops: seq<Op>)
      requires loop.repo == repo && Recorded(states0, ops0)
      requires id in Claimed(ops0) && id in repo.tasks && repo.tasks[id].state == Planning
      modifies repo
      ensures Recorded(states, ops) && states[0] == states0[0]
      ensures ops == ops0 + [TaskStore.HandleValidationFailure(id, constraint, loop.maxRerolls)]
      ensures id in Claimed(ops) && id in repo.tasks && repo.tasks[id].state == Planning
      ensures repo.tasks[id].lease == None
    {
      var _ := loop.HandleValidationFailure(id, constraint);
      ghost var op := TaskStore.HandleValidationFailure(id, constraint, loop.maxRerolls);
      StretchExtends(states0, ops0, op, repo.Snapshot());
      states, ops := states0 + [repo.Snapshot()], ops0 + [op];
    }

    /** A task whose payload cannot be read is dead-lettered and completed. */
    method Discard(id: TaskId, ghost states0: seq<Store>, ghost ops0: seq<Op>)
      returns (ghost states: seq<Store>, ghost ops: seq<Op>)
      requires Recorded(states0, ops0)
      requires id in Claimed(ops0) && id in repo.tasks && repo.tasks[id].state == Planning
      modifies repo
      ensures Recorded(states, ops) && states[0] == states0[0]
      ensures ops == ops0 + [RecordDeadLetter(id, InvalidTaskPayload), CompleteTask(id)]
      ensures id in Claimed(ops) && id in repo.tasks && repo.tasks[id].state == Completed
      ensures repo.tasks[id].lease == None
    {
      ghost var letter := RecordDeadLetter(id, InvalidTaskPayload);
      repo.DeadLetter(id, InvalidTaskPayload);
      StretchExtends(states0, ops0, letter, repo.Snapshot());
      states, ops := Finish(id, states0 + [repo.Snapshot()], ops0 + [letter]);
      assert ops == ops0 + [letter, CompleteTask(id)];
    }

    /** The `complete_task` at the end of a pass; it cannot fail on the task just claimed. */
    method Finish(id: TaskId, ghost states0: seq<Store>, ghost ops0: seq<Op>)
      returns (ghost states: seq<Store>, ghost ops: seq<Op>)
      requires Recorded(states0, ops0)
      requires id in Claimed(ops0) && id in repo.tasks && repo.tasks[id].state == Planning
      modifies repo
      ensures Recorded(states, ops) && states[0] == states0[0] && ops == ops0 + [CompleteTask(id)]
      ensures id in Claimed(ops) && id in repo.tasks && repo.tasks[id].state == Completed
      ensures repo.tasks[id].lease == None
    {
      var e := repo.CompleteTask(id);
      assert e == None;
      StretchExtends(states0, ops0, CompleteTask(id), repo.Snapshot());
      states, ops := states0 + [repo.Snapshot()], ops0 + [CompleteTask(id)];
    }

    /** `run_forever`, stopped after the given passes, on a repository with a history. */
    method RunForever(passes: seq<Pass>, ghost states0: seq<Store>, ghost ops0: seq<Op>)
      returns (ghost states: seq<Store>, ghost ops: seq<Op>, ghost picks: seq<Option<TaskId>>)
      requires loop.repo == repo
      requires IsRun(states0, ops0) && states0[|ops0|] == repo.Snapshot() && ClaimsFirst(ops0)
      modifies repo
      ensures IsRun(states, ops) && states[|ops|] == repo.Snapshot() && ClaimsFirst(ops)
      ensures |picks| == |passes| && ops == ops0 + AllCalls(passes, picks)
    {
      states, ops, picks := states0, ops0, [];
      assert ops == ops0 + AllCalls([], []);
      for k := 0 to |passes|
        invariant IsRun(states, ops) && states[|ops|] == repo.Snapshot() && ClaimsFirst(ops)
        invariant |picks| == k && ops == ops0 + AllCalls(passes[..k], picks)
      {
        ghost var pick;
        states, ops, pick := NextPass(passes[k], states, ops);
        picks := picks + [pick];
        OneMorePass(passes, picks, ops0, k);
      }
      assert passes[..|passes|] == passes;
    }

    /** One pass, and the history prolonged by its calls. */
    method NextPass(pass: Pass, ghost states0: seq<Store>, ghost ops0: seq<Op>)
      returns (ghost states: seq<Store>, ghost ops: seq<Op>, ghost pick: Option<TaskId>)
      requires loop.repo == repo
      requires IsRun(states0, ops0) && states0[|ops0|] == repo.Snapshot() && ClaimsFirst(ops0)
      modifies repo
      ensures IsRun(states, ops) && states[|ops|] == repo.Snapshot() && ClaimsFirst(ops)
      ensures ops == ops0 + CallsOf(pass, pick)
    {
      var report, later, laterOps := RunOnce(pass);
      RunsCompose(states0, ops0, later, laterOps);
      states, ops := states0 + later[1..], ops0 + laterOps;
      pick := if report == Idle then None else Some(report.id);
    }

    /** The calls of the passes, one after the other. */
    ghost function AllCalls(passes: seq<Pass>, picks: seq<Option<TaskId>>): seq<Op>
      requires |picks| == |passes|
    {
      if passes == [] then []
      else AllCalls(passes[..|passes| - 1], picks[..|passes| - 1]) + CallsOf(passes[|passes| - 1], picks[|passes| - 1])
    }

    lemma OneMorePass(passes: seq<Pass>, picks: seq<Option<TaskId>>, ops0: seq<Op>, k: nat)
      requires k < |passes| && |picks| == k + 1
      ensures ops0 + AllCalls(passes[..k + 1], picks)
           == ops0 + AllCalls(passes[..k], picks[..k]) + CallsOf(passes[k], picks[k])
    {
      assert passes[..k + 1][..k] == passes[..k];
    }
  }
}
