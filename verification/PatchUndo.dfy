/** When restoring an apply run brings back the files from before it, and when it does not. */
module PatchUndo {
  import opened PatchFiles
  import opened PatchService
  import opened Wrappers

  /** Restoring rows that describe `before` brings it back exactly when nothing but their targets has changed. */
  lemma UndoneExactly(before: Files, after: Files, rows: seq<FileSnapshot>, backups: Backups, repo: Location)
    requires forall s :: s in rows ==> Describes(s, before, backups, repo)
    ensures RestoreRows(after, rows, backups, repo).files == before <==> SameOutside(before, after, RowTargets(rows))
  {
    RestorePutsBack(after, rows, backups, repo, before);
    PutBackUndoesExactly(before, after, RowTargets(rows));
  }

  /** The write leaves the file as it is. */
  predicate Idle(files: Files, p: Location, write: Write) {
    if write.Put? then p in files && files[p] == write.content else p !in files
  }

  /** What the declared tests write outside the targets was there before. */
  ghost predicate TidyTests(before: Files, testWrites: map<Location, Write>, targets: set<Location>) {
    forall p :: p in testWrites && p !in targets ==> Idle(before, p, testWrites[p])
  }

  predicate TestsRan(status: ApplyStatus) {
    status.AppliedTestsPassed? || status.AppliedTestsFailed? || status.TestsBlocked?
  }

  /** A run is confined to its targets exactly when no tests ran or the tests were tidy. */
  lemma ConfinedExactly(before: Files, status: ApplyStatus, world: Outside, targets: set<Location>)
    ensures SameOutside(before, Effect(before, status, world, targets), targets)
       <==> (TestsRan(status) ==> TidyTests(before, world.testWrites, targets))
  {
    var applied, after := Written(before, world.writes, targets), Effect(before, status, world, targets);
    WrittenSameOutside(before, world.writes, targets);
    if TestsRan(status) {
      forall p | p !in targets
        ensures (p in applied <==> p in before) && (p in before ==> applied[p] == before[p])
        ensures p in world.testWrites ==>
                  (((p in before <==> p in after) && (p in before ==> after[p] == before[p]))
                   <==> Idle(before, p, world.testWrites[p]))
        ensures p !in world.testWrites ==> (p in after <==> p in before) && (p in before ==> after[p] == before[p])
      {
      }
    }
  }

  /**
   * A call of `apply_approved_patch` that took effect, and then one of `restore_apply_run`: the restore succeeds,
   * and the files are those from before exactly when no tests ran or what they wrote outside the files that the
   * approved diff affects was there before.
   */
  method ApplyThenRestore(service: PatchApplyService, patchId: string, approvalId: string, repo: Location,
                          world: Outside)
    returns (r: ApplyResult, status: RollbackStatus, ghost targets: set<Location>)
    requires service.Valid()
    modifies service`files, service`runs, service`backups, service`snapshots, service`nextId, service`ledger
    ensures service.Valid()
    ensures targets == GateTargets(repo, old(service.Admit(patchId, approvalId, repo)))
    ensures Reports(r, CallAnswer(old(service.Admit(patchId, approvalId, repo)), world))
    ensures r.runId.Some? <==> old(service.Admit(patchId, approvalId, repo)).Open? && world.check == Zero
    ensures CameBack(r, status, old(service.files), service.files, world, targets)
  {
    r, targets := service.ApplyApprovedPatch(patchId, approvalId, repo, world);
    status := ApplyRunNotFound;
    if TookEffect(r) {
      ghost var after, effected := service.files, service.ledger.effected;
      ghost var e := effected[|effected| - 1];
      ghost var rows;
      status, rows := service.RestoreApplyRun(r.runId.value);
      UndoneWhenTidy(effected, e, r.runId.value, r.status, world, targets, after, Restored(service.files, status));
    }
  }

  ghost predicate CameBack(r: ApplyResult, status: RollbackStatus, before: Files, after: Files, world: Outside,
                           targets: set<Location>) {
    if TookEffect(r)
    then && status == RolledBack
         && (after == before <==> (TestsRan(r.status) ==> TidyTests(before, world.testWrites, targets)))
    else after == before
  }

  lemma UndoneWhenTidy(effected: seq<Entry>, e: Entry, runId: nat, status: ApplyStatus, world: Outside,
                       targets: set<Location>, after: Files, outcome: Restored)
    requires e in effected && e.runId == runId && RowTargets(e.run.rows) == targets
    requires after == Effect(e.run.before, status, world, targets)
    requires UndoneIfEffected(effected, runId, after, outcome)
    ensures outcome.status == RolledBack
    ensures outcome.files == e.run.before <==> (TestsRan(status) ==> TidyTests(e.run.before, world.testWrites, targets))
  {
    PutBackUndoesExactly(e.run.before, after, targets);
    ConfinedExactly(e.run.before, status, world, targets);
  }

  /** A patch of one new file whose tests write another new file: after the restore that one is still there. */
  lemma UntidyTestsSurviveRollback(repo: Location, target: Location, stray: Location, made: Bytes, written: Bytes)
    requires Under(repo, target) && target != stray
    ensures var rows := [FileSnapshot(0, 0, target, None, None, true)];
            var tests := map[stray := Put(written)];
            var world := Outside(Zero, None, Zero, map[target := Put(made)], AllPassed, tests, false);
            var after := Effect(map[], AppliedTestsPassed, world, {target});
            && (forall s :: s in rows ==> Describes(s, map[], map[], repo)) && RowTargets(rows) == {target}
            && RestoreRows(after, rows, map[], repo) == Restored(map[stray := written], RolledBack)
  {
    var rows := [FileSnapshot(0, 0, target, None, None, true)];
    var tests := map[stray := Put(written)];
    var world := Outside(Zero, None, Zero, map[target := Put(made)], AllPassed, tests, false);
    var applied, after := Written(map[], world.writes, {target}), Effect(map[], AppliedTestsPassed, world, {target});
    assert applied == map[target := made];
    assert after == map[target := made, stray := written];
    assert RowTargets(rows) == {target};
    RestorePutsBack(after, rows, map[], repo, map[]);
    assert PutBack(after, map[], {target}) == map[stray := written];
  }
}
