/** orchestrator/patching/apply.py, snapshots.py, rollback.py and admin_service.py over one file map. */
module PatchService {
  import opened Graphs
  import opened PatchFiles
  import opened Wrappers

  datatype ApplyStatus =
    // nothing was started
    | PolicyBlock | Warn | PatchNotFound | ApprovalNotFound | ApprovalPatchMismatch | PendingApproval
    | ApprovalHashMismatch | PatchFileMissing | PatchHashMismatch | AffectedPathMismatch | ApplyCheckFailed
    // a run was started
    | Snapshotting | Snapshotted | SnapshotFailed
    | ApplyFailedRolledBack | ApplyFailedRollbackFailed
    | AppliedPatch | AppliedTestsPassed | AppliedTestsFailed | TestsBlocked
    | RunRolledBack

  datatype Diff = Diff(binary: bool, affected: seq<RelPath>)

  datatype Artifact = Artifact(diffSha: Digest, patchPath: Location, affectedPaths: seq<RelPath>)

  datatype ApprovalRecord = ApprovalRecord(patchId: string, approved: bool, approvedDiffSha: Digest,
      declaresTests: bool)

  datatype ApplyRun = ApplyRun(patchId: string, targetRepo: Location, status: ApplyStatus, rollbackAvailable: bool)

  datatype Exit = Zero | NonZero | TimedOut

  datatype Tests = AllPassed | SomeFailed | Refused

  /** How the outside world behaves during one call of `apply_approved_patch`. */
  datatype Outside = Outside(
    check: Exit,                         // git apply --check
    snapshotFault: Option<nat>,          // copying this target raises
    apply: Exit,                         // git apply
    writes: map<Location, Write>,        // what it wrote, even when it failed
    tests: Tests,
    testWrites: map<Location, Write>,
    memoryRaises: bool)                  // the memory commit after a successful apply

  /** `Raised` is an exception that leaves the call; the run, if any, keeps the status it then has. */
  datatype ApplyResult =
    | Returned(status: ApplyStatus, runId: Option<nat>)
    | Raised(status: ApplyStatus, runId: Option<nat>)

  datatype Gate = Closed(status: ApplyStatus) | Open(bytes: Bytes, affected: seq<RelPath>, declaresTests: bool)

  datatype VerifyStatus = RollbackVerified | RunUnknown | SnapshotsNotFound | SnapshotUnusable

  /** A run that has changed the files and can be undone. */
  datatype Entry = Entry(runId: nat, run: Applied)

  /**
   * Every run that has changed the files, oldest first; those of them whose changes are in place one upon the
   * other; and the files before the first of these.
   */
  datatype Ledger = Ledger(effected: seq<Entry>, history: seq<Entry>, base: Files)

  function RunsOf(history: seq<Entry>): seq<Applied> {
    seq(|history|, i requires 0 <= i < |history| => history[i].run)
  }

  /** The history leads from the base to the files, by runs that changed nothing but their targets. */
  ghost predicate Balanced(ledger: Ledger, files: Files) {
    && (forall e :: e in ledger.history ==> e in ledger.effected && Confined(e.run))
    && Stacked(RunsOf(ledger.history), ledger.base)
    && files == Top(RunsOf(ledger.history), ledger.base)
  }

  /** One more run was recorded, and stands on top of the history if it changed no more than its targets. */
  ghost predicate Pushed(was: Ledger, now: Ledger, runId: nat, before: Files, after: Files, targets: set<Location>) {
    var n := |was.effected|;
    && |now.effected| == n + 1 && now.effected[..n] == was.effected
    && now.effected[n].runId == runId && now.effected[n].run.before == before
    && RowTargets(now.effected[n].run.rows) == targets
    && if SameOutside(before, after, targets)
       then now.history == was.history + [now.effected[n]] && now.base == was.base
       else now.history == [] && now.base == after
  }

  predicate IsApplied(status: ApplyStatus) {
    status.AppliedPatch? || status.AppliedTestsPassed? || status.AppliedTestsFailed? || status.TestsBlocked?
  }

  function AppliedStatus(declaresTests: bool, tests: Tests): ApplyStatus {
    if !declaresTests then AppliedPatch
    else match tests
      case AllPassed => AppliedTestsPassed
      case SomeFailed => AppliedTestsFailed
      case Refused => TestsBlocked
  }

  /** What the caller is told, or the status a run is left with when an exception leaves the call. */
  datatype Answer = Says(status: ApplyStatus) | Throws(status: ApplyStatus)

  function ExitAnswer(declaresTests: bool, world: Outside): Answer {
    match world.apply
    case NonZero => Says(ApplyFailedRolledBack)
    case TimedOut => Throws(Snapshotted)
    case Zero =>
      var status := AppliedStatus(declaresTests, world.tests);
      if world.memoryRaises && status != TestsBlocked then Throws(status) else Says(status)
  }

  function RunAnswer(affected: nat, declaresTests: bool, world: Outside): Answer {
    if world.snapshotFault.Some? && world.snapshotFault.value < affected then Says(SnapshotFailed)
    else ExitAnswer(declaresTests, world)
  }

  function CallAnswer(gate: Gate, world: Outside): Answer {
    match gate
    case Closed(status) => Says(status)
    case Open(_, affected, declaresTests) =>
      match world.check
      case TimedOut => Throws(ApplyCheckFailed)
      case NonZero => Says(ApplyCheckFailed)
      case Zero => RunAnswer(|affected|, declaresTests, world)
  }

  /** Where the files lie that the diff behind the gate affects. */
  function GateTargets(repo: Location, gate: Gate): set<Location> {
    if gate.Open? then TargetsOf(repo, gate.affected) else {}
  }

  predicate Reports(r: ApplyResult, answer: Answer) {
    r.Raised? == answer.Throws? && r.status == answer.status
  }

  /** The run got as far as its snapshots, and then as far as a successful `git apply`. */
  predicate GotSnapshots(gate: Gate, world: Outside) {
    gate.Open? && world.check == Zero && (world.snapshotFault.None? || world.snapshotFault.value >= |gate.affected|)
  }

  lemma AnswersExactly(r: ApplyResult, gate: Gate, world: Outside)
    requires Reports(r, CallAnswer(gate, world)) && (gate.Closed? ==> !IsApplied(gate.status))
    ensures gate.Closed? ==> r.Returned? && r.status == gate.status
    ensures gate.Open? && world.check != Zero ==>
              r.status == ApplyCheckFailed && (r.Raised? <==> world.check == TimedOut)
    ensures gate.Open? && world.check == Zero && !GotSnapshots(gate, world) ==>
              r.Returned? && r.status == SnapshotFailed
    ensures GotSnapshots(gate, world) && world.apply == NonZero ==> r.Returned? && r.status == ApplyFailedRolledBack
    ensures GotSnapshots(gate, world) && world.apply == TimedOut ==> r.Raised? && r.status == Snapshotted
    ensures GotSnapshots(gate, world) && world.apply == Zero ==>
              && (r.status == AppliedTestsPassed <==> gate.declaresTests && world.tests == AllPassed)
              && (r.status == AppliedTestsFailed <==> gate.declaresTests && world.tests == SomeFailed)
              && (r.status == TestsBlocked <==> gate.declaresTests && world.tests == Refused)
              && (r.status == AppliedPatch <==> !gate.declaresTests)
              && (r.Raised? <==> world.memoryRaises && !(gate.declaresTests && world.tests == Refused))
  {
  }

  predicate TookEffect(r: ApplyResult) {
    r.runId.Some? && (IsApplied(r.status) || r.status == Snapshotted)
  }

  /** What git apply and then the declared tests, if any ran, have left. */
  ghost function Effect(before: Files, status: ApplyStatus, world: Outside, targets: set<Location>): Files {
    var applied := Written(before, world.writes, targets);
    if status.AppliedPatch? || !IsApplied(status) then applied
    else Written(applied, world.testWrites, world.testWrites.Keys)
  }

  ghost function FilesAfter(files: Files, r: ApplyResult, world: Outside, targets: set<Location>): Files {
    if TookEffect(r) then Effect(files, r.status, world, targets) else files
  }

  /** The run is recorded exactly when it has taken effect. */
  ghost predicate Noted(r: ApplyResult, was: Ledger, now: Ledger, before: Files, after: Files,
                        targets: set<Location>) {
    if TookEffect(r) then Pushed(was, now, r.runId.value, before, after, targets) else now == was
  }

  /**
   * The rows after a call: a new one for the run, if one was started, with the status returned, and no other
   * change. A run whose `git apply` is cut off stays SNAPSHOTTED; all but a run without snapshots can be rolled back.
   */
  ghost predicate Booked(r: ApplyResult, patchId: string, repo: Location, was: map<nat, ApplyRun>,
                         now: map<nat, ApplyRun>) {
    if r.runId.None? then now == was
    else
      && r.runId.value !in was
      && now == was[r.runId.value := ApplyRun(patchId, repo, r.status, r.status != SnapshotFailed)]
  }

  predicate SafePath(rel: RelPath) {
    !rel.absolute && ".." !in rel.parts
  }

  lemma DescribesSurvives(s: FileSnapshot, pre: Files, backups: Backups, more: Backups, repo: Location)
    requires Describes(s, pre, backups, repo)
    requires forall b :: b in backups ==> b in more && more[b] == backups[b]
    ensures Describes(s, pre, more, repo)
  {
  }

  class PatchApplyService {
    const allowedRoots: seq<Location>
    const decode: Bytes -> Option<Diff>  // None when the bytes are not UTF-8
    const blockedPattern: RelPath -> bool
    var files: Files
    var backups: Backups
    var artifacts: map<string, Artifact>
    var approvals: map<string, ApprovalRecord>
    var runs: map<nat, ApplyRun>
    var snapshots: set<FileSnapshot>
    var nextId: nat  // uuid4 identifiers never repeat
    ghost var ledger: Ledger

    constructor (allowedRoots: seq<Location>, decode: Bytes -> Option<Diff>, blockedPattern: RelPath -> bool,
                 files: Files,
                 artifacts: map<string, Artifact>, approvals: map<string, ApprovalRecord>)
      ensures Valid() && this.files == files && ledger == Ledger([], [], files)
    {
      this.allowedRoots, this.decode, this.blockedPattern := allowedRoots, decode, blockedPattern;
      this.files, this.artifacts, this.approvals := files, artifacts, approvals;
      backups, runs, snapshots, nextId := map[], map[], {}, 0;
      ledger := Ledger([], [], files);
    }

    ghost function Rows(runId: nat): set<FileSnapshot>
      reads `snapshots
    {
      set s | s in snapshots && s.runId == runId
    }

    ghost predicate IdsFresh()
      reads `runs, `backups, `snapshots, `nextId
    {
      && (forall id :: id in runs ==> id < nextId)
      && (forall b :: b in backups ==> b < nextId)
      && (forall s :: s in snapshots ==> s.runId in runs)
    }

    /** The rows of the run still describe the files before it. */
    ghost predicate Recorded(e: Entry)
      reads `runs, `backups, `snapshots
    {
      && e.runId in runs && runs[e.runId].targetRepo == e.run.repo
      && Elements(e.run.rows) == Rows(e.runId)
      && forall s :: s in e.run.rows ==> Describes(s, e.run.before, backups, e.run.repo)
    }

    ghost predicate AllRecorded()
      reads `runs, `backups, `snapshots, `ledger
    {
      forall e :: e in ledger.effected ==> Recorded(e)
    }

    ghost predicate Valid()
      reads this
    {
      && IdsFresh()
      && AllRecorded()
      && Balanced(ledger, files)
    }

    function Admit(patchId: string, approvalId: string, repo: Location): (gate: Gate)
      reads this
      ensures gate.Open? ==>
                && patchId in artifacts && approvalId in approvals
                && approvals[approvalId].patchId == patchId && approvals[approvalId].approved
                && approvals[approvalId].approvedDiffSha == Sha256(gate.bytes)
                && decode(gate.bytes).Some? && gate.affected == decode(gate.bytes).value.affected
                && forall rel :: rel in gate.affected ==> SafePath(rel)
      ensures gate.Closed? ==> !IsApplied(gate.status) && gate.status != ApplyFailedRollbackFailed
    {
      if !(exists root :: root in allowedRoots && Under(root, repo)) then Closed(PolicyBlock)
      else if patchId !in artifacts then Closed(PatchNotFound)
      else if approvalId !in approvals then Closed(ApprovalNotFound)
      else
        var artifact, approval := artifacts[patchId], approvals[approvalId];
        if approval.patchId != patchId then Closed(ApprovalPatchMismatch)
        else if !approval.approved then Closed(PendingApproval)
        else if approval.approvedDiffSha != artifact.diffSha then Closed(ApprovalHashMismatch)
        else if Under(repo, artifact.patchPath) then Closed(PolicyBlock)
        else if artifact.patchPath !in files then Closed(PatchFileMissing)
        else
          var bytes := files[artifact.patchPath];
          if Sha256(bytes) != artifact.diffSha then Closed(PatchHashMismatch)
          else if decode(bytes).None? then Closed(PolicyBlock)
          else
            var diff := decode(bytes).value;
            if diff.binary then Closed(PolicyBlock)
            else if diff.affected == [] then Closed(Warn)
            else if exists rel :: rel in diff.affected && (!SafePath(rel) || blockedPattern(rel))
            then Closed(PolicyBlock)
            else if multiset(diff.affected) != multiset(artifact.affectedPaths) then Closed(AffectedPathMismatch)
            else Open(bytes, diff.affected, approval.declaresTests)
    }

    /** Each refusal has the cause its status names, and the gate opens exactly when none of them has. */
    lemma GateNamesCause(patchId: string, approvalId: string, repo: Location)
      ensures var gate := Admit(patchId, approvalId, repo);
              gate.Closed? ==>
                match gate.status
                case PatchNotFound => patchId !in artifacts
                case ApprovalNotFound => patchId in artifacts && approvalId !in approvals
                case ApprovalPatchMismatch => approvalId in approvals && approvals[approvalId].patchId != patchId
                case PendingApproval => approvalId in approvals && !approvals[approvalId].approved
                case ApprovalHashMismatch =>
                  patchId in artifacts && approvalId in approvals &&
                  approvals[approvalId].approvedDiffSha != artifacts[patchId].diffSha
                case PatchFileMissing => patchId in artifacts && artifacts[patchId].patchPath !in files
                case PatchHashMismatch =>
                  patchId in artifacts && artifacts[patchId].patchPath in files &&
                  files[artifacts[patchId].patchPath] != artifacts[patchId].diffSha.preimage
                case Warn => AtPatch(patchId) && DiffOf(patchId).Some? && DiffOf(patchId).value.affected == []
                case AffectedPathMismatch =>
                  AtPatch(patchId) && DiffOf(patchId).Some? &&
                  multiset(DiffOf(patchId).value.affected) != multiset(artifacts[patchId].affectedPaths)
                case PolicyBlock =>
                  || (forall root :: root in allowedRoots ==> !(root <= repo))
                  || (patchId in artifacts && repo <= artifacts[patchId].patchPath)
                  || (AtPatch(patchId) && (DiffOf(patchId).None? || DiffOf(patchId).value.binary
                                           || exists rel :: rel in DiffOf(patchId).value.affected &&
                                                (rel.absolute || ".." in rel.parts || blockedPattern(rel))))
                case _ => false
      ensures Admit(patchId, approvalId, repo).Open? <==>
                && (exists root :: root in allowedRoots && root <= repo)
                && AtPatch(patchId) && !(repo <= artifacts[patchId].patchPath)
                && approvalId in approvals && approvals[approvalId].patchId == patchId && approvals[approvalId].approved
                && approvals[approvalId].approvedDiffSha == artifacts[patchId].diffSha
                && artifacts[patchId].diffSha.preimage == files[artifacts[patchId].patchPath]
                && DiffOf(patchId).Some? && !DiffOf(patchId).value.binary && DiffOf(patchId).value.affected != []
                && (forall rel :: rel in DiffOf(patchId).value.affected ==>
                      !rel.absolute && ".." !in rel.parts && !blockedPattern(rel))
                && multiset(DiffOf(patchId).value.affected) == multiset(artifacts[patchId].affectedPaths)
      ensures var gate := Admit(patchId, approvalId, repo);
              gate.Open? ==>
                && gate.declaresTests == approvals[approvalId].declaresTests
                && gate.affected == DiffOf(patchId).value.affected
    {
    }

    /** The patch is known and its file is there. */
    ghost predicate AtPatch(patchId: string)
      reads this
    {
      patchId in artifacts && artifacts[patchId].patchPath in files
    }

    ghost function DiffOf(patchId: string): Option<Diff>
      reads this
      requires AtPatch(patchId)
    {
      decode(files[artifacts[patchId].patchPath])
    }

    function Updated(runId: nat, status: ApplyStatus, rollbackAvailable: bool): map<nat, ApplyRun>
      reads this
      requires runId in runs
    {
      runs[runId := runs[runId].(status := status, rollbackAvailable := rollbackAvailable)]
    }

    /** One iteration of `snapshot_targets`; false stands for an exception. */
    method SnapshotOne(runId: nat, repo: Location, rel: RelPath, fault: bool) returns (ok: bool)
      requires IdsFresh() && runId in runs
      modifies `backups, `snapshots, `nextId
      ensures IdsFresh()
      ensures forall b :: b in old(backups) ==> b in backups && backups[b] == old(backups)[b]
      ensures ok <==> !fault && Under(repo, Resolve(repo, rel))
      ensures !ok ==> snapshots == old(snapshots)
      ensures ok ==> exists s :: snapshots == old(snapshots) + {s} && s.runId == runId
                                 && s.target == Resolve(repo, rel) && Describes(s, files, backups, repo)
    {
      var target := Resolve(repo, rel);
      if fault || !Under(repo, target) {
        return false;
      }
      var id := nextId;
      nextId := nextId + 1;
      var s;
      if target in files {
        backups := backups[id := files[target]];
        s := FileSnapshot(id, runId, target, Some(Sha256(files[target])), Some(id), false);
      } else {
        s := FileSnapshot(id, runId, target, None, None, true);
      }
      snapshots := snapshots + {s};
      ok := true;
    }

    ghost predicate RowsDescribe(runId: nat, repo: Location, targets: set<Location>)
      reads this
    {
      && (forall s :: s in Rows(runId) ==> Describes(s, files, backups, repo))
      && targets == set s | s in Rows(runId) :: s.target
    }

    lemma OneMoreRow(runId: nat, repo: Location, rels: seq<RelPath>, k: nat, before: set<FileSnapshot>,
                     oldBackups: Backups, s: FileSnapshot)
      requires k < |rels|
      requires forall x :: x in before && x.runId == runId ==> Describes(x, files, oldBackups, repo)
      requires TargetsOf(repo, rels[..k]) == set x | x in before && x.runId == runId :: x.target
      requires snapshots == before + {s} && s.runId == runId && s.target == Resolve(repo, rels[k])
      requires Describes(s, files, backups, repo)
      requires forall b :: b in oldBackups ==> b in backups && backups[b] == oldBackups[b]
      ensures RowsDescribe(runId, repo, TargetsOf(repo, rels[..k + 1]))
    {
      forall x | x in Rows(runId) ensures Describes(x, files, backups, repo) {
        if x != s {
          DescribesSurvives(x, files, oldBackups, backups, repo);
        }
      }
      PrefixSnoc(rels, k);
      assert TargetsOf(repo, rels[..k + 1]) == TargetsOf(repo, rels[..k]) + {s.target};
    }

    /** `snapshot_targets`; false stands for an exception, which leaves the rows taken so far. */
    method SnapshotTargets(runId: nat, repo: Location, rels: seq<RelPath>, fault: Option<nat>) returns (ok: bool)
      requires IdsFresh() && runId in runs && Rows(runId) == {}
      requires forall rel :: rel in rels ==> SafePath(rel)
      modifies `backups, `snapshots, `nextId
      ensures IdsFresh()
      ensures forall b :: b in old(backups) ==> b in backups && backups[b] == old(backups)[b]
      ensures forall s: FileSnapshot :: s.runId != runId ==> (s in snapshots <==> s in old(snapshots))
      ensures ok ==> RowsDescribe(runId, repo, TargetsOf(repo, rels))
      ensures ok <==> fault.None? || fault.value >= |rels|
    {
      for k := 0 to |rels|
        invariant IdsFresh()
        invariant forall b :: b in old(backups) ==> b in backups && backups[b] == old(backups)[b]
        invariant forall s: FileSnapshot :: s.runId != runId ==> (s in snapshots <==> s in old(snapshots))
        invariant RowsDescribe(runId, repo, TargetsOf(repo, rels[..k]))
        invariant fault.None? || fault.value >= k
      {
        ghost var before, oldBackups := snapshots, backups;
        assert SafePath(rels[k]);
        ClimbingNeedsDots(repo, rels[k].parts);
        var one := SnapshotOne(runId, repo, rels[k], fault == Some(k));
        if !one {
          return false;
        }
        ghost var s :| snapshots == before + {s} && s.runId == runId
                       && s.target == Resolve(repo, rels[k]) && Describes(s, files, backups, repo);
        OneMoreRow(runId, repo, rels, k, before, oldBackups, s);
      }
      assert rels[..|rels|] == rels;
      ok := true;
    }

    /** `list_file_snapshots`: rows created at the same instant come in any order. */
    method ListFileSnapshots(runId: nat) returns (rows: seq<FileSnapshot>)
      ensures Distinct(rows) && Elements(rows) == Rows(runId)
    {
      rows := [];
      var rest := snapshots;
      while rest != {}
        invariant rest <= snapshots && Distinct(rows)
        invariant forall s :: s in rows <==> s in snapshots && s !in rest && s.runId == runId
      {
        var s :| s in rest;
        if s.runId == runId {
          rows := rows + [s];
        }
        rest := rest - {s};
      }
    }

    /** `restore_apply_run` without the bookkeeping of the history. */
    method Restore(runId: nat) returns (status: RollbackStatus, ghost rows: seq<FileSnapshot>)
      modifies `files, `runs
      ensures Distinct(rows) && Elements(rows) == Rows(runId)
      ensures status == ApplyRunNotFound <==> runId !in old(runs)
      ensures runId !in old(runs) ==> files == old(files) && runs == old(runs)
      ensures runId in old(runs) ==>
          Restored(files, status) == RestoreRows(old(files), rows, backups, old(runs)[runId].targetRepo)
      ensures runId in old(runs) ==>
          runs == if status == RolledBack then old(Updated(runId, RunRolledBack, false)) else old(runs)
    {
      rows := [];
      if runId !in runs {
        rows := ListFileSnapshots(runId);
        return ApplyRunNotFound, rows;
      }
      var repo := runs[runId].targetRepo;
      var listed := ListFileSnapshots(runId);
      rows := listed;
      assert listed[..0] == [];
      for k := 0 to |listed|
        invariant Restored(files, RolledBack) == RestoreRows(old(files), listed[..k], backups, repo)
        invariant runs == old(runs)
      {
        var s := listed[k];
        PrefixSnoc(listed, k);
        assert listed[..k + 1][..k] == listed[..k];
        if !Under(repo, s.target) {
          StopsHere(old(files), listed, k, backups, repo);
          return RestorePolicyBlock, rows;
        }
        if s.created {
          files := files - {s.target};
          continue;
        }
        if s.backup.None? || s.preSha.None? {
          StopsHere(old(files), listed, k, backups, repo);
          return SnapshotInvalid, rows;
        }
        if s.backup.value !in backups {
          StopsHere(old(files), listed, k, backups, repo);
          return BackupMissing, rows;
        }
        if Sha256(backups[s.backup.value]) != s.preSha.value {
          StopsHere(old(files), listed, k, backups, repo);
          return SnapshotHashMismatch, rows;
        }
        files := files[s.target := backups[s.backup.value]];
      }
      assert listed[..|listed|] == listed;
      runs := Updated(runId, RunRolledBack, false);
      status := RolledBack;
    }

    /** Earlier runs stay undoable while rows and backups of another run are added. */
    twostate lemma RecordsSurvive(runId: nat)
      requires old(AllRecorded()) && ledger == old(ledger)
      requires forall e :: e in ledger.effected ==> e.runId != runId
      requires forall id :: id in old(runs) && id != runId ==>
          id in runs && runs[id].targetRepo == old(runs)[id].targetRepo
      requires forall s: FileSnapshot :: s.runId != runId ==> (s in snapshots <==> s in old(snapshots))
      requires forall b :: b in old(backups) ==> b in backups && backups[b] == old(backups)[b]
      ensures AllRecorded()
    {
      forall e | e in ledger.effected ensures Recorded(e) {
        assert old(Recorded(e));
        assert Rows(e.runId) == old(Rows(e.runId));
        forall s | s in e.run.rows ensures Describes(s, e.run.before, backups, e.run.repo) {
          DescribesSurvives(s, e.run.before, old(backups), backups, e.run.repo);
        }
      }
    }

    /** The apply-run row and its snapshots: SNAPSHOTTING, then SNAPSHOTTED or SNAPSHOT_FAILED. */
    method PrepareRun(patchId: string, repo: Location, affected: seq<RelPath>, fault: Option<nat>)
      returns (runId: nat, ok: bool)
      requires Valid() && forall rel :: rel in affected ==> SafePath(rel)
      modifies `runs, `backups, `snapshots, `nextId
      ensures Valid()
      ensures runId !in old(runs) && forall e :: e in ledger.effected ==> e.runId != runId
      ensures runs == old(runs)[runId := ApplyRun(patchId, repo, if ok then Snapshotted else SnapshotFailed, ok)]
      ensures ok <==> fault.None? || fault.value >= |affected|
      ensures ok ==> Prepared(runId, repo, files, TargetsOf(repo, affected))
    {
      runId := nextId;
      nextId := nextId + 1;
      runs := runs[runId := ApplyRun(patchId, repo, Snapshotting, false)];
      forall e | e in ledger.effected ensures e.runId != runId {
        assert Recorded(e);
      }
      ok := SnapshotTargets(runId, repo, affected, fault);
      runs := Updated(runId, if ok then Snapshotted else SnapshotFailed, ok);
      RecordsSurvive(runId);
    }

    /** A run whose snapshots describe the files `before` it, which the history leads up to. */
    ghost predicate Prepared(runId: nat, repo: Location, before: Files, targets: set<Location>)
      reads `runs, `backups, `snapshots, `nextId, `ledger
    {
      && IdsFresh()
      && AllRecorded() && (forall e :: e in ledger.effected ==> e.runId != runId)
      && Balanced(ledger, before)
      && runId in runs && runs[runId].targetRepo == repo
      && (forall s :: s in Rows(runId) ==> Describes(s, before, backups, repo))
      && targets == set s | s in Rows(runId) :: s.target
    }

    /**
     * Records the run that has just changed the files. If the declared tests wrote elsewhere as well, the run
     * cannot be undone completely, and a new history begins.
     */
    ghost method Push(runId: nat, repo: Location, before: Files, targets: set<Location>)
      requires Prepared(runId, repo, before, targets)
      modifies `ledger
      ensures Valid() && Pushed(old(ledger), ledger, runId, before, files, targets)
    {
      var rows := Enumerate(Rows(runId));
      var e := Entry(runId, Applied(repo, rows, before, files));
      assert RowTargets(rows) == targets by {
        assert forall s :: s in rows <==> s in Elements(rows);
      }
      if Confined(e.run) {
        PushBalances(ledger, e);
      }
      var effected := ledger.effected + [e];
      ledger := if Confined(e.run) then Ledger(effected, ledger.history + [e], ledger.base)
          else Ledger(effected, [], files);
      assert Recorded(e);
    }

    /** `apply_approved_patch` once git apply has failed. */
    method UndoFailedApply(runId: nat, repo: Location, ghost before: Files, ghost targets: set<Location>)
      returns (status: ApplyStatus)
      requires Prepared(runId, repo, before, targets) && SameOutside(before, files, targets)
      modifies `files, `runs
      ensures Valid() && files == before && status == ApplyFailedRolledBack
      ensures runs == old(Updated(runId, status, true))
    {
      ghost var broken := files;
      var rollback, rows := Restore(runId);
      assert forall s :: s in rows <==> s in Elements(rows);
      assert RowTargets(rows) == targets;
      RestorePutsBack(broken, rows, backups, repo, before);
      PutBackUndoesExactly(before, broken, targets);
      status := if rollback == RolledBack then ApplyFailedRolledBack else ApplyFailedRollbackFailed;
      runs := Updated(runId, status, rollback == RolledBack);
      RecordsSurvive(runId);
    }

    /** The declared tests, which may write to any file, and the status they lead to. */
    method RunTests(declaresTests: bool, world: Outside) returns (status: ApplyStatus)
      modifies `files
      ensures status == AppliedStatus(declaresTests, world.tests)
      ensures files == if declaresTests then Written(old(files), world.testWrites, world.testWrites.Keys)
          else old(files)
    {
      status := AppliedPatch;
      if declaresTests {
        files := Written(files, world.testWrites, world.testWrites.Keys);
        match world.tests {
          case AllPassed => status := AppliedTestsPassed;
          case SomeFailed => status := AppliedTestsFailed;
          case Refused => status := TestsBlocked;
        }
      }
    }

    /** `apply_approved_patch` once git apply has succeeded. */
    method FinishApply(runId: nat, repo: Location, affected: seq<RelPath>, declaresTests: bool, world: Outside,
                       ghost before: Files)
      returns (status: ApplyStatus)
      requires Prepared(runId, repo, before, TargetsOf(repo, affected))
      requires files == Written(before, world.writes, TargetsOf(repo, affected))
      modifies `files, `runs, `ledger
      ensures Valid() && files == Effect(before, status, world, TargetsOf(repo, affected))
      ensures status == AppliedStatus(declaresTests, world.tests) && runs == old(Updated(runId, status, true))
      ensures Pushed(old(ledger), ledger, runId, before, files, TargetsOf(repo, affected))
    {
      status := RunTests(declaresTests, world);
      EffectOfTests(before, declaresTests, world, TargetsOf(repo, affected));
      runs := Updated(runId, status, true);
      RecordsSurvive(runId);
      Push(runId, repo, before, TargetsOf(repo, affected));
    }

    /** `apply_approved_patch` from the snapshots on: git apply, and what follows from its exit. */
    method GitApply(runId: nat, repo: Location, affected: seq<RelPath>, declaresTests: bool, world: Outside)
      returns (r: ApplyResult)
      requires Valid() && Prepared(runId, repo, files, TargetsOf(repo, affected))
      modifies `files, `runs, `ledger
      ensures Valid()
      ensures files == FilesAfter(old(files), r, world, TargetsOf(repo, affected))
      ensures Noted(r, old(ledger), ledger, old(files), files, TargetsOf(repo, affected))
      ensures r.runId == Some(runId) && Reports(r, ExitAnswer(declaresTests, world))
      ensures runs == if r.status == Snapshotted then old(runs) else old(Updated(runId, r.status, true))
    {
      ghost var before, targets := files, TargetsOf(repo, affected);
      files := Written(files, world.writes, TargetsOf(repo, affected));
      WrittenSameOutside(before, world.writes, targets);
      match world.apply {
        case NonZero =>
          var status := UndoFailedApply(runId, repo, before, targets);
          r := Returned(status, Some(runId));
        case TimedOut =>
          CutOff(runId, repo, before, targets, world);
          r := Raised(Snapshotted, Some(runId));
        case Zero =>
          r := Succeed(runId, repo, affected, declaresTests, world, before);
      }
    }

    /** A timeout of git apply leaves what it wrote, and nothing else changes but the ledger. */
    ghost method CutOff(runId: nat, repo: Location, before: Files, targets: set<Location>, world: Outside)
      requires Prepared(runId, repo, before, targets) && files == Written(before, world.writes, targets)
      modifies `ledger
      ensures Valid() && files == Effect(before, Snapshotted, world, targets)
      ensures Pushed(old(ledger), ledger, runId, before, files, targets)
    {
      Push(runId, repo, before, targets);
    }

    /** A successful git apply, the declared tests and the memory commit. */
    method Succeed(runId: nat, repo: Location, affected: seq<RelPath>, declaresTests: bool, world: Outside,
                   ghost before: Files)
      returns (r: ApplyResult)
      requires Prepared(runId, repo, before, TargetsOf(repo, affected)) && world.apply == Zero
      requires files == Written(before, world.writes, TargetsOf(repo, affected))
      modifies `files, `runs, `ledger
      ensures Valid() && files == Effect(before, r.status, world, TargetsOf(repo, affected))
      ensures TookEffect(r) && r.status != Snapshotted && r.runId == Some(runId)
      ensures Reports(r, ExitAnswer(declaresTests, world)) && runs == old(Updated(runId, r.status, true))
      ensures Pushed(old(ledger), ledger, runId, before, files, TargetsOf(repo, affected))
    {
      var status := FinishApply(runId, repo, affected, declaresTests, world, before);
      EndedReports(runId, declaresTests, world);
      r := Ended(runId, status, world);
    }

    /** `apply_approved_patch` past its preflight checks. */
    method StartRun(patchId: string, repo: Location, affected: seq<RelPath>, declaresTests: bool, world: Outside)
      returns (r: ApplyResult)
      requires Valid() && forall rel :: rel in affected ==> SafePath(rel)
      modifies `files, `runs, `backups, `snapshots, `nextId, `ledger
      ensures Valid()
      ensures files == FilesAfter(old(files), r, world, TargetsOf(repo, affected))
      ensures Noted(r, old(ledger), ledger, old(files), files, TargetsOf(repo, affected))
      ensures Reports(r, RunAnswer(|affected|, declaresTests, world)) && r.runId.Some?
      ensures Booked(r, patchId, repo, old(runs), runs)
    {
      var runId, snapshotted := PrepareRun(patchId, repo, affected, world.snapshotFault);
      if !snapshotted {
        return Returned(SnapshotFailed, Some(runId));
      }
      r := GitApply(runId, repo, affected, declaresTests, world);
      BookedOnce(r, patchId, repo, old(runs), runId);
    }

    /**
     * `apply_approved_patch`. Whatever git apply writes to the affected files, and whether it succeeds,
     * fails half way or is cut off, the call ends in one of three ways: the files are as before; the patch
     * is in place, even if the memory commit then raises; or the exception of a timeout leaves the call with
     * the run still SNAPSHOTTED.
     */
    method ApplyApprovedPatch(patchId: string, approvalId: string, repo: Location, world: Outside)
      returns (r: ApplyResult, ghost targets: set<Location>)
      requires Valid()
      modifies `files, `runs, `backups, `snapshots, `nextId, `ledger
      ensures Valid()
      ensures r.status != ApplyFailedRollbackFailed
      ensures targets == GateTargets(repo, old(Admit(patchId, approvalId, repo)))
      ensures r.runId.Some? <==> old(Admit(patchId, approvalId, repo)).Open? && world.check == Zero
      ensures files == FilesAfter(old(files), r, world, targets)
      ensures Noted(r, old(ledger), ledger, old(files), files, targets)
      ensures Reports(r, CallAnswer(old(Admit(patchId, approvalId, repo)), world))
      ensures Booked(r, patchId, repo, old(runs), runs)
      ensures var gate := old(Admit(patchId, approvalId, repo));
              GotSnapshots(gate, world) && world.apply == Zero ==>
                && (r.status == AppliedTestsPassed <==> gate.declaresTests && world.tests == AllPassed)
                && (r.status == AppliedTestsFailed <==> gate.declaresTests && world.tests == SomeFailed)
                && (r.status == TestsBlocked <==> gate.declaresTests && world.tests == Refused)
                && (r.status == AppliedPatch <==> !gate.declaresTests)
      ensures r.runId.Some? ==> r.runId.value in runs && runs[r.runId.value].status == r.status
    {
      var gate := Admit(patchId, approvalId, repo);
      r, targets := PassGate(patchId, repo, gate, world);
      AnswersExactly(r, gate, world);
    }

    /** `apply_approved_patch` once the checks before `git apply --check` have been made. */
    method PassGate(patchId: string, repo: Location, gate: Gate, world: Outside)
      returns (r: ApplyResult, ghost targets: set<Location>)
      requires Valid() && (gate.Open? ==> forall rel :: rel in gate.affected ==> SafePath(rel))
      modifies `files, `runs, `backups, `snapshots, `nextId, `ledger
      ensures Valid()
      ensures targets == GateTargets(repo, gate)
      ensures r.runId.Some? <==> gate.Open? && world.check == Zero
      ensures files == FilesAfter(old(files), r, world, targets)
      ensures Noted(r, old(ledger), ledger, old(files), files, targets)
      ensures Reports(r, CallAnswer(gate, world))
      ensures Booked(r, patchId, repo, old(runs), runs)
    {
      targets := GateTargets(repo, gate);
      if gate.Closed? {
        r := Returned(gate.status, None);
        return;
      }
      match world.check {
        case TimedOut => r := Raised(ApplyCheckFailed, None);
        case NonZero => r := Returned(ApplyCheckFailed, None);
        case Zero =>
          r := StartRun(patchId, repo, gate.affected, gate.declaresTests, world);
      }
    }

    twostate lemma RecordsSurviveRestore(runId: nat)
      requires old(AllRecorded()) && ledger == old(ledger) && snapshots == old(snapshots) && backups == old(backups)
      requires runs == old(runs) || (runId in old(runs) && runs == old(Updated(runId, RunRolledBack, false)))
      ensures AllRecorded()
    {
      forall e | e in ledger.effected ensures Recorded(e) {
        assert old(Recorded(e));
      }
    }

    /** The rows of a recorded run, once restored, have put back what they describe. */
    lemma RestoringPutsBack(effected: seq<Entry>, runId: nat, before: Files, rows: seq<FileSnapshot>,
                            status: RollbackStatus)
      requires forall e :: e in effected ==> Recorded(e)
      requires Elements(rows) == Rows(runId)
      requires runId in runs ==> Restored(files, status) == RestoreRows(before, rows, backups, runs[runId].targetRepo)
      ensures UndoneIfEffected(effected, runId, before, Restored(files, status))
    {
      forall e | e in effected && e.runId == runId
        ensures Restored(files, status) == Restored(PutBack(before, e.run.before, RowTargets(e.run.rows)), RolledBack)
      {
        RestoringRecordedRows(before, e, rows, backups);
      }
    }

    /**
     * `restore_apply_run`. Any run that has changed the files can be restored at any time. Restoring the newest
     * run of the history takes it off again; a call that changes no file leaves the history as it is.
     */
    method RestoreApplyRun(runId: nat) returns (status: RollbackStatus, ghost rows: seq<FileSnapshot>)
      requires Valid()
      modifies `files, `runs, `ledger
      ensures Valid()
      ensures status == ApplyRunNotFound <==> runId !in old(runs)
      ensures status == ApplyRunNotFound ==> files == old(files)
      ensures Elements(rows) == Rows(runId)
      ensures runId in old(runs) ==>
                Restored(files, status) == RestoreRows(old(files), rows, backups, old(runs)[runId].targetRepo)
      ensures runs == if status == RolledBack then old(Updated(runId, RunRolledBack, false)) else old(runs)
      ensures UndoneIfEffected(ledger.effected, runId, old(files), Restored(files, status))
      ensures ledger == AfterRestore(old(ledger), runId, old(files), files)
      ensures OnTop(runId, old(ledger).history) ==> files == old(ledger).history[|old(ledger).history| - 1].run.before
    {
      ghost var was := files;
      status, rows := Restore(runId);
      assert IdsFresh();
      assert AllRecorded() by { RecordsSurviveRestore(runId); }
      RestoringPutsBack(ledger.effected, runId, was, rows, status);
      Settle(runId, was, status);
    }

    ghost method Settle(runId: nat, before: Files, status: RollbackStatus)
      requires IdsFresh() && AllRecorded() && Balanced(ledger, before)
      requires UndoneIfEffected(ledger.effected, runId, before, Restored(files, status))
      modifies `ledger
      ensures Valid() && ledger == AfterRestore(old(ledger), runId, before, files)
      ensures OnTop(runId, old(ledger).history) ==> files == old(ledger).history[|old(ledger).history| - 1].run.before
    {
      RestoringBalances(ledger, runId, before, files, status);
      ledger := AfterRestore(ledger, runId, before, files);
    }

    /** `verify_rollback`: checks the backups without touching the files. */
    method VerifyRollback(runId: nat) returns (status: VerifyStatus)
      ensures status == RunUnknown <==> runId !in runs
      ensures status == SnapshotsNotFound <==> runId in runs && Rows(runId) == {}
      ensures status == RollbackVerified <==>
                runId in runs && Rows(runId) != {} && forall s :: s in Rows(runId) ==> BackupIntact(s, backups)
    {
      if runId !in runs {
        return RunUnknown;
      }
      var rows := ListFileSnapshots(runId);
      if rows == [] {
        return SnapshotsNotFound;
      }
      assert rows[0] in Elements(rows);
      for k := 0 to |rows|
        invariant forall s :: s in rows[..k] ==> BackupIntact(s, backups)
      {
        assert rows[k] in Elements(rows);
        if !BackupIntact(rows[k], backups) {
          return SnapshotUnusable;
        }
      }
      assert forall s :: s in Rows(runId) ==> s in rows[..|rows|];
      status := RollbackVerified;
    }
  }

  /** `verify_rollback` predicts `restore_apply_run`: both accept the same rows, inside the repository. */
  lemma VerifiedMeansRestorable(files: Files, rows: seq<FileSnapshot>, backups: Backups, repo: Location)
    requires forall s :: s in rows ==> Under(repo, s.target)
    ensures (forall s :: s in rows ==> BackupIntact(s, backups))
        <==> RestoreRows(files, rows, backups, repo).status == RolledBack
  {
    RestoreSucceedsExactly(files, rows, backups, repo);
  }

  /** If the run has ever changed the files, its targets are put back to what they were before it. */
  ghost predicate UndoneIfEffected(effected: seq<Entry>, runId: nat, before: Files, outcome: Restored) {
    forall e :: e in effected && e.runId == runId ==>
      outcome == Restored(PutBack(before, e.run.before, RowTargets(e.run.rows)), RolledBack)
  }

  /** The run is the newest of the history. */
  ghost predicate OnTop(runId: nat, entries: seq<Entry>) {
    entries != [] && entries[|entries| - 1].runId == runId
  }

  /** The newest run is taken off; a call that changes files otherwise starts the history anew. */
  ghost function AfterRestore(was: Ledger, runId: nat, before: Files, after: Files): Ledger {
    if OnTop(runId, was.history) then was.(history := was.history[..|was.history| - 1])
    else if after == before then was
    else was.(history := [], base := after)
  }

  lemma RestoringBalances(was: Ledger, runId: nat, before: Files, after: Files, status: RollbackStatus)
    requires Balanced(was, before)
    requires UndoneIfEffected(was.effected, runId, before, Restored(after, status))
    ensures Balanced(AfterRestore(was, runId, before, after), after)
    ensures OnTop(runId, was.history) ==> after == was.history[|was.history| - 1].run.before
  {
    if OnTop(runId, was.history) {
      var top := was.history[|was.history| - 1];
      assert top in was.history && before == top.run.after;
      PutBackUndoesExactly(top.run.before, top.run.after, RowTargets(top.run.rows));
      PopBalances(was, before);
    }
  }

  lemma PopBalances(was: Ledger, files: Files)
    requires Balanced(was, files) && was.history != []
    ensures var n := |was.history| - 1;
            Balanced(was.(history := was.history[..n]), was.history[n].run.before)
  {
    StackedBelow(RunsOf(was.history), was.base);
    RunsOfFront(was.history);
    FrontIsInside(was.history);
  }

  lemma FrontIsInside<T>(s: seq<T>)
    requires s != []
    ensures forall x :: x in s[..|s| - 1] ==> x in s
  {
  }

  lemma PushBalances(was: Ledger, e: Entry)
    requires Balanced(was, e.run.before) && Confined(e.run)
    ensures Balanced(Ledger(was.effected + [e], was.history + [e], was.base), e.run.after)
  {
    StackOneMore(RunsOf(was.history), was.base, e.run);
    assert RunsOf(was.history + [e]) == RunsOf(was.history) + [e.run];
  }

  lemma EffectOfTests(before: Files, declaresTests: bool, world: Outside, targets: set<Location>)
    ensures var applied := Written(before, world.writes, targets);
            Effect(before, AppliedStatus(declaresTests, world.tests), world, targets)
            == if declaresTests then Written(applied, world.testWrites, world.testWrites.Keys) else applied
    ensures IsApplied(AppliedStatus(declaresTests, world.tests))
  {
  }

  /** The end of a successful apply, whether or not the memory commit raises. */
  function Ended(runId: nat, status: ApplyStatus, world: Outside): ApplyResult {
    if world.memoryRaises && status != TestsBlocked then Raised(status, Some(runId))
    else Returned(status, Some(runId))
  }

  lemma EndedReports(runId: nat, declaresTests: bool, world: Outside)
    requires world.apply == Zero
    ensures var r := Ended(runId, AppliedStatus(declaresTests, world.tests), world);
            && r.status == AppliedStatus(declaresTests, world.tests) && r.status != Snapshotted
            && r.runId == Some(runId)
            && TookEffect(r) && Reports(r, ExitAnswer(declaresTests, world))
  {
  }

  /** File by file after a call: what the tests wrote, or else what `git apply` wrote to a target, or else as before. */
  lemma FilesAfterExactly(files: Files, r: ApplyResult, world: Outside, targets: set<Location>, p: Location)
    ensures var after := FilesAfter(files, r, world, targets);
            var applied := r.runId.Some? && (r.status.Snapshotted? || r.status.AppliedPatch? || r.status.TestsBlocked?
                                             || r.status.AppliedTestsPassed? || r.status.AppliedTestsFailed?);
            var tested := applied && !r.status.Snapshotted? && !r.status.AppliedPatch?;
            if tested && p in world.testWrites then
              (p in after <==> world.testWrites[p].Put?) && (p in after ==> after[p] == world.testWrites[p].content)
            else if applied && p in targets && p in world.writes then
              (p in after <==> world.writes[p].Put?) && (p in after ==> after[p] == world.writes[p].content)
            else (p in after <==> p in files) && (p in after ==> after[p] == files[p])
  {
    var applied := Written(files, world.writes, targets);
    WrittenExactly(files, world.writes, targets, p);
    WrittenExactly(applied, world.testWrites, world.testWrites.Keys, p);
  }

  /** The row of a run that `git apply` was started for is written twice, and the second time counts. */
  lemma BookedOnce(r: ApplyResult, patchId: string, repo: Location, was: map<nat, ApplyRun>, runId: nat)
    requires runId !in was && r.runId == Some(runId) && r.status != SnapshotFailed
    ensures var prepared := was[runId := ApplyRun(patchId, repo, Snapshotted, true)];
            var now := if r.status == Snapshotted then prepared
                       else prepared[runId := prepared[runId].(status := r.status, rollbackAvailable := true)];
            Booked(r, patchId, repo, was, now)
  {
  }

  lemma RestoringRecordedRows(files: Files, e: Entry, rows: seq<FileSnapshot>, backups: Backups)
    requires Elements(rows) == Elements(e.run.rows)
    requires forall s :: s in e.run.rows ==> Describes(s, e.run.before, backups, e.run.repo)
    ensures RestoreRows(files, rows, backups, e.run.repo)
         == Restored(PutBack(files, e.run.before, RowTargets(e.run.rows)), RolledBack)
  {
    forall s ensures s in rows <==> s in e.run.rows {
      assert s in Elements(rows) <==> s in Elements(e.run.rows);
    }
    assert RowTargets(rows) == RowTargets(e.run.rows);
    RestorePutsBack(files, rows, backups, e.run.repo, e.run.before);
  }

  lemma RunsOfFront(history: seq<Entry>)
    requires history != []
    ensures RunsOf(history[..|history| - 1]) == RunsOf(history)[..|history| - 1]
  {
  }

  /** The first row that cannot be restored decides the result. */
  lemma {:induction false} StopsHere(files: Files, rows: seq<FileSnapshot>, k: nat, backups: Backups, repo: Location)
    requires k < |rows| && RestoreRows(files, rows[..k], backups, repo).status == RolledBack
    requires RestoreOne(RestoreRows(files, rows[..k], backups, repo).files, rows[k], backups, repo).status != RolledBack
    ensures RestoreRows(files, rows, backups, repo)
         == RestoreOne(RestoreRows(files, rows[..k], backups, repo).files, rows[k], backups, repo)
    decreases |rows|
  {
    if k == |rows| - 1 {
      assert rows[..k] == rows[..|rows| - 1];
    } else {
      assert rows[..|rows| - 1][..k] == rows[..k];
      StopsHere(files, rows[..|rows| - 1], k, backups, repo);
    }
  }

  lemma {:induction false} Enumerate<T(!new)>(s: set<T>) returns (q: seq<T>)
    ensures Distinct(q) && Elements(q) == s
    decreases |s|
  {
    q := [];
    if s != {} {
      var x :| x in s;
      var rest := Enumerate(s - {x});
      assert x !in Elements(rest);
      q := rest + [x];
      assert Elements(q) == Elements(rest) + {x};
    }
  }

  lemma StackOneMore(runs: seq<Applied>, base: Files, run: Applied)
    requires Stacked(runs, base) && run.before == Top(runs, base)
    ensures Stacked(runs + [run], base) && Top(runs + [run], base) == run.after
  {
    var more := runs + [run];
    forall i | 0 <= i < |more| ensures more[i].before == FilesBelow(more, base, i) {
      assert FilesBelow(more, base, i) == FilesBelow(runs, base, i);
    }
  }
}
