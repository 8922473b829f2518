/** What a call does to the runs and the chunks of its own project, and that it leaves all other projects alone. */
module IngestIsolation {
  import opened IngestAgreement
  import opened IngestIndex
  import opened IngestManifest
  import opened Wrappers

  // Own project

  predicate HasFailed(run: Run) {
    run.state == Failed || run.state == FailedVectorUpsert
  }

  /** Run by run: a rebuild reconciles the failed runs of its project and no other. */
  lemma RebuildReconcilesExactly(ix: Index, project: string, r: RunId)
    ensures var ix' := Rebuild(ix, project);
            && (r in ix'.runs <==> r in ix.runs)
            && (r in ix.runs ==>
                  ix'.runs[r] == if ix.runs[r].project == project && HasFailed(ix.runs[r])
                                 then Run(project, Reconciled, ix.runs[r].startedAt) else ix.runs[r])
  {
  }

  /** Selected are the project's chunks of failed runs, or all its chunks when no chunk is of a failed run. */
  lemma SelectedExactly(ix: Index, project: string, id: ChunkId)
    ensures id in ToRebuild(ix, project) <==>
              && id in ix.chunks && ix.chunks[id].project == project
              && (OfFailedRun(ix, id) || NoneOfFailedRun(ix, project))
  {
    if !NoneOfFailedRun(ix, project) {
      var x :| x in ix.chunks && ix.chunks[x].project == project && OfFailedRun(ix, x);
      assert x in RebuildableChunks(ix, project);
    } else {
      assert RebuildableChunks(ix, project) == {};
    }
  }

  predicate OfFailedRun(ix: Index, id: ChunkId) {
    id in ix.chunks && ix.chunks[id].runId in ix.runs && HasFailed(ix.runs[ix.chunks[id].runId])
  }

  predicate NoneOfFailedRun(ix: Index, project: string) {
    forall x :: x in ix.chunks && ix.chunks[x].project == project ==> !OfFailedRun(ix, x)
  }

  /** A rebuild gives vectors to the selected chunks, and keeps all other vectors, all chunks and all files. */
  lemma RebuildStoresExactly(ix: Index, project: string, id: ChunkId)
    ensures var ix' := Rebuild(ix, project);
            && ix'.files == ix.files && ix'.chunks == ix.chunks
            && (id in ix'.vectors <==> id in ix.vectors || id in ToRebuild(ix, project))
            && (id in ToRebuild(ix, project) ==> ix'.vectors[id] == VectorRow(id.scope, id.path, id.content))
            && (id in ix.vectors && id !in ToRebuild(ix, project) ==> ix'.vectors[id] == ix.vectors[id])
  {
  }

  /** `latest` is a run of the project with the latest start, after this call's run has started. */
  ghost predicate Newest(ix: Index, call: Call, latest: RunId) {
    var own := RunId(call.project, call.target);
    && (latest == own || (latest in ix.runs && ix.runs[latest].project == call.project))
    && (latest != own ==> call.now <= ix.runs[latest].startedAt)
    && forall r :: r in ix.runs && r != own && ix.runs[r].project == call.project ==>
         ix.runs[r].startedAt <= if latest == own then call.now else ix.runs[latest].startedAt
  }

  /**
   * The run of a call ends COMPLETED without a fault. After a fault it ends in FAILED_VECTOR_UPSERT or FAILED as the
   * fault says, if it is the newest of its project. Otherwise the newest one decides: if that one is in
   * FAILED_VECTOR_UPSERT, a vector fault is recorded as such and any other not at all.
   */
  lemma RunEndsExactly(ix: Index, slicer: Slicer, call: Call, ix': Index)
    requires Ingests(ix, slicer, call, ix')
    ensures var own := RunId(call.project, call.target);
            && ix'.runs.Keys == ix.runs.Keys + {own}
            && (forall r :: r in ix.runs && r != own ==> ix'.runs[r] == ix.runs[r])
            && ix'.runs[own].project == call.project && ix'.runs[own].startedAt == call.now
    ensures var fault, state := Work(ix, slicer, call).fault, ix'.runs[RunId(call.project, call.target)].state;
            match fault
            case None => state == Completed
            case Some(f) => exists latest :: Newest(ix, call, latest) && state == EndState(ix, call, f, latest)
  {
    var p, own := Work(ix, slicer, call), RunId(call.project, call.target);
    FilesKeepRuns(Begin(ix, call), slicer, call.project, own, call.sources, call.force);
    BeginRuns(ix, call);
    if p.fault.Some? {
      var latest :| IsLatest(p.ix, call.project, latest) && ix' == Handle(p.ix, own, p.fault.value, latest);
      HandlingEnds(ix, call, p.ix, p.fault.value, latest);
    }
  }

  lemma BeginRuns(ix: Index, call: Call)
    ensures Begin(ix, call).runs == ix.runs[RunId(call.project, call.target) := Run(call.project, Running, call.now)]
  {
  }

  lemma HandlingEnds(ix: Index, call: Call, worked: Index, fault: Fault, latest: RunId)
    requires worked.runs == ix.runs[RunId(call.project, call.target) := Run(call.project, Running, call.now)]
    requires IsLatest(worked, call.project, latest)
    ensures var own := RunId(call.project, call.target);
            var ix' := Handle(worked, own, fault, latest);
            && Newest(ix, call, latest)
            && ix'.runs == worked.runs[own := Run(call.project, EndState(ix, call, fault, latest), call.now)]
  {
    var own := RunId(call.project, call.target);
    assert worked.runs[own] == Run(call.project, Running, call.now);
    forall r | r in ix.runs && r != own ensures worked.runs[r] == ix.runs[r] {
    }
  }

  function EndState(ix: Index, call: Call, fault: Fault, latest: RunId): RunState {
    if latest == RunId(call.project, call.target) then if fault == VectorFault then FailedVectorUpsert else Failed
    else if latest in ix.runs && ix.runs[latest].state == FailedVectorUpsert
    then if fault == VectorFault then FailedVectorUpsert else Running
    else Failed
  }

  // Other projects

  /** Everything of the project is as it was. */
  ghost predicate SameProject(ix: Index, ix': Index, project: string) {
    && (forall key: (Scope, Path) :: key.0 == ScopeHash(project) ==>
          (key in ix'.files <==> key in ix.files) && (key in ix.files ==> ix'.files[key] == ix.files[key]))
    && (forall id: ChunkId :: id.scope == ScopeHash(project) ==>
          (id in ix'.chunks <==> id in ix.chunks) && (id in ix.chunks ==> ix'.chunks[id] == ix.chunks[id]))
    && (forall id: ChunkId :: id.scope == ScopeHash(project) ==>
          (id in ix'.vectors <==> id in ix.vectors) && (id in ix.vectors ==> ix'.vectors[id] == ix.vectors[id]))
    && (forall r: RunId :: r.project == project ==>
          (r in ix'.runs <==> r in ix.runs) && (r in ix.runs ==> ix'.runs[r] == ix.runs[r]))
  }

  lemma SameTwice(ix: Index, ix': Index, ix'': Index, project: string)
    requires SameProject(ix, ix', project) && SameProject(ix', ix'', project)
    ensures SameProject(ix, ix'', project)
  {
  }

  lemma DropSparesOthers(ix: Index, scope: Scope, path: Path, other: string)
    requires Keyed(ix) && scope != ScopeHash(other)
    ensures SameProject(ix, DropPath(ix, scope, path), other)
  {
  }

  lemma DropFilesSparesOthers(ix: Index, scope: Scope, paths: set<Path>, other: string)
    requires Keyed(ix) && scope != ScopeHash(other)
    ensures SameProject(ix, DropFiles(ix, scope, paths), other)
  {
  }

  lemma StoringSparesOthers(p: Progress, project: string, runId: RunId, src: Source, chunks: seq<Chunk>, other: string)
    requires project != other
    ensures SameProject(p.ix, StoreFile(p, project, runId, src, chunks).ix, other)
  {
    var stored := Store(p.ix, project, runId, src.path, src.content, chunks);
    StoreSparesOthers(p.ix, project, runId, src, chunks, other);
    UpsertSparesOthers(stored, project, IdsOf(ScopeHash(project), src.path, chunks), other);
    SameTwice(p.ix, stored, Upsert(stored, IdsOf(ScopeHash(project), src.path, chunks)), other);
  }

  lemma StoreSparesOthers(ix: Index, project: string, runId: RunId, src: Source, chunks: seq<Chunk>, other: string)
    requires project != other
    ensures SameProject(ix, Store(ix, project, runId, src.path, src.content, chunks), other)
  {
  }

  lemma UpsertSparesOthers(ix: Index, project: string, ids: set<ChunkId>, other: string)
    requires project != other && forall id :: id in ids ==> id.scope == ScopeHash(project)
    ensures SameProject(ix, Upsert(ix, ids), other)
  {
  }

  lemma FileSparesOthers(p: Progress, slicer: Slicer, project: string, runId: RunId, src: Source, force: bool,
                         other: string)
    requires Keyed(p.ix) && project != other
    ensures SameProject(p.ix, IngestFile(p, slicer, project, runId, src, force).ix, other)
  {
    var cleared := p.(ix := Cleared(p.ix, project, src, force));
    ClearingSparesOthers(p.ix, project, src, force, other);
    if slicer(src.path, src.content).Some? {
      var made := slicer(src.path, src.content).value;
      StoringSparesOthers(cleared, project, runId, src, made, other);
      SameTwice(p.ix, cleared.ix, StoreFile(cleared, project, runId, src, made).ix, other);
    }
    NothingChanged(p.ix, other);
  }

  lemma NothingChanged(ix: Index, other: string)
    ensures SameProject(ix, ix, other)
  {
  }

  lemma ClearingSparesOthers(ix: Index, project: string, src: Source, force: bool, other: string)
    requires Keyed(ix) && project != other
    ensures SameProject(ix, Cleared(ix, project, src, force), other)
  {
    DropSparesOthers(ix, ScopeHash(project), src.path, other);
  }

  lemma {:induction false} FilesSpareOthers(ix: Index, slicer: Slicer, project: string, runId: RunId,
                                            sources: seq<Source>, force: bool, other: string)
    requires Rooted(ix) && runId in ix.runs && ix.runs[runId].project == project && project != other
    ensures SameProject(ix, IngestFiles(ix, slicer, project, runId, sources, force).ix, other)
  {
    if sources != [] {
      var front := sources[..|sources| - 1];
      var p := IngestFiles(ix, slicer, project, runId, front, force);
      FilesSpareOthers(ix, slicer, project, runId, front, force, other);
      FilesKeepRooted(ix, slicer, project, runId, front, force);
      FileSparesOthers(p, slicer, project, runId, sources[|sources| - 1], force, other);
      SameTwice(ix, p.ix, IngestFile(p, slicer, project, runId, sources[|sources| - 1], force).ix, other);
    }
  }

  lemma IngestSparesOthers(ix: Index, slicer: Slicer, call: Call, ix': Index, other: string)
    requires Rooted(ix) && RunsNamed(ix) && Ingests(ix, slicer, call, ix') && call.project != other
    ensures SameProject(ix, ix', other)
  {
    var runId, begun, worked := RunId(call.project, call.target), Begin(ix, call), Work(ix, slicer, call).ix;
    BeginKeepsRooted(ix, call);
    BeginSparesOthers(ix, call, other);
    FilesSpareOthers(begun, slicer, call.project, runId, call.sources, call.force, other);
    SameTwice(ix, begun, worked, other);
    OnlyRunStatesDiffer(ix, slicer, call, ix');
    RunEndsExactly(ix, slicer, call, ix');
    OwnRunOnly(ix, worked, ix', runId, other);
  }

  lemma BeginSparesOthers(ix: Index, call: Call, other: string)
    requires Rooted(ix) && call.project != other
    ensures SameProject(ix, Begin(ix, call), other)
  {
    var started := StartRun(ix, call.project, call.target, call.now);
    assert SameProject(ix, started, other);
    var stale := StalePaths(started, ScopeHash(call.project), PathsOf(call.sources));
    DropFilesSparesOthers(started, ScopeHash(call.project), stale, other);
  }

  lemma OwnRunOnly(ix: Index, worked: Index, ix': Index, runId: RunId, other: string)
    requires SameProject(ix, worked, other) && runId.project != other
    requires ix'.files == worked.files && ix'.chunks == worked.chunks && ix'.vectors == worked.vectors
    requires ix'.runs.Keys == ix.runs.Keys + {runId}
    requires forall r :: r in ix.runs && r != runId ==> ix'.runs[r] == ix.runs[r]
    ensures SameProject(ix, ix', other)
  {
  }

  lemma RebuildSparesOthers(ix: Index, project: string, other: string)
    requires Rooted(ix) && RunsNamed(ix) && project != other
    ensures SameProject(ix, Rebuild(ix, project), other)
  {
    var ids := ToRebuild(ix, project);
    UpsertSparesOthers(ix, project, ids, other);
    var ix' := Rebuild(ix, project);
    forall r: RunId | r.project == other
      ensures (r in ix'.runs <==> r in ix.runs) && (r in ix.runs ==> ix'.runs[r] == ix.runs[r])
    {
      RebuildReconcilesExactly(ix, project, r);
    }
  }

  function ProjectOf(op: Op): string {
    match op case Ingest(call) => call.project case RebuildVectors(project, _) => project
  }

  lemma StepSparesOthers(ix: Index, slicer: Slicer, op: Op, ix': Index, other: string)
    requires Rooted(ix) && RunsNamed(ix) && Step(ix, slicer, op, ix') && ProjectOf(op) != other
    ensures SameProject(ix, ix', other)
  {
    match op
    case Ingest(call) => IngestSparesOthers(ix, slicer, call, ix', other);
    case RebuildVectors(project, _) => RebuildSparesOthers(ix, project, other);
  }

  lemma SameSelection(ix: Index, ix': Index, project: string)
    requires Rooted(ix) && RunsNamed(ix) && Rooted(ix') && RunsNamed(ix') && SameProject(ix, ix', project)
    ensures ToRebuild(ix', project) == ToRebuild(ix, project)
    ensures ChunkView(ix', ScopeHash(project)) == ChunkView(ix, ScopeHash(project))
    ensures VectorView(ix', ScopeHash(project)) == VectorView(ix, ScopeHash(project))
  {
    SameFailures(ix, ix', project);
    SameFailures(ix', ix, project);
    forall id ensures id in ToRebuild(ix', project) <==> id in ToRebuild(ix, project) {
      SelectedExactly(ix, project, id);
      SelectedExactly(ix', project, id);
    }
    SameViews(ix, ix', project);
  }

  lemma SameFailures(ix: Index, ix': Index, project: string)
    requires Rooted(ix) && RunsNamed(ix) && Keyed(ix') && SameProject(ix, ix', project)
    ensures forall id :: id in ix.chunks && ix.chunks[id].project == project ==>
              id in ix'.chunks && ix'.chunks[id] == ix.chunks[id] && (OfFailedRun(ix', id) <==> OfFailedRun(ix, id))
  {
    forall id | id in ix.chunks && ix.chunks[id].project == project
      ensures id in ix'.chunks && ix'.chunks[id] == ix.chunks[id] && (OfFailedRun(ix', id) <==> OfFailedRun(ix, id))
    {
      assert id.scope == ScopeHash(project) && RunOfOwnProject(ix, id);
    }
  }

  lemma SameViews(ix: Index, ix': Index, project: string)
    requires Keyed(ix) && Keyed(ix') && SameProject(ix, ix', project)
    ensures ChunkView(ix', ScopeHash(project)) == ChunkView(ix, ScopeHash(project))
    ensures VectorView(ix', ScopeHash(project)) == VectorView(ix, ScopeHash(project))
  {
  }

  /**
   * Over any stretch of any history without a call for a project, whatever happens to others, its manifest rows,
   * chunks, vectors and runs stay as they were, and so does what its next rebuild would select.
   */
  lemma OtherProjectsStay(states: seq<Index>, ops: seq<Op>, slicer: Slicer, i: nat, j: nat, project: string)
    requires IsHistory(states, ops, slicer) && i <= j < |states|
    requires forall k :: i <= k < j ==> ProjectOf(ops[k]) != project
    ensures SameProject(states[i], states[j], project)
    ensures ToRebuild(states[j], project) == ToRebuild(states[i], project)
    ensures ChunkView(states[j], ScopeHash(project)) == ChunkView(states[i], ScopeHash(project))
    ensures VectorView(states[j], ScopeHash(project)) == VectorView(states[i], ScopeHash(project))
  {
    forall k | i < k <= j ensures SameProject(states[k - 1], states[k], project) {
      NextSparesOthers(states, ops, slicer, k, project);
    }
    SameOverStates(states, i, j, project);
    HistoriesAreRooted(states, ops, slicer, i);
    HistoriesAreRooted(states, ops, slicer, j);
    SameSelection(states[i], states[j], project);
  }

  lemma NextSparesOthers(states: seq<Index>, ops: seq<Op>, slicer: Slicer, k: nat, project: string)
    requires IsHistory(states, ops, slicer) && 0 < k < |states| && ProjectOf(ops[k - 1]) != project
    ensures SameProject(states[k - 1], states[k], project)
  {
    HistoriesAreRooted(states, ops, slicer, k - 1);
    assert Step(states[k - 1], slicer, ops[k - 1], states[k - 1 + 1]);
    StepSparesOthers(states[k - 1], slicer, ops[k - 1], states[k], project);
  }

  lemma {:induction false} SameOverStates(states: seq<Index>, i: nat, j: nat, project: string)
    requires i <= j < |states| && forall k :: i < k <= j ==> SameProject(states[k - 1], states[k], project)
    ensures SameProject(states[i], states[j], project)
    decreases j
  {
    if i == j {
      NothingChanged(states[i], project);
    } else {
      SameOverStates(states, i, j - 1, project);
      SameTwice(states[i], states[j - 1], states[j], project);
    }
  }
}
