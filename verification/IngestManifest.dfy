/** What the file manifest promises about the chunk table, and when it does not. */
module IngestManifest {
  import opened IngestAgreement
  import opened IngestIndex

  // Foreign keys

  /** Chunks refer to a manifest row and to a run of their own project. */
  ghost predicate Rooted(ix: Index) {
    && Keyed(ix)
    && (forall id :: id in ix.chunks ==> (id.scope, id.path) in ix.files && RunOfOwnProject(ix, id))
  }

  lemma DropKeepsRooted(ix: Index, scope: Scope, path: Path)
    requires Rooted(ix)
    ensures Rooted(DropPath(ix, scope, path))
  {
  }

  lemma StoreKeepsRooted(ix: Index, project: string, runId: RunId, path: Path, content: Content, chunks: seq<Chunk>)
    requires Rooted(ix) && runId in ix.runs && ix.runs[runId].project == project
    ensures Rooted(Store(ix, project, runId, path, content, chunks))
  {
  }

  lemma UpsertKeepsRooted(ix: Index, ids: set<ChunkId>)
    requires Rooted(ix)
    ensures Rooted(Upsert(ix, ids))
  {
  }

  lemma FileKeepsRooted(p: Progress, slicer: Slicer, project: string, runId: RunId, src: Source, force: bool)
    requires Rooted(p.ix) && runId in p.ix.runs && p.ix.runs[runId].project == project
    ensures Rooted(IngestFile(p, slicer, project, runId, src, force).ix)
  {
    DropKeepsRooted(p.ix, ScopeHash(project), src.path);
    var cleared := p.(ix := Cleared(p.ix, project, src, force));
    if slicer(src.path, src.content).Some? {
      StoringKeepsRooted(cleared, project, runId, src, slicer(src.path, src.content).value);
    }
  }

  lemma StoringKeepsRooted(p: Progress, project: string, runId: RunId, src: Source, chunks: seq<Chunk>)
    requires Rooted(p.ix) && runId in p.ix.runs && p.ix.runs[runId].project == project
    ensures Rooted(StoreFile(p, project, runId, src, chunks).ix)
  {
    StoreKeepsRooted(p.ix, project, runId, src.path, src.content, chunks);
    UpsertKeepsRooted(Store(p.ix, project, runId, src.path, src.content, chunks),
                      IdsOf(ScopeHash(project), src.path, chunks));
  }

  lemma {:induction false} FilesKeepRooted(ix: Index, slicer: Slicer, project: string, runId: RunId,
                                           sources: seq<Source>, force: bool)
    requires Rooted(ix) && runId in ix.runs && ix.runs[runId].project == project
    ensures Rooted(IngestFiles(ix, slicer, project, runId, sources, force).ix)
  {
    if sources != [] {
      var front := sources[..|sources| - 1];
      FilesKeepRooted(ix, slicer, project, runId, front, force);
      FilesKeepRuns(ix, slicer, project, runId, front, force);
      FileKeepsRooted(IngestFiles(ix, slicer, project, runId, front, force), slicer, project, runId,
          sources[|sources| - 1], force);
    }
  }

  /** A run id determines its project. */
  ghost predicate RunsNamed(ix: Index) {
    forall r :: r in ix.runs ==> ix.runs[r].project == r.project
  }

  lemma StartKeepsRooted(ix: Index, project: string, target: Path, now: int)
    requires Rooted(ix) && RunsNamed(ix)
    ensures Rooted(StartRun(ix, project, target, now)) && RunsNamed(StartRun(ix, project, target, now))
  {
  }

  lemma BeginKeepsRooted(ix: Index, call: Call)
    requires Rooted(ix) && RunsNamed(ix)
    ensures Rooted(Begin(ix, call)) && RunsNamed(Begin(ix, call))
        && RunId(call.project, call.target) in Begin(ix, call).runs
  {
    StartKeepsRooted(ix, call.project, call.target, call.now);
  }

  lemma IngestKeepsRooted(ix: Index, slicer: Slicer, call: Call, ix': Index)
    requires Rooted(ix) && RunsNamed(ix) && Ingests(ix, slicer, call, ix')
    ensures Rooted(ix') && RunsNamed(ix')
  {
    var begun, runId := Begin(ix, call), RunId(call.project, call.target);
    BeginKeepsRooted(ix, call);
    FilesKeepRooted(begun, slicer, call.project, runId, call.sources, call.force);
    FilesKeepRuns(begun, slicer, call.project, runId, call.sources, call.force);
    OnlyRunStatesDiffer(ix, slicer, call, ix');
    HandlersKeepRooted(Work(ix, slicer, call).ix, ix');
  }

  /** The two states differ in run states only. */
  ghost predicate SameButRunStates(ix: Index, ix': Index) {
    && ix'.files == ix.files && ix'.chunks == ix.chunks && ix'.vectors == ix.vectors
    && ix'.runs.Keys == ix.runs.Keys
    && forall r :: r in ix.runs ==> ix'.runs[r].project == ix.runs[r].project
  }

  lemma HandlingChangesRunStates(ix: Index, runId: RunId, fault: Fault, latest: RunId)
    requires runId in ix.runs && latest in ix.runs
    ensures SameButRunStates(ix, Handle(ix, runId, fault, latest))
  {
  }

  lemma OnlyRunStatesDiffer(ix: Index, slicer: Slicer, call: Call, ix': Index)
    requires Ingests(ix, slicer, call, ix')
    ensures SameButRunStates(Work(ix, slicer, call).ix, ix')
  {
    var p, runId := Work(ix, slicer, call), RunId(call.project, call.target);
    if p.fault.Some? {
      var latest :| IsLatest(p.ix, call.project, latest) && ix' == Handle(p.ix, runId, p.fault.value, latest);
      HandlingChangesRunStates(p.ix, runId, p.fault.value, latest);
    }
  }

  lemma StepKeepsRooted(ix: Index, slicer: Slicer, op: Op, ix': Index)
    requires Rooted(ix) && RunsNamed(ix) && Step(ix, slicer, op, ix')
    ensures Rooted(ix') && RunsNamed(ix')
  {
    match op
    case Ingest(call) => IngestKeepsRooted(ix, slicer, call, ix');
    case RebuildVectors(project, _) =>
      UpsertKeepsRooted(ix, ToRebuild(ix, project));
      HandlersKeepRooted(Upsert(ix, ToRebuild(ix, project)), Rebuild(ix, project));
  }

  /** Changing run states only. */
  lemma HandlersKeepRooted(ix: Index, ix': Index)
    requires Rooted(ix) && RunsNamed(ix) && SameButRunStates(ix, ix')
    ensures Rooted(ix') && RunsNamed(ix')
  {
  }

  lemma {:induction false} HistoriesAreRooted(states: seq<Index>, ops: seq<Op>, slicer: Slicer, i: nat)
    requires IsHistory(states, ops, slicer) && i < |states|
    ensures Rooted(states[i]) && RunsNamed(states[i])
  {
    if i > 0 {
      HistoriesAreRooted(states, ops, slicer, i - 1);
      StepKeepsRooted(states[i - 1], slicer, ops[i - 1], states[i]);
    }
  }

  /**
   * Clearing a file that was forced leaves nothing of it, whatever was stored. At no moment of a history does that
   * remove anything of a file the manifest does not know.
   */
  lemma ForceClearsExactly(states: seq<Index>, ops: seq<Op>, slicer: Slicer, i: nat, project: string, src: Source)
    requires IsHistory(states, ops, slicer) && i < |states|
    ensures forall ix: Index :: ClearOf(Cleared(ix, project, src, true), ScopeHash(project), src.path)
    ensures (ScopeHash(project), src.path) !in states[i].files ==> Cleared(states[i], project, src, true) == states[i]
  {
    VectorsStayContained(states, ops, slicer, i);
    HistoriesAreRooted(states, ops, slicer, i);
    if (ScopeHash(project), src.path) !in states[i].files {
      UnknownFilesAreClear(states[i], ScopeHash(project), src.path);
    }
  }

  ghost predicate ClearOf(ix: Index, scope: Scope, path: Path) {
    && (forall id :: id in ix.chunks ==> !(ix.chunks[id].scope == scope && ix.chunks[id].path == path))
    && (forall id :: id in ix.vectors ==> !(ix.vectors[id].scope == scope && ix.vectors[id].path == path))
  }

  lemma UnknownFilesAreClear(ix: Index, scope: Scope, path: Path)
    requires Rooted(ix) && Contained(ix) && (scope, path) !in ix.files
    ensures ClearOf(ix, scope, path) && DropPath(ix, scope, path) == ix
  {
    assert ClearOf(ix, scope, path);
    assert DropPath(ix, scope, path).chunks == ix.chunks && DropPath(ix, scope, path).vectors == ix.vectors;
  }

  /**
   * At every moment of every history, faults included, two rebuilds made while the vector store works restore a
   * project that has chunks, exactly when none of its chunks is blank.
   */
  lemma RecoveryFromAnyHistory(states: seq<Index>, ops: seq<Op>, slicer: Slicer, i: nat, project: string)
    requires IsHistory(states, ops, slicer) && i < |states| && ProjectChunks(states[i], project) != {}
    ensures var twice := Attempt(Attempt(states[i], project, false), project, false);
            && ChunkView(twice, ScopeHash(project)) == ChunkView(states[i], ScopeHash(project))
            && (VectorView(twice, ScopeHash(project)) == ChunkView(twice, ScopeHash(project))
                <==> Embeddable(ProjectChunks(states[i], project)))
  {
    VectorsStayContained(states, ops, slicer, i);
    HistoriesAreRooted(states, ops, slicer, i);
    VectorsAreNeverBlank(states, ops, slicer, i);
    TwoAttemptsRestoreExactly(states[i], project);
  }

  // Faithful manifest rows

  function ChunksAt(ix: Index, key: (Scope, Path)): set<ChunkId> {
    set id | id in ix.chunks && At(id, key.0, key.1)
  }

  predicate Sliceable(slicer: Slicer, path: Path, content: Content) {
    slicer(path, content).Some? && slicer(path, content).value != []
  }

  /** The stored chunks of a manifest row are exactly the chunks of the content the row records. */
  ghost predicate Faithful(ix: Index, slicer: Slicer, key: (Scope, Path))
    requires key in ix.files
  {
    var content := ix.files[key].preimage;
    slicer(key.1, content).Some? && ChunksAt(ix, key) == IdsOf(key.0, key.1, slicer(key.1, content).value)
  }

  /** Only content that yields chunks is ever recorded. */
  ghost predicate RecordsSliceable(ix: Index, slicer: Slicer) {
    forall key :: key in ix.files ==> Sliceable(slicer, key.1, ix.files[key].preimage)
  }

  /** The old chunks of a known file are removed and its new content, or its processor, gives none back. */
  predicate LosesChunks(ix: Index, slicer: Slicer, project: string, src: Source, force: bool) {
    && (ScopeHash(project), src.path) in ix.files
    && !src.metadataFails && (force || !Unchanged(ix, project, src))
    && !Sliceable(slicer, src.path, src.content)
  }

  lemma DropPathDropsExactly(ix: Index, key: (Scope, Path), other: (Scope, Path))
    requires Keyed(ix)
    ensures ChunksAt(DropPath(ix, key.0, key.1), other) == if other == key then {} else ChunksAt(ix, other)
  {
  }

  lemma StoreAddsExactly(ix: Index, project: string, runId: RunId, path: Path, content: Content, chunks: seq<Chunk>,
                         other: (Scope, Path))
    ensures ChunksAt(Store(ix, project, runId, path, content, chunks), other)
         == ChunksAt(ix, other) +
            if other == (ScopeHash(project), path) then IdsOf(ScopeHash(project), path, chunks) else {}
  {
  }

  /** The file is processed at all. */
  predicate Touched(ix: Index, project: string, src: Source, force: bool) {
    !src.metadataFails && (force || !Unchanged(ix, project, src))
  }

  /** What handling one file does to the manifest row and the chunks of any file. */
  lemma FileEffect(p: Progress, slicer: Slicer, project: string, runId: RunId, src: Source, force: bool,
                   key: (Scope, Path))
    requires Rooted(p.ix)
    ensures var ix, ix' := p.ix, IngestFile(p, slicer, project, runId, src, force).ix;
            if key != (ScopeHash(project), src.path) || !Touched(ix, project, src, force) then
              ChunksAt(ix', key) == ChunksAt(ix, key) && (key in ix'.files <==> key in ix.files)
              && (key in ix.files ==> ix'.files[key] == ix.files[key])
            else if Sliceable(slicer, src.path, src.content) then
              ChunksAt(ix', key) == IdsOf(key.0, key.1, slicer(src.path, src.content).value)
              && key in ix'.files && ix'.files[key] == Sha256(src.content)
            else ChunksAt(ix', key) == {} && ix'.files == ix.files
  {
    if Touched(p.ix, project, src, force) {
      var cleared := p.(ix := Cleared(p.ix, project, src, force));
      ClearedEffect(p.ix, project, src, force, key);
      if Sliceable(slicer, src.path, src.content) {
        StoringEffect(cleared, project, runId, src, slicer(src.path, src.content).value, key);
      }
    }
  }

  lemma ClearedEffect(ix: Index, project: string, src: Source, force: bool, key: (Scope, Path))
    requires Rooted(ix)
    ensures var cleared := Cleared(ix, project, src, force);
            && cleared.files == ix.files
            && ChunksAt(cleared, key) == if key == (ScopeHash(project), src.path) then {} else ChunksAt(ix, key)
  {
    var own := (ScopeHash(project), src.path);
    DropPathDropsExactly(ix, own, key);
    assert own !in ix.files ==> ChunksAt(ix, own) == {};
  }

  lemma StoringEffect(p: Progress, project: string, runId: RunId, src: Source, chunks: seq<Chunk>, key: (Scope, Path))
    ensures var ix', own := StoreFile(p, project, runId, src, chunks).ix, (ScopeHash(project), src.path);
            && ix'.files == p.ix.files[own := Sha256(src.content)] && ix'.runs == p.ix.runs
            && ChunksAt(ix', key) == ChunksAt(p.ix, key) + if key == own then IdsOf(own.0, own.1, chunks) else {}
  {
    StoreAddsExactly(p.ix, project, runId, src.path, src.content, chunks, key);
    var stored := Store(p.ix, project, runId, src.path, src.content, chunks);
    assert ChunksAt(Upsert(stored, IdsOf(ScopeHash(project), src.path, chunks)), key) == ChunksAt(stored, key);
  }

  /** Handling one file leaves its manifest row faithful unless it loses its chunks, and other rows as they were. */
  lemma FileFaithfulExactly(p: Progress, slicer: Slicer, project: string, runId: RunId, src: Source, force: bool,
                            key: (Scope, Path))
    requires Rooted(p.ix) && RecordsSliceable(p.ix, slicer) && (key in p.ix.files ==> Faithful(p.ix, slicer, key))
    ensures var p' := IngestFile(p, slicer, project, runId, src, force);
            var lost := key == (ScopeHash(project), src.path) && LosesChunks(p.ix, slicer, project, src, force);
            key in p'.ix.files ==> (Faithful(p'.ix, slicer, key) <==> !lost)
  {
    FileEffect(p, slicer, project, runId, src, force, key);
    if key in p.ix.files {
      SomeChunk(key, slicer(key.1, p.ix.files[key].preimage).value);
    }
  }

  lemma FileRecordsSliceable(p: Progress, slicer: Slicer, project: string, runId: RunId, src: Source, force: bool)
    requires RecordsSliceable(p.ix, slicer)
    ensures RecordsSliceable(IngestFile(p, slicer, project, runId, src, force).ix, slicer)
  {
    if Touched(p.ix, project, src, force) && Sliceable(slicer, src.path, src.content) {
      var cleared := p.(ix := Cleared(p.ix, project, src, force));
      StoringRecordsContent(cleared, project, runId, src, slicer(src.path, src.content).value);
    }
  }

  lemma StoringRecordsContent(p: Progress, project: string, runId: RunId, src: Source, chunks: seq<Chunk>)
    ensures StoreFile(p, project, runId, src, chunks).ix.files
         == p.ix.files[(ScopeHash(project), src.path) := Sha256(src.content)]
  {
  }

  lemma SomeChunk(key: (Scope, Path), chunks: seq<Chunk>)
    requires chunks != []
    ensures IdsOf(key.0, key.1, chunks) != {}
  {
    var c := chunks[0];
    assert ChunkId(key.0, key.1, c.index, c.processor, c.content) in IdsOf(key.0, key.1, chunks);
  }

  ghost predicate AllFaithful(ix: Index, slicer: Slicer) {
    && Rooted(ix) && RunsNamed(ix) && RecordsSliceable(ix, slicer)
    && forall key :: key in ix.files ==> Faithful(ix, slicer, key)
  }

  predicate AllSliceable(sources: seq<Source>, slicer: Slicer) {
    forall src :: src in sources ==> Sliceable(slicer, src.path, src.content)
  }

  lemma FileKeepsFaithful(p: Progress, slicer: Slicer, project: string, runId: RunId, src: Source, force: bool)
    requires AllFaithful(p.ix, slicer) && Sliceable(slicer, src.path, src.content)
    requires runId in p.ix.runs && p.ix.runs[runId].project == project
    ensures AllFaithful(IngestFile(p, slicer, project, runId, src, force).ix, slicer)
  {
    var p' := IngestFile(p, slicer, project, runId, src, force);
    FileKeepsRooted(p, slicer, project, runId, src, force);
    FileRecordsSliceable(p, slicer, project, runId, src, force);
    FileKeepsRuns(p, slicer, project, runId, src, force);
    forall key | key in p'.ix.files ensures Faithful(p'.ix, slicer, key) {
      FileStaysFaithful(p, slicer, project, runId, src, force, key);
    }
  }

  lemma FileStaysFaithful(p: Progress, slicer: Slicer, project: string, runId: RunId, src: Source, force: bool,
                          key: (Scope, Path))
    requires AllFaithful(p.ix, slicer) && Sliceable(slicer, src.path, src.content)
    requires key in IngestFile(p, slicer, project, runId, src, force).ix.files
    ensures Faithful(IngestFile(p, slicer, project, runId, src, force).ix, slicer, key)
  {
    FileFaithfulExactly(p, slicer, project, runId, src, force, key);
  }

  lemma {:induction false} FilesKeepFaithful(ix: Index, slicer: Slicer, project: string, runId: RunId,
                                             sources: seq<Source>, force: bool)
    requires AllFaithful(ix, slicer) && AllSliceable(sources, slicer)
    requires runId in ix.runs && ix.runs[runId].project == project
    ensures AllFaithful(IngestFiles(ix, slicer, project, runId, sources, force).ix, slicer)
  {
    if sources != [] {
      var front := sources[..|sources| - 1];
      FilesKeepFaithful(ix, slicer, project, runId, front, force);
      FilesKeepRuns(ix, slicer, project, runId, front, force);
      FileKeepsFaithful(IngestFiles(ix, slicer, project, runId, front, force), slicer, project, runId,
          sources[|sources| - 1], force);
    }
  }

  lemma DropFilesKeepsFaithful(ix: Index, slicer: Slicer, scope: Scope, paths: set<Path>)
    requires AllFaithful(ix, slicer)
    ensures AllFaithful(DropFiles(ix, scope, paths), slicer)
  {
    var ix' := DropFiles(ix, scope, paths);
    forall key | key in ix'.files ensures Faithful(ix', slicer, key) {
      assert Faithful(ix, slicer, key);
      assert ChunksAt(ix', key) == ChunksAt(ix, key);
    }
  }

  lemma SameTablesSameFaithful(ix: Index, ix': Index, slicer: Slicer)
    requires AllFaithful(ix, slicer) && ix'.files == ix.files && ix'.chunks == ix.chunks
    requires Rooted(ix') && RunsNamed(ix')
    ensures AllFaithful(ix', slicer)
  {
    forall key | key in ix'.files ensures Faithful(ix', slicer, key) {
      assert ChunksAt(ix', key) == ChunksAt(ix, key);
    }
  }

  lemma StepKeepsFaithful(ix: Index, slicer: Slicer, op: Op, ix': Index)
    requires AllFaithful(ix, slicer) && Step(ix, slicer, op, ix')
    requires op.Ingest? ==> AllSliceable(op.call.sources, slicer)
    ensures AllFaithful(ix', slicer)
  {
    StepKeepsRooted(ix, slicer, op, ix');
    match op
    case Ingest(call) =>
      var started := StartRun(ix, call.project, call.target, call.now);
      StartKeepsRooted(ix, call.project, call.target, call.now);
      SameTablesSameFaithful(ix, started, slicer);
      DropFilesKeepsFaithful(started, slicer, ScopeHash(call.project),
          StalePaths(started, ScopeHash(call.project), PathsOf(call.sources)));
      FilesKeepFaithful(Begin(ix, call), slicer, call.project, RunId(call.project, call.target), call.sources,
          call.force);
      OnlyRunStatesDiffer(ix, slicer, call, ix');
      SameTablesSameFaithful(Work(ix, slicer, call).ix, ix', slicer);
    case RebuildVectors(project, _) =>
      SameTablesSameFaithful(ix, ix', slicer);
  }

  /**
   * As long as every file met yields chunks, each manifest row's chunks are exactly the chunks of the
   * content it records, whatever vector upserts or metadata reads fail.
   */
  lemma {:induction false} ManifestIsFaithful(states: seq<Index>, ops: seq<Op>, slicer: Slicer, i: nat)
    requires IsHistory(states, ops, slicer) && i < |states|
    requires forall op :: op in ops && op.Ingest? ==> AllSliceable(op.call.sources, slicer)
    ensures AllFaithful(states[i], slicer)
  {
    if i > 0 {
      ManifestIsFaithful(states, ops, slicer, i - 1);
      assert ops[i - 1] in ops;
      StepKeepsFaithful(states[i - 1], slicer, ops[i - 1], states[i]);
    }
  }

  // Directories

  lemma {:induction false} FilesRecordExactly(ix: Index, slicer: Slicer, project: string, runId: RunId,
                                              sources: seq<Source>, force: bool, key: (Scope, Path))
    requires IngestFiles(ix, slicer, project, runId, sources, force).fault.None?
    ensures key in IngestFiles(ix, slicer, project, runId, sources, force).ix.files <==>
            || key in ix.files
            || (key.0 == ScopeHash(project) &&
                exists src :: src in sources && src.path == key.1 && Sliceable(slicer, src.path, src.content))
  {
    if sources != [] {
      var front, last := sources[..|sources| - 1], sources[|sources| - 1];
      FilesRecordExactly(ix, slicer, project, runId, front, force, key);
      assert forall src :: src in sources <==> src in front || src == last;
    }
  }

  /** After a directory was ingested without a fault the manifest holds just its files, save new ones without chunks. */
  lemma DirectoryManifestExactly(ix: Index, slicer: Slicer, call: Call, ix': Index, path: Path)
    requires Ingests(ix, slicer, call, ix') && call.directory && Work(ix, slicer, call).fault.None?
    ensures (ScopeHash(call.project), path) in ix'.files <==>
            path in PathsOf(call.sources) &&
            ((ScopeHash(call.project), path) in ix.files
             || exists src :: src in call.sources && src.path == path && Sliceable(slicer, src.path, src.content))
    ensures AllSliceable(call.sources, slicer) ==>
        ((ScopeHash(call.project), path) in ix'.files <==> path in PathsOf(call.sources))
  {
    var key := (ScopeHash(call.project), path);
    FilesRecordExactly(Begin(ix, call), slicer, call.project, RunId(call.project, call.target), call.sources,
        call.force, key);
    assert key in Begin(ix, call).files <==> key in ix.files && path in PathsOf(call.sources);
  }
}
