/** orchestrator/ingest/service.py over both stores, updating them in place. */
module IngestService {
  import opened IngestAgreement
  import opened IngestIndex
  import opened PythonText
  import opened Wrappers

  datatype Report = Report(chunksIndexed: nat, filesSkipped: nat, filesRemoved: nat)

  class IngestTargetService {
    const slicer: Slicer
    var files: map<(Scope, Path), Digest>
    var chunks: map<ChunkId, ChunkRow>
    var runs: map<RunId, Run>
    var vectors: map<ChunkId, VectorRow>

    function Snapshot(): Index
      reads this
    {
      Index(files, chunks, runs, vectors)
    }

    constructor (slicer: Slicer)
      ensures this.slicer == slicer && Snapshot() == EMPTY
    {
      this.slicer := slicer;
      files, chunks, runs, vectors := map[], map[], map[], map[];
    }

    method DeletePath(scope: Scope, path: Path)
      modifies `chunks, `vectors
      ensures Snapshot() == DropPath(old(Snapshot()), scope, path)
    {
      chunks := map id | id in chunks && !(chunks[id].scope == scope && chunks[id].path == path) :: chunks[id];
      vectors := map id | id in vectors && !(vectors[id].scope == scope && vectors[id].path == path) :: vectors[id];
    }

    /** The manifests and both kinds of rows of files that are gone. */
    method RemoveStale(scope: Scope, stale: set<Path>) returns (removed: nat)
      modifies `files, `chunks, `vectors
      ensures Snapshot() == DropFiles(old(Snapshot()), scope, stale) && removed == |stale|
    {
      var rest := stale;
      removed := 0;
      assert Snapshot() == DropFiles(Snapshot(), scope, {});
      while rest != {}
        invariant rest <= stale && removed == |stale| - |rest|
        invariant Snapshot() == DropFiles(old(Snapshot()), scope, stale - rest)
      {
        var path :| path in rest;
        files := files - {(scope, path)};
        DeletePath(scope, path);
        OneMoreStale(old(Snapshot()), scope, stale - rest, path);
        assert stale - (rest - {path}) == stale - rest + {path};
        rest := rest - {path};
        removed := removed + 1;
      }
      assert stale - rest == stale;
    }

    /** One iteration of the loop over the files. */
    method HandleFile(project: string, runId: RunId, src: Source, force: bool, ghost was: Progress)
      returns (fault: Option<Fault>, indexed: nat, skipped: nat)
      requires was.ix == Snapshot() && was.fault == None
      modifies `files, `chunks, `vectors
      ensures IngestFile(was, slicer, project, runId, src, force)
           == Progress(Snapshot(), fault, was.indexed + indexed, was.skipped + skipped)
    {
      fault, indexed, skipped := None, 0, 0;
      var scope := ScopeHash(project);
      if src.metadataFails {
        return Some(OtherFault), 0, 0;
      }
      var previous := (scope, src.path) in files;
      if previous && files[(scope, src.path)] == Sha256(src.content) && !force {
        return None, 0, 1;
      }
      if force || previous {
        DeletePath(scope, src.path);
      }
      var made := slicer(src.path, src.content);
      if made.None? {
        return Some(OtherFault), 0, 0;
      }
      if made.value == [] {
        return;
      }
      fault := StoreRows(project, runId, src, made.value, was.(ix := Snapshot()));
      indexed := if fault.Some? then 0 else |made.value|;
    }

    /** The rows of a file with chunks, and then its vectors. */
    method StoreRows(project: string, runId: RunId, src: Source, made: seq<Chunk>, ghost was: Progress)
      returns (fault: Option<Fault>)
      requires was.ix == Snapshot() && was.fault == None
      modifies `files, `chunks, `vectors
      ensures StoreFile(was, project, runId, src, made)
           == Progress(Snapshot(), fault, was.indexed + if fault.Some? then 0 else |made|, was.skipped)
    {
      RecordFile(project, runId, src.path, src.content, made);
      var ok := UpsertChunks(IdsOf(ScopeHash(project), src.path, made), src.upsertFails);
      fault := if ok then None else Some(VectorFault);
    }

    /** `record_file_manifest`, then `record_chunks`. */
    method RecordFile(project: string, runId: RunId, path: Path, content: Content, made: seq<Chunk>)
      modifies `files, `chunks
      ensures Snapshot() == Store(old(Snapshot()), project, runId, path, content, made)
    {
      var scope := ScopeHash(project);
      files := files[(scope, path) := Sha256(content)];
      chunks := chunks + map id | id in IdsOf(scope, path, made) :: ChunkRow(project, scope, path, runId, id.content);
    }

    /** `upsert_chunks`: all chunks are embedded before any is stored; false stands for its exception. */
    method UpsertChunks(ids: set<ChunkId>, upsertFails: bool) returns (ok: bool)
      modifies `vectors
      ensures ok <==> CanUpsert(ids) && !upsertFails
      ensures Snapshot() == if ok then Upsert(old(Snapshot()), ids) else old(Snapshot())
    {
      if ids == {} {
        return false;
      }
      var rest := ids;
      while rest != {}
        invariant rest <= ids && Embeddable(ids - rest)
      {
        var id :| id in rest;
        if Blank(id.content) {
          return false;
        }
        rest := rest - {id};
      }
      assert ids - rest == ids;
      if upsertFails {
        return false;
      }
      vectors := vectors + map id | id in ids :: VectorRow(id.scope, id.path, id.content);
      ok := true;
    }

    method LatestRun(project: string) returns (latest: RunId)
      requires exists r :: r in runs && runs[r].project == project
      ensures IsLatest(Snapshot(), project, latest)
    {
      latest :| latest in runs && runs[latest].project == project;
      var rest := runs.Keys;
      while rest != {}
        invariant rest <= runs.Keys && latest in runs && runs[latest].project == project
        invariant forall r :: r in runs && r !in rest && runs[r].project == project ==>
            runs[r].startedAt <= runs[latest].startedAt
      {
        var r :| r in rest;
        if runs[r].project == project && runs[r].startedAt > runs[latest].startedAt {
          latest := r;
        }
        rest := rest - {r};
      }
    }

    /** `ingest_target`; an error is the exception that leaves the call. */
    method IngestTarget(call: Call) returns (r: Result<Report, Fault>)
      modifies this
      ensures Ingests(old(Snapshot()), slicer, call, Snapshot())
      ensures var p := Work(old(Snapshot()), slicer, call);
              && (r.Ok? <==> p.fault.None?)
              && (r.Ok? ==> r.value.chunksIndexed == p.indexed && r.value.filesSkipped == p.skipped)
              && (r.Err? ==> p.fault == Some(r.error))
      ensures var stale := StalePaths(old(Snapshot()), ScopeHash(call.project), PathsOf(call.sources));
              r.Ok? ==> r.value.filesRemoved == (if call.directory then |stale| else 0)
    {
      ghost var before := Snapshot();
      var runId, scope := RunId(call.project, call.target), ScopeHash(call.project);
      runs := runs[runId := Run(call.project, Running, call.now)];
      var removed := 0;
      if call.directory {
        removed := RemoveStale(scope, StalePaths(Snapshot(), scope, PathsOf(call.sources)));
      }
      assert Snapshot() == Begin(before, call);
      AllFiles(before, slicer, call);
      var fault, indexed, skipped := HandleFiles(call);
      if fault.Some? {
        Recover(call.project, runId, fault.value);
        return Err(fault.value);
      }
      runs := runs[runId := runs[runId].(state := Completed)];
      r := Ok(Report(indexed, skipped, removed));
    }

    /** The loop over the files, left at the first fault. */
    method HandleFiles(call: Call) returns (fault: Option<Fault>, indexed: nat, skipped: nat)
      modifies `files, `chunks, `vectors
      ensures FirstFiles(old(Snapshot()), slicer, call, |call.sources|) == Progress(Snapshot(), fault, indexed, skipped)
    {
      ghost var begun := Snapshot();
      fault, indexed, skipped := None, 0, 0;
      for k := 0 to |call.sources|
        invariant FirstFiles(begun, slicer, call, k) == Progress(Snapshot(), None, indexed, skipped)
        invariant fault == None
      {
        fault, indexed, skipped := HandleNext(call, k, indexed, skipped, begun);
        if fault.Some? {
          FaultStops(begun, slicer, call, k + 1);
          return;
        }
      }
    }

    /** One iteration, and the counters after it. */
    method HandleNext(call: Call, k: nat, indexed: nat, skipped: nat, ghost begun: Index)
      returns (fault: Option<Fault>, indexed': nat, skipped': nat)
      requires k < |call.sources| && FirstFiles(begun, slicer, call, k) == Progress(Snapshot(), None, indexed, skipped)
      modifies `files, `chunks, `vectors
      ensures FirstFiles(begun, slicer, call, k + 1) == Progress(Snapshot(), fault, indexed', skipped')
    {
      NextFile(begun, slicer, call, k);
      var i, s;
      fault, i, s := HandleFile(call.project, RunId(call.project, call.target), call.sources[k], call.force,
                                Progress(Snapshot(), None, indexed, skipped));
      indexed', skipped' := indexed + i, skipped + s;
    }

    /** The exception handlers of `ingest_target`. */
    method Recover(project: string, runId: RunId, fault: Fault)
      requires runId in runs && runs[runId].project == project
      modifies `runs
      ensures exists latest :: (IsLatest(old(Snapshot()), project, latest) &&
                                Snapshot() == Handle(old(Snapshot()), runId, fault, latest))
    {
      if fault == VectorFault {
        runs := runs[runId := runs[runId].(state := FailedVectorUpsert)];
      }
      assert runs[runId].project == project;
      var latest := LatestRun(project);
      assert IsLatest(old(Snapshot()), project, latest) by {
        assert forall r :: r in old(runs) ==>
            r in runs && runs[r].startedAt == old(runs)[r].startedAt && runs[r].project == old(runs)[r].project;
      }
      if runs[latest].state != FailedVectorUpsert {
        runs := runs[runId := runs[runId].(state := Failed)];
      }
    }

    /** `rebuild_chroma_for_project`; false stands for the exception of the vector store. */
    method RebuildChromaForProject(project: string, upsertFails: bool) returns (ok: bool)
      modifies `vectors, `runs
      ensures Step(old(Snapshot()), slicer, RebuildVectors(project, upsertFails), Snapshot())
      ensures ok <==> !upsertFails && CanUpsert(ToRebuild(old(Snapshot()), project))
    {
      var ids := RebuildableChunks(Snapshot(), project);
      if ids == {} {
        ids := ProjectChunks(Snapshot(), project);
      }
      ok := UpsertChunks(ids, upsertFails);
      if !ok {
        return;
      }
      runs := map r | r in runs ::
        if runs[r].project == project && (runs[r].state == Failed || runs[r].state == FailedVectorUpsert)
        then runs[r].(state := Reconciled) else runs[r];
    }
  }

  lemma OneMoreStale(ix: Index, scope: Scope, gone: set<Path>, path: Path)
    ensures DropFile(DropFiles(ix, scope, gone), scope, path) == DropFiles(ix, scope, gone + {path})
  {
  }

  /** What the first `k` files of a call come to. */
  function FirstFiles(ix: Index, slicer: Slicer, call: Call, k: nat): Progress
    requires k <= |call.sources|
  {
    IngestFiles(ix, slicer, call.project, RunId(call.project, call.target), call.sources[..k], call.force)
  }

  lemma NextFile(ix: Index, slicer: Slicer, call: Call, k: nat)
    requires k < |call.sources|
    ensures var p := FirstFiles(ix, slicer, call, k);
            FirstFiles(ix, slicer, call, k + 1) ==
            if p.fault.Some? then p
            else IngestFile(p, slicer, call.project, RunId(call.project, call.target), call.sources[k], call.force)
  {
    assert call.sources[..k + 1][..k] == call.sources[..k];
  }

  /** Once a file has failed the later ones are not looked at. */
  lemma {:induction false} FaultStops(ix: Index, slicer: Slicer, call: Call, k: nat)
    requires k <= |call.sources| && FirstFiles(ix, slicer, call, k).fault.Some?
    ensures FirstFiles(ix, slicer, call, |call.sources|) == FirstFiles(ix, slicer, call, k)
    decreases |call.sources| - k
  {
    if k < |call.sources| {
      NextFile(ix, slicer, call, k);
      FaultStops(ix, slicer, call, k + 1);
    }
  }

  lemma AllFiles(ix: Index, slicer: Slicer, call: Call)
    ensures FirstFiles(Begin(ix, call), slicer, call, |call.sources|) == Work(ix, slicer, call)
  {
    assert call.sources[..|call.sources|] == call.sources;
  }
}
