/**
 * The ingestion tables of the queue database and the vector collection beside them
 * (orchestrator/ingest/service.py, queue_repo.py, chroma_manager.py), as values.
 */
module IngestIndex {
  import opened PythonText
  import opened Wrappers

  type Path = string

  type Content = string

  // Hashes are collision-free: they are modelled by what they hash.

  datatype Digest = Sha256(preimage: Content)

  datatype Scope = ScopeHash(project: string)

  datatype ChunkId = ChunkId(scope: Scope, path: Path, index: int, processor: string, content: Content)

  datatype RunId = RunId(project: string, target: Path)

  datatype Chunk = Chunk(index: int, processor: string, content: Content)

  datatype RunState = Running | Completed | Failed | FailedVectorUpsert | Reconciled

  datatype Run = Run(project: string, state: RunState, startedAt: int)

  datatype ChunkRow = ChunkRow(project: string, scope: Scope, path: Path, runId: RunId, content: Content)

  datatype VectorRow = VectorRow(scope: Scope, path: Path, content: Content)

  datatype Index = Index(
    files: map<(Scope, Path), Digest>,
    chunks: map<ChunkId, ChunkRow>,
    runs: map<RunId, Run>,
    vectors: map<ChunkId, VectorRow>)

  const EMPTY := Index(map[], map[], map[], map[])

  /** Cuts a file into chunks, with no mime type given; `None` stands for a processor error. */
  type Slicer = (Path, Content) -> Option<seq<Chunk>>

  /** A file met during ingestion, and what fails while it is handled. */
  datatype Source = Source(path: Path, content: Content, metadataFails: bool, upsertFails: bool)

  function IdsOf(scope: Scope, path: Path, chunks: seq<Chunk>): set<ChunkId> {
    set c | c in chunks :: ChunkId(scope, path, c.index, c.processor, c.content)
  }

  /** The id of a chunk is made of its scope, its path and all that the chunk says. */
  lemma IdsAreOfChunks(scope: Scope, path: Path, chunks: seq<Chunk>, id: ChunkId)
    ensures id in IdsOf(scope, path, chunks) <==>
              id.scope == scope && id.path == path && Chunk(id.index, id.processor, id.content) in chunks
  {
  }

  predicate At(id: ChunkId, scope: Scope, path: Path) {
    id.scope == scope && id.path == path
  }

  /** `delete_chunks_for_path` in both stores. */
  function DropPath(ix: Index, scope: Scope, path: Path): Index {
    ix.(chunks := map id | id in ix.chunks && !(ix.chunks[id].scope == scope && ix.chunks[id].path == path)
          :: ix.chunks[id],
        vectors := map id | id in ix.vectors && !(ix.vectors[id].scope == scope && ix.vectors[id].path == path)
          :: ix.vectors[id])
  }

  /** `delete_file_manifest` and the matching vector deletion. */
  function DropFile(ix: Index, scope: Scope, path: Path): Index {
    DropPath(ix, scope, path).(files := ix.files - {(scope, path)})
  }

  function StalePaths(ix: Index, scope: Scope, current: set<Path>): set<Path> {
    set key | key in ix.files && key.0 == scope && key.1 !in current :: key.1
  }

  /** All files of a scope that are no longer there. */
  function DropFiles(ix: Index, scope: Scope, paths: set<Path>): Index {
    Index(map key | key in ix.files && !(key.0 == scope && key.1 in paths) :: ix.files[key],
          map id | id in ix.chunks && !(ix.chunks[id].scope == scope && ix.chunks[id].path in paths) :: ix.chunks[id],
          ix.runs,
          map id | id in ix.vectors && !(ix.vectors[id].scope == scope && ix.vectors[id].path in paths)
            :: ix.vectors[id])
  }

  function Store(ix: Index, project: string, runId: RunId, path: Path, content: Content, chunks: seq<Chunk>): Index {
    var scope := ScopeHash(project);
    ix.(files := ix.files[(scope, path) := Sha256(content)],
        chunks := ix.chunks + map id | id in IdsOf(scope, path, chunks) ::
            ChunkRow(project, scope, path, runId, id.content))
  }

  function Upsert(ix: Index, ids: set<ChunkId>): Index {
    ix.(vectors := ix.vectors + map id | id in ids :: VectorRow(id.scope, id.path, id.content))
  }

  /** `embed_text` raises for a blank text. */
  predicate Embeddable(ids: set<ChunkId>) {
    forall id :: id in ids ==> !Blank(id.content)
  }

  /** `upsert_chunks` raises when it is given nothing or a blank content, whatever the model and the collection do. */
  predicate CanUpsert(ids: set<ChunkId>) {
    ids != {} && Embeddable(ids)
  }

  /** Why an ingestion stops early. */
  datatype Fault = VectorFault | OtherFault

  datatype Progress = Progress(ix: Index, fault: Option<Fault>, indexed: nat, skipped: nat)

  predicate Unchanged(ix: Index, project: string, src: Source) {
    (ScopeHash(project), src.path) in ix.files && ix.files[(ScopeHash(project), src.path)] == Sha256(src.content)
  }

  /** The old rows of a file that is known, or ingested by force, go first. */
  function Cleared(ix: Index, project: string, src: Source, force: bool): Index {
    var known := (ScopeHash(project), src.path) in ix.files;
    if force || known then DropPath(ix, ScopeHash(project), src.path) else ix
  }

  /** A file with chunks: its rows, and its vectors unless the upsert raises. */
  function StoreFile(p: Progress, project: string, runId: RunId, src: Source, chunks: seq<Chunk>): Progress {
    var stored := Store(p.ix, project, runId, src.path, src.content, chunks);
    var ids := IdsOf(ScopeHash(project), src.path, chunks);
    if src.upsertFails || !CanUpsert(ids) then p.(ix := stored, fault := Some(VectorFault))
    else p.(ix := Upsert(stored, ids), indexed := p.indexed + |chunks|)
  }

  /** The loop body of `ingest_target`. */
  function IngestFile(p: Progress, slicer: Slicer, project: string, runId: RunId, src: Source, force: bool): Progress {
    if src.metadataFails then p.(fault := Some(OtherFault))
    else if Unchanged(p.ix, project, src) && !force then p.(skipped := p.skipped + 1)
    else
      var cleared := p.(ix := Cleared(p.ix, project, src, force));
      match slicer(src.path, src.content)
      case None => cleared.(fault := Some(OtherFault))
      case Some(chunks) => if chunks == [] then cleared else StoreFile(cleared, project, runId, src, chunks)
  }

  function IngestFiles(ix: Index, slicer: Slicer, project: string, runId: RunId, sources: seq<Source>,
                       force: bool): Progress {
    if sources == [] then Progress(ix, None, 0, 0)
    else
      var p := IngestFiles(ix, slicer, project, runId, sources[..|sources| - 1], force);
      if p.fault.Some? then p else IngestFile(p, slicer, project, runId, sources[|sources| - 1], force)
  }

  function SetRun(ix: Index, runId: RunId, state: RunState): Index
    requires runId in ix.runs
  {
    ix.(runs := ix.runs[runId := ix.runs[runId].(state := state)])
  }

  /** `latest_ingestion_run`: a newest run of the project, ties broken arbitrarily. */
  ghost predicate IsLatest(ix: Index, project: string, runId: RunId) {
    && runId in ix.runs && ix.runs[runId].project == project
    && forall r :: r in ix.runs && ix.runs[r].project == project ==> ix.runs[r].startedAt <= ix.runs[runId].startedAt
  }

  /** What remains after the exception handlers. */
  function Handle(ix: Index, runId: RunId, fault: Fault, latest: RunId): Index
    requires runId in ix.runs && latest in ix.runs
  {
    var marked := if fault == VectorFault then SetRun(ix, runId, FailedVectorUpsert) else ix;
    if marked.runs[latest].state != FailedVectorUpsert then SetRun(marked, runId, Failed) else marked
  }

  function PathsOf(sources: seq<Source>): set<Path> {
    set src | src in sources :: src.path
  }

  function StartRun(ix: Index, project: string, target: Path, now: int): Index {
    ix.(runs := ix.runs[RunId(project, target) := Run(project, Running, now)])
  }

  /** A call of `ingest_target`; for a single file, `sources` holds just that file. */
  datatype Call = Call(project: string, target: Path, directory: bool, sources: seq<Source>, force: bool, now: int)

  function Begin(ix: Index, call: Call): Index {
    var started, scope := StartRun(ix, call.project, call.target, call.now), ScopeHash(call.project);
    if call.directory then DropFiles(started, scope, StalePaths(started, scope, PathsOf(call.sources))) else started
  }

  function Work(ix: Index, slicer: Slicer, call: Call): Progress {
    IngestFiles(Begin(ix, call), slicer, call.project, RunId(call.project, call.target), call.sources, call.force)
  }

  lemma FileKeepsRuns(p: Progress, slicer: Slicer, project: string, runId: RunId, src: Source, force: bool)
    ensures IngestFile(p, slicer, project, runId, src, force).ix.runs == p.ix.runs
  {
  }

  lemma {:induction false} FilesKeepRuns(ix: Index, slicer: Slicer, project: string, runId: RunId,
                                         sources: seq<Source>, force: bool)
    ensures IngestFiles(ix, slicer, project, runId, sources, force).ix.runs == ix.runs
  {
    if sources != [] {
      var p := IngestFiles(ix, slicer, project, runId, sources[..|sources| - 1], force);
      FilesKeepRuns(ix, slicer, project, runId, sources[..|sources| - 1], force);
      FileKeepsRuns(p, slicer, project, runId, sources[|sources| - 1], force);
    }
  }

  /** The state after `ingest_target`; `latest` is what the handler's query returned, if an exception occurred. */
  ghost predicate Ingests(ix: Index, slicer: Slicer, call: Call, ix': Index) {
    var p, runId := Work(ix, slicer, call), RunId(call.project, call.target);
    && runId in p.ix.runs
    && match p.fault
       case None => ix' == SetRun(p.ix, runId, Completed)
       case Some(fault) =>
         exists latest :: IsLatest(p.ix, call.project, latest) && ix' == Handle(p.ix, runId, fault, latest)
  }

  // Rebuilding the vectors

  predicate Rebuildable(ix: Index, id: ChunkId)
    requires id in ix.chunks
  {
    var r := ix.chunks[id].runId;
    r in ix.runs && (ix.runs[r].state == Failed || ix.runs[r].state == FailedVectorUpsert)
  }

  function ProjectChunks(ix: Index, project: string): set<ChunkId> {
    set id | id in ix.chunks && ix.chunks[id].project == project
  }

  function RebuildableChunks(ix: Index, project: string): set<ChunkId> {
    set id | id in ix.chunks && ix.chunks[id].project == project && Rebuildable(ix, id)
  }

  function ToRebuild(ix: Index, project: string): set<ChunkId> {
    if RebuildableChunks(ix, project) == {} then ProjectChunks(ix, project) else RebuildableChunks(ix, project)
  }

  function Reconcile(ix: Index, project: string): Index {
    ix.(runs := map r | r in ix.runs ::
                  if ix.runs[r].project == project
                      && (ix.runs[r].state == Failed || ix.runs[r].state == FailedVectorUpsert)
                  then ix.runs[r].(state := Reconciled) else ix.runs[r])
  }

  /** A successful `rebuild_chroma_for_project`. */
  function Rebuild(ix: Index, project: string): Index {
    Reconcile(Upsert(ix, ToRebuild(ix, project)), project)
  }

  /** `rebuild_chroma_for_project`: when the upsert raises, for whatever reason, nothing changes. */
  function Attempt(ix: Index, project: string, upsertFails: bool): Index {
    if upsertFails || !CanUpsert(ToRebuild(ix, project)) then ix else Rebuild(ix, project)
  }

  // Invariants

  ghost predicate Keyed(ix: Index) {
    && (forall id :: id in ix.chunks ==>
          var row := ix.chunks[id];
          row.scope == id.scope == ScopeHash(row.project) && row.path == id.path && row.content == id.content)
    && (forall id :: id in ix.vectors ==> ix.vectors[id] == VectorRow(id.scope, id.path, id.content))
  }

  /** Every vector stems from a stored chunk. */
  ghost predicate Contained(ix: Index) {
    Keyed(ix) && ix.vectors.Keys <= ix.chunks.Keys
  }

  /** The two stores hold the same chunks. */
  ghost predicate Agreeing(ix: Index) {
    Keyed(ix) && ix.vectors.Keys == ix.chunks.Keys
  }

  function ChunkView(ix: Index, scope: Scope): map<ChunkId, Content> {
    map id | id in ix.chunks && ix.chunks[id].scope == scope :: ix.chunks[id].content
  }

  function VectorView(ix: Index, scope: Scope): map<ChunkId, Content> {
    map id | id in ix.vectors && ix.vectors[id].scope == scope :: ix.vectors[id].content
  }

  /** Agreement, read off one scope: the same contents under the same ids. */
  lemma AgreementByScope(ix: Index, scope: Scope)
    ensures Agreeing(ix) ==> VectorView(ix, scope) == ChunkView(ix, scope)
    ensures Contained(ix) ==> forall id :: id in VectorView(ix, scope) ==>
              id in ChunkView(ix, scope) && ChunkView(ix, scope)[id] == VectorView(ix, scope)[id]
  {
  }

  /** The upsert for a file raises: the vector store fails, or one of the chunks is blank. */
  predicate UpsertRaises(slicer: Slicer, src: Source) {
    || src.upsertFails
    || (slicer(src.path, src.content).Some? && exists c :: c in slicer(src.path, src.content).value && Blank(c.content))
  }

  predicate NoVectorFaults(call: Call, slicer: Slicer) {
    forall src :: src in call.sources ==> !UpsertRaises(slicer, src)
  }

  lemma BlankChunkIsNotEmbeddable(scope: Scope, path: Path, chunks: seq<Chunk>)
    ensures Embeddable(IdsOf(scope, path, chunks)) <==> forall c :: c in chunks ==> !Blank(c.content)
    ensures IdsOf(scope, path, chunks) == {} <==> chunks == []
  {
    var ids := IdsOf(scope, path, chunks);
    forall c | c in chunks ensures ChunkId(scope, path, c.index, c.processor, c.content) in ids {
    }
    if chunks != [] {
      assert chunks[0] in chunks;
    }
  }
}
