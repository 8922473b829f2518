/**
 * Two short histories. In one a single rebuild does not restore agreement: ingesting an unchanged file again
 * marks its failed run COMPLETED, so a rebuild that finds another failed run passes over that file's chunks.
 * In the other a file is blank for a while, and when its text is back it is skipped and stays without chunks.
 */
module IngestCounterexample {
  import opened IngestAgreement
  import opened IngestIndex
  import opened IngestManifest
  import opened PythonText
  import opened TextChunks
  import opened Wrappers

  function FileCall(project: string, path: Path, content: Content, upsertFails: bool, now: int): Call {
    Call(project, path, false, [Source(path, content, false, upsertFails)], false, now)
  }

  /** The state after a new file's vector upsert has failed. */
  function AfterFailure(ix: Index, slicer: Slicer, project: string, path: Path, content: Content, now: int): Index
    requires Sliceable(slicer, path, content)
  {
    var runId := RunId(project, path);
    var started, made := StartRun(ix, project, path, now), slicer(path, content).value;
    SetRun(Store(started, project, runId, path, content, made), runId, FailedVectorUpsert)
  }

  /** The state after an unchanged file was met again. */
  function AfterSkip(ix: Index, project: string, path: Path, now: int): Index {
    SetRun(StartRun(ix, project, path, now), RunId(project, path), Completed)
  }

  lemma OneFile(ix: Index, slicer: Slicer, project: string, runId: RunId, src: Source, force: bool)
    ensures IngestFiles(ix, slicer, project, runId, [src], force)
        == IngestFile(Progress(ix, None, 0, 0), slicer, project, runId, src, force)
  {
    assert [src][..0] == [];
  }

  lemma FailureIngests(ix: Index, slicer: Slicer, project: string, path: Path, content: Content, storeFails: bool,
                       now: int)
    requires Sliceable(slicer, path, content) && (ScopeHash(project), path) !in ix.files
    requires UpsertRaises(slicer, Source(path, content, false, storeFails))
    requires forall r :: r in ix.runs ==> ix.runs[r].startedAt <= now
    ensures Ingests(ix, slicer, FileCall(project, path, content, storeFails, now),
                    AfterFailure(ix, slicer, project, path, content, now))
  {
    var call, runId := FileCall(project, path, content, storeFails, now), RunId(project, path);
    BlankChunkIsNotEmbeddable(ScopeHash(project), path, slicer(path, content).value);
    var p := Work(ix, slicer, call);
    OneFile(Begin(ix, call), slicer, project, runId, call.sources[0], false);
    assert p.fault == Some(VectorFault);
    assert IsLatest(p.ix, project, runId);
    assert Handle(p.ix, runId, VectorFault, runId) == AfterFailure(ix, slicer, project, path, content, now);
  }

  lemma SkipIngests(ix: Index, slicer: Slicer, project: string, path: Path, content: Content, now: int)
    requires (ScopeHash(project), path) in ix.files && ix.files[(ScopeHash(project), path)] == Sha256(content)
    ensures Ingests(ix, slicer, FileCall(project, path, content, false, now), AfterSkip(ix, project, path, now))
  {
    var call := FileCall(project, path, content, false, now);
    OneFile(Begin(ix, call), slicer, project, RunId(project, path), call.sources[0], false);
  }

  lemma HistoryOfThree(slicer: Slicer, s1: Index, s2: Index, s3: Index, op1: Op, op2: Op, op3: Op)
    requires Step(EMPTY, slicer, op1, s1) && Step(s1, slicer, op2, s2) && Step(s2, slicer, op3, s3)
    ensures IsHistory([EMPTY, s1, s2, s3], [op1, op2, op3], slicer)
  {
  }

  /** For any two files that yield chunks: fail on the first, meet it again, fail on the second, rebuild once. */
  lemma OneRebuildMayNotSuffice(slicer: Slicer, project: string, a: Path, ca: Content, b: Path, cb: Content)
    returns (states: seq<Index>, ops: seq<Op>)
    requires a != b && Sliceable(slicer, a, ca) && Sliceable(slicer, b, cb)
    ensures IsHistory(states, ops, slicer) && |ops| == 3
    ensures ToRebuild(states[3], project) != {}
    ensures Embeddable(IdsOf(ScopeHash(project), b, slicer(b, cb).value)) ==> CanUpsert(ToRebuild(states[3], project))
    ensures var once, scope := Rebuild(states[3], project), ScopeHash(project);
            VectorView(once, scope) != ChunkView(once, scope)
  {
    var s1 := AfterFailure(EMPTY, slicer, project, a, ca, 0);
    var s2 := AfterSkip(s1, project, a, 1);
    var s3 := AfterFailure(s2, slicer, project, b, cb, 2);
    FailureIngests(EMPTY, slicer, project, a, ca, true, 0);
    SkipIngests(s1, slicer, project, a, ca, 1);
    FailureIngests(s2, slicer, project, b, cb, true, 2);
    states := [EMPTY, s1, s2, s3];
    ops := [Ingest(FileCall(project, a, ca, true, 0)), Ingest(FileCall(project, a, ca, false, 1)),
            Ingest(FileCall(project, b, cb, true, 2))];
    HistoryOfThree(slicer, s1, s2, s3, ops[0], ops[1], ops[2]);
    VectorsStayContained(states, ops, slicer, 3);
    FirstFilePassedOver(slicer, project, a, ca, b, cb, s1, s2, s3);
    OnlySecondIsRebuilt(slicer, project, a, ca, b, cb, s1, s2, s3);
    OneRebuildRestoresExactly(s3, project);
  }

  lemma OnlySecondIsRebuilt(slicer: Slicer, project: string, a: Path, ca: Content, b: Path, cb: Content, s1: Index,
                            s2: Index, s3: Index)
    requires a != b && Sliceable(slicer, a, ca) && Sliceable(slicer, b, cb)
    requires s1 == AfterFailure(EMPTY, slicer, project, a, ca, 0)
    requires s2 == AfterSkip(s1, project, a, 1)
    requires s3 == AfterFailure(s2, slicer, project, b, cb, 2)
    ensures RebuildableChunks(s3, project) <= IdsOf(ScopeHash(project), b, slicer(b, cb).value)
  {
    assert s3.runs[RunId(project, a)].state == Completed;
    forall id | id in s3.chunks && id !in IdsOf(ScopeHash(project), b, slicer(b, cb).value)
      ensures s3.chunks[id].runId == RunId(project, a)
    {
      assert id in s1.chunks;
    }
  }

  lemma FirstFilePassedOver(slicer: Slicer, project: string, a: Path, ca: Content, b: Path, cb: Content, s1: Index,
                            s2: Index, s3: Index)
    requires a != b && Sliceable(slicer, a, ca) && Sliceable(slicer, b, cb)
    requires s1 == AfterFailure(EMPTY, slicer, project, a, ca, 0)
    requires s2 == AfterSkip(s1, project, a, 1)
    requires s3 == AfterFailure(s2, slicer, project, b, cb, 2)
    ensures RebuildableChunks(s3, project) != {}
    ensures !(ProjectChunks(s3, project) - s3.vectors.Keys <= RebuildableChunks(s3, project))
  {
    var scope := ScopeHash(project);
    var ida, idb := FirstId(scope, a, slicer(a, ca).value), FirstId(scope, b, slicer(b, cb).value);
    assert ida in s1.chunks && s1.chunks[ida].runId == RunId(project, a);
    assert ida !in IdsOf(scope, b, slicer(b, cb).value);
    assert ida in s3.chunks && s3.chunks[ida] == s1.chunks[ida] && s3.runs[RunId(project, a)].state == Completed;
    assert ida in ProjectChunks(s3, project) - s3.vectors.Keys && ida !in RebuildableChunks(s3, project);
    assert idb in s3.chunks && s3.chunks[idb].runId == RunId(project, b)
        && s3.runs[RunId(project, b)].state == FailedVectorUpsert;
    assert idb in RebuildableChunks(s3, project);
  }

  function FirstId(scope: Scope, path: Path, chunks: seq<Chunk>): (id: ChunkId)
    requires chunks != []
    ensures id in IdsOf(scope, path, chunks) && id.path == path
  {
    assert chunks[0] in chunks;
    ChunkId(scope, path, chunks[0].index, chunks[0].processor, chunks[0].content)
  }

  /** The state after a new file was ingested. */
  function AfterSuccess(ix: Index, slicer: Slicer, project: string, path: Path, content: Content, now: int): Index
    requires Sliceable(slicer, path, content)
  {
    var runId, made := RunId(project, path), slicer(path, content).value;
    var stored := Store(StartRun(ix, project, path, now), project, runId, path, content, made);
    SetRun(Upsert(stored, IdsOf(ScopeHash(project), path, made)), runId, Completed)
  }

  /** The state after a known file was found blank. */
  function AfterBlank(ix: Index, project: string, path: Path, now: int): Index {
    SetRun(DropPath(StartRun(ix, project, path, now), ScopeHash(project), path), RunId(project, path), Completed)
  }

  /** The state after a new file was ingested while the vector store works. */
  function AfterFirst(slicer: Slicer, project: string, path: Path, content: Content): Index
    requires Sliceable(slicer, path, content)
  {
    if Embeddable(IdsOf(ScopeHash(project), path, slicer(path, content).value))
    then AfterSuccess(EMPTY, slicer, project, path, content, 0)
    else AfterFailure(EMPTY, slicer, project, path, content, 0)
  }

  lemma FirstIngests(slicer: Slicer, project: string, path: Path, content: Content)
    requires Sliceable(slicer, path, content)
    ensures Ingests(EMPTY, slicer, FileCall(project, path, content, false, 0),
                    AfterFirst(slicer, project, path, content))
    ensures Keyed(AfterFirst(slicer, project, path, content))
    ensures AfterFirst(slicer, project, path, content).files == map[(ScopeHash(project), path) := Sha256(content)]
  {
    BlankChunkIsNotEmbeddable(ScopeHash(project), path, slicer(path, content).value);
    if Embeddable(IdsOf(ScopeHash(project), path, slicer(path, content).value)) {
      SuccessIngests(slicer, project, path, content);
    } else {
      FailureIngests(EMPTY, slicer, project, path, content, false, 0);
    }
  }

  lemma SuccessIngests(slicer: Slicer, project: string, path: Path, content: Content)
    requires Sliceable(slicer, path, content)
    requires Embeddable(IdsOf(ScopeHash(project), path, slicer(path, content).value))
    ensures var after := AfterSuccess(EMPTY, slicer, project, path, content, 0);
            Ingests(EMPTY, slicer, FileCall(project, path, content, false, 0), after)
  {
    var call := FileCall(project, path, content, false, 0);
    BlankChunkIsNotEmbeddable(ScopeHash(project), path, slicer(path, content).value);
    OneFile(Begin(EMPTY, call), slicer, project, RunId(project, path), call.sources[0], false);
  }

  lemma BlankIngests(ix: Index, slicer: Slicer, project: string, path: Path, content: Content, now: int)
    requires (ScopeHash(project), path) in ix.files && ix.files[(ScopeHash(project), path)] != Sha256(content)
    requires slicer(path, content) == Some([])
    ensures Ingests(ix, slicer, FileCall(project, path, content, false, now), AfterBlank(ix, project, path, now))
  {
    var call := FileCall(project, path, content, false, now);
    OneFile(Begin(ix, call), slicer, project, RunId(project, path), call.sources[0], false);
  }

  /** For any file and two contents of it, one with chunks and one without: ingest the first, the second, the first. */
  lemma ReturningContentStaysWithoutChunks(slicer: Slicer, project: string, path: Path, text: Content, blank: Content)
    returns (states: seq<Index>, ops: seq<Op>)
    requires Sliceable(slicer, path, text) && slicer(path, blank) == Some([])
    ensures IsHistory(states, ops, slicer)
    ensures ops == [Ingest(FileCall(project, path, text, false, 0)), Ingest(FileCall(project, path, blank, false, 1)),
                    Ingest(FileCall(project, path, text, false, 2))]
    ensures var key := (ScopeHash(project), path);
            && key in states[3].files && states[3].files[key] == Sha256(text)
            && ChunksAt(states[3], key) == {} && !Faithful(states[3], slicer, key)
  {
    var s1 := AfterFirst(slicer, project, path, text);
    var s2 := AfterBlank(s1, project, path, 1);
    var s3 := AfterSkip(s2, project, path, 2);
    FirstIngests(slicer, project, path, text);
    BlankIngests(s1, slicer, project, path, blank, 1);
    SkipIngests(s2, slicer, project, path, text, 2);
    states := [EMPTY, s1, s2, s3];
    ops := [Ingest(FileCall(project, path, text, false, 0)), Ingest(FileCall(project, path, blank, false, 1)),
            Ingest(FileCall(project, path, text, false, 2))];
    HistoryOfThree(slicer, s1, s2, s3, ops[0], ops[1], ops[2]);
    NothingLeft(s1, slicer, project, path, text);
  }

  lemma NothingLeft(ix: Index, slicer: Slicer, project: string, path: Path, text: Content)
    requires Sliceable(slicer, path, text) && Keyed(ix)
    requires (ScopeHash(project), path) in ix.files && ix.files[(ScopeHash(project), path)] == Sha256(text)
    ensures var key, end := (ScopeHash(project), path), AfterSkip(AfterBlank(ix, project, path, 1), project, path, 2);
            && key in end.files && end.files[key] == Sha256(text)
            && ChunksAt(end, key) == {} && !Faithful(end, slicer, key)
  {
    var key := (ScopeHash(project), path);
    DropPathDropsExactly(ix, key, key);
    SomeChunk(key, slicer(path, text).value);
  }

  /** A call whose file's metadata cannot be read. */
  function UnreadableCall(project: string, path: Path, content: Content, now: int): Call {
    Call(project, path, false, [Source(path, content, true, false)], false, now)
  }

  /**
   * Two calls that start at the same time: the first fails on its vectors, the second on its metadata, and the
   * handler finds the first run as the newest. The second run stays RUNNING.
   */
  lemma FailureMayStayRunning(slicer: Slicer, project: string, a: Path, ca: Content, b: Path, cb: Content)
    returns (states: seq<Index>, ops: seq<Op>)
    requires a != b && Sliceable(slicer, a, ca)
    ensures ops == [Ingest(FileCall(project, a, ca, true, 0)), Ingest(UnreadableCall(project, b, cb, 0))]
    ensures IsHistory(states, ops, slicer)
    ensures RunId(project, b) in states[2].runs && states[2].runs[RunId(project, b)].state == Running
  {
    var s1 := AfterFailure(EMPTY, slicer, project, a, ca, 0);
    var call := UnreadableCall(project, b, cb, 0);
    var s2 := StartRun(s1, project, b, 0);
    FailureIngests(EMPTY, slicer, project, a, ca, true, 0);
    OneFile(Begin(s1, call), slicer, project, RunId(project, b), call.sources[0], false);
    assert Work(s1, slicer, call) == Progress(s2, Some(OtherFault), 0, 0);
    assert IsLatest(s2, project, RunId(project, a));
    assert s2 == Handle(s2, RunId(project, b), OtherFault, RunId(project, a));
    states := [EMPTY, s1, s2];
    ops := [Ingest(FileCall(project, a, ca, true, 0)), Ingest(call)];
    assert Step(EMPTY, slicer, ops[0], s1) && Step(s1, slicer, ops[1], s2);
  }

  // A text with a blank window

  /** One letter and then white space, more than the adapter puts into one chunk. */
  function LongTail(p: TextProcessor): string
    requires p.chunkSize >= 0
  {
    ['a'] + seq(2 * p.chunkSize, _ => ' ')
  }

  /** The text is not blank, and yet its second chunk is, whatever the sizes as long as the overlap is not negative. */
  lemma BlankWindow(p: TextProcessor)
    requires p.chunkOverlap >= 0
    ensures !Blank(LongTail(p)) && Emitted(|LongTail(p)|, p, 1) && Blank(Window(LongTail(p), p, 1))
  {
    var text := LongTail(p);
    assert text[0] == 'a' && text[0] in text;
    assert 1 * StepOf(p) == StepOf(p);
    forall i | 0 <= i < |Window(text, p, 1)| ensures Window(text, p, 1)[i] == ' ' {
      assert Window(text, p, 1)[i] == text[StepOf(p) + i];
    }
  }

  function AsChunks(made: seq<DocumentChunk>): (r: seq<Chunk>)
    ensures |r| == |made| && forall k :: 0 <= k < |made| ==> r[k] == Chunk(made[k].index, "text", made[k].content)
  {
    seq(|made|, k requires 0 <= k < |made| => Chunk(made[k].index, "text", made[k].content))
  }

  /**
   * Ingesting such a file, with a vector store that never fails, leaves its project where every rebuild raises:
   * the vectors lack its chunks for good, or until the file changes.
   */
  lemma BlankWindowBlocksRebuilds(slicer: Slicer, project: string, path: Path, p: TextProcessor,
                                  made: seq<DocumentChunk>)
    returns (states: seq<Index>, ops: seq<Op>)
    requires p.chunkOverlap >= 0 && ChunksOf(LongTail(p), p, made) && slicer(path, LongTail(p)) == Some(AsChunks(made))
    ensures ops == [Ingest(FileCall(project, path, LongTail(p), false, 0))] && IsHistory(states, ops, slicer)
    ensures ProjectChunks(states[1], project) != {}
    ensures forall upsertFails :: Attempt(states[1], project, upsertFails) == states[1]
    ensures VectorView(states[1], ScopeHash(project)) != ChunkView(states[1], ScopeHash(project))
  {
    var text, chunks := LongTail(p), AsChunks(made);
    SecondChunkIsBlank(p, made);
    assert chunks[1] in chunks && Blank(chunks[1].content);
    var after := AfterFailure(EMPTY, slicer, project, path, text, 0);
    FailureIngests(EMPTY, slicer, project, path, text, false, 0);
    states, ops := [EMPTY, after], [Ingest(FileCall(project, path, text, false, 0))];
    FailedFileIsRebuilt(slicer, project, path, text);
    BlankChunkIsNotEmbeddable(ScopeHash(project), path, chunks);
    BlankChunksNeverAgree(states, ops, slicer, 1, project);
  }

  lemma SecondChunkIsBlank(p: TextProcessor, made: seq<DocumentChunk>)
    requires p.chunkOverlap >= 0 && ChunksOf(LongTail(p), p, made)
    ensures |made| > 1 && Blank(made[1].content)
  {
    BlankWindow(p);
    assert Emitted(|LongTail(p)|, p, 0);
  }

  lemma FailedFileIsRebuilt(slicer: Slicer, project: string, path: Path, content: Content)
    requires Sliceable(slicer, path, content)
    ensures var after, ids := AfterFailure(EMPTY, slicer, project, path, content, 0),
                              IdsOf(ScopeHash(project), path, slicer(path, content).value);
            ids != {} && ProjectChunks(after, project) == ids && ToRebuild(after, project) == ids
  {
    var after := AfterFailure(EMPTY, slicer, project, path, content, 0);
    BlankChunkIsNotEmbeddable(ScopeHash(project), path, slicer(path, content).value);
    assert RebuildableChunks(after, project) == ProjectChunks(after, project);
  }
}
