/** When the vector collection agrees with the chunk table, and how it recovers when it does not. */
module IngestAgreement {
  import opened IngestIndex
  import opened PythonText

  // Histories

  datatype Op = Ingest(call: Call) | RebuildVectors(project: string, upsertFails: bool)

  ghost predicate Step(ix: Index, slicer: Slicer, op: Op, ix': Index) {
    match op
    case Ingest(call) => Ingests(ix, slicer, call, ix')
    case RebuildVectors(project, upsertFails) => ix' == Attempt(ix, project, upsertFails)
  }

  ghost predicate IsHistory(states: seq<Index>, ops: seq<Op>, slicer: Slicer) {
    && |states| == |ops| + 1
    && states[0] == EMPTY
    && forall i :: 0 <= i < |ops| ==> Step(states[i], slicer, ops[i], states[i + 1])
  }

  // Containment and agreement

  lemma DropKeepsAgreement(ix: Index, scope: Scope, path: Path)
    ensures Contained(ix) ==> Contained(DropPath(ix, scope, path))
    ensures Agreeing(ix) ==> Agreeing(DropPath(ix, scope, path))
  {
  }

  lemma DropFilesKeepsAgreement(ix: Index, scope: Scope, paths: set<Path>)
    ensures Contained(ix) ==> Contained(DropFiles(ix, scope, paths))
    ensures Agreeing(ix) ==> Agreeing(DropFiles(ix, scope, paths))
  {
  }

  lemma StoreKeepsContained(ix: Index, project: string, runId: RunId, path: Path, content: Content, chunks: seq<Chunk>)
    requires Contained(ix)
    ensures var ix' := Store(ix, project, runId, path, content, chunks);
            Contained(ix') && ix'.vectors == ix.vectors
                && ix'.chunks.Keys == ix.chunks.Keys + IdsOf(ScopeHash(project), path, chunks)
  {
  }

  lemma UpsertKeepsContained(ix: Index, ids: set<ChunkId>)
    requires Contained(ix) && ids <= ix.chunks.Keys
    ensures Contained(Upsert(ix, ids)) && Upsert(ix, ids).vectors.Keys == ix.vectors.Keys + ids
  {
  }

  lemma FileKeepsAgreement(p: Progress, slicer: Slicer, project: string, runId: RunId, src: Source, force: bool)
    requires Contained(p.ix)
    ensures var p' := IngestFile(p, slicer, project, runId, src, force);
            Contained(p'.ix) && (Agreeing(p.ix) && !UpsertRaises(slicer, src) ==> Agreeing(p'.ix))
  {
    ClearedKeepsAgreement(p.ix, project, src, force);
    match slicer(src.path, src.content)
    case None =>
    case Some(chunks) =>
      var cleared := p.(ix := Cleared(p.ix, project, src, force));
      StoringKeepsAgreement(cleared, project, runId, src, chunks);
      BlankChunkIsNotEmbeddable(ScopeHash(project), src.path, chunks);
  }

  lemma ClearedKeepsAgreement(ix: Index, project: string, src: Source, force: bool)
    ensures var cleared := Cleared(ix, project, src, force);
            (Contained(ix) ==> Contained(cleared)) && (Agreeing(ix) ==> Agreeing(cleared))
  {
    DropKeepsAgreement(ix, ScopeHash(project), src.path);
  }

  lemma StoringKeepsAgreement(p: Progress, project: string, runId: RunId, src: Source, chunks: seq<Chunk>)
    requires Contained(p.ix)
    ensures var p', ids := StoreFile(p, project, runId, src, chunks), IdsOf(ScopeHash(project), src.path, chunks);
            Contained(p'.ix) && (Agreeing(p.ix) && !src.upsertFails && CanUpsert(ids) ==> Agreeing(p'.ix))
  {
    var stored := Store(p.ix, project, runId, src.path, src.content, chunks);
    StoreKeepsContained(p.ix, project, runId, src.path, src.content, chunks);
    UpsertKeepsContained(stored, IdsOf(ScopeHash(project), src.path, chunks));
  }

  lemma {:induction false} FilesKeepAgreement(ix: Index, slicer: Slicer, project: string, runId: RunId,
                                              sources: seq<Source>, force: bool)
    requires Contained(ix)
    ensures var p := IngestFiles(ix, slicer, project, runId, sources, force);
            && Contained(p.ix)
            && (Agreeing(ix) && (forall src :: src in sources ==> !UpsertRaises(slicer, src)) ==> Agreeing(p.ix))
  {
    if sources != [] {
      var front := sources[..|sources| - 1];
      FilesKeepAgreement(ix, slicer, project, runId, front, force);
      FileKeepsAgreement(IngestFiles(ix, slicer, project, runId, front, force), slicer, project, runId,
          sources[|sources| - 1], force);
    }
  }

  lemma SameStoresSameAgreement(ix: Index, ix': Index)
    requires ix'.chunks == ix.chunks && ix'.vectors == ix.vectors
    ensures Contained(ix) ==> Contained(ix')
    ensures Agreeing(ix) ==> Agreeing(ix')
  {
  }

  lemma IngestKeepsAgreement(ix: Index, slicer: Slicer, call: Call, ix': Index)
    requires Contained(ix) && Ingests(ix, slicer, call, ix')
    ensures Contained(ix') && (Agreeing(ix) && NoVectorFaults(call, slicer) ==> Agreeing(ix'))
  {
    var started := StartRun(ix, call.project, call.target, call.now);
    SameStoresSameAgreement(ix, started);
    DropFilesKeepsAgreement(started, ScopeHash(call.project),
        StalePaths(started, ScopeHash(call.project), PathsOf(call.sources)));
    FilesKeepAgreement(Begin(ix, call), slicer, call.project, RunId(call.project, call.target), call.sources,
        call.force);
    SameStoresSameAgreement(Work(ix, slicer, call).ix, ix');
  }

  lemma RebuildKeepsAgreement(ix: Index, project: string)
    requires Contained(ix)
    ensures Contained(Rebuild(ix, project))
        && Rebuild(ix, project).vectors.Keys == ix.vectors.Keys + ToRebuild(ix, project)
    ensures Rebuild(ix, project).chunks == ix.chunks
  {
    UpsertKeepsContained(ix, ToRebuild(ix, project));
    SameStoresSameAgreement(Upsert(ix, ToRebuild(ix, project)), Rebuild(ix, project));
  }

  /** Whatever fails, every vector stems from a chunk that is still stored. */
  lemma {:induction false} VectorsStayContained(states: seq<Index>, ops: seq<Op>, slicer: Slicer, i: nat)
    requires IsHistory(states, ops, slicer) && i < |states|
    ensures Contained(states[i])
  {
    if i > 0 {
      VectorsStayContained(states, ops, slicer, i - 1);
      StepKeepsContained(states[i - 1], slicer, ops[i - 1], states[i]);
    }
  }

  lemma StepKeepsContained(ix: Index, slicer: Slicer, op: Op, ix': Index)
    requires Contained(ix) && Step(ix, slicer, op, ix')
    ensures Contained(ix')
    ensures Agreeing(ix) && (op.Ingest? ==> NoVectorFaults(op.call, slicer)) ==> Agreeing(ix')
  {
    match op
    case Ingest(call) => IngestKeepsAgreement(ix, slicer, call, ix');
    case RebuildVectors(project, _) => RebuildKeepsAgreement(ix, project);
  }

  /** As long as no vector upsert raises, the vectors are exactly the chunks, scope by scope. */
  lemma {:induction false} StoresAgree(states: seq<Index>, ops: seq<Op>, slicer: Slicer, i: nat, scope: Scope)
    requires IsHistory(states, ops, slicer) && i < |states|
    requires forall op :: op in ops && op.Ingest? ==> NoVectorFaults(op.call, slicer)
    ensures Agreeing(states[i]) && VectorView(states[i], scope) == ChunkView(states[i], scope)
  {
    if i > 0 {
      StoresAgree(states, ops, slicer, i - 1, scope);
      assert ops[i - 1] in ops;
      StepKeepsContained(states[i - 1], slicer, ops[i - 1], states[i]);
    }
    AgreementByScope(states[i], scope);
  }

  // Recovery

  lemma RebuildReconciles(ix: Index, project: string)
    requires Keyed(ix) && forall id :: id in ix.chunks ==> RunOfOwnProject(ix, id)
    ensures RebuildableChunks(Rebuild(ix, project), project) == {}
  {
  }

  /** A chunk refers to a run of its own project, as the foreign key and the writer see to. */
  ghost predicate RunOfOwnProject(ix: Index, id: ChunkId)
    requires id in ix.chunks
  {
    ix.chunks[id].runId in ix.runs && ix.runs[ix.chunks[id].runId].project == ix.chunks[id].project
  }

  /** Two successful rebuilds with nothing in between restore agreement for a project with chunks. */
  lemma TwoRebuildsRestore(ix: Index, project: string)
    requires Contained(ix) && forall id :: id in ix.chunks ==> RunOfOwnProject(ix, id)
    requires ProjectChunks(ix, project) != {}
    ensures var once := Rebuild(ix, project);
            var twice := Rebuild(once, project);
            && ToRebuild(ix, project) != {} && ToRebuild(once, project) != {}
            && VectorView(twice, ScopeHash(project)) == ChunkView(twice, ScopeHash(project))
                == ChunkView(ix, ScopeHash(project))
  {
    var once := Rebuild(ix, project);
    RebuildReconciles(ix, project);
    RebuildKeepsAgreement(ix, project);
    RebuildKeepsAgreement(once, project);
    assert ProjectChunks(once, project) == ProjectChunks(ix, project);
    FullProjectAgrees(Rebuild(once, project), project);
  }

  lemma FullProjectAgrees(ix: Index, project: string)
    requires Contained(ix)
    ensures VectorView(ix, ScopeHash(project)) == ChunkView(ix, ScopeHash(project))
        <==> ProjectChunks(ix, project) <= ix.vectors.Keys
  {
    var v, c := VectorView(ix, ScopeHash(project)), ChunkView(ix, ScopeHash(project));
    forall id ensures id in c <==> id in ProjectChunks(ix, project) {
    }
    if ProjectChunks(ix, project) <= ix.vectors.Keys {
      assert v.Keys == c.Keys;
    } else {
      var id :| id in ProjectChunks(ix, project) && id !in ix.vectors;
      assert id in c && id !in v;
    }
  }

  /** One successful rebuild is enough exactly when it rebuilds everything that is missing. */
  lemma OneRebuildRestoresExactly(ix: Index, project: string)
    requires Contained(ix)
    ensures var once := Rebuild(ix, project);
            (VectorView(once, ScopeHash(project)) == ChunkView(once, ScopeHash(project))) <==>
            (RebuildableChunks(ix, project) == {}
                || ProjectChunks(ix, project) - ix.vectors.Keys <= RebuildableChunks(ix, project))
  {
    RebuildKeepsAgreement(ix, project);
    assert ProjectChunks(Rebuild(ix, project), project) == ProjectChunks(ix, project);
    FullProjectAgrees(Rebuild(ix, project), project);
  }

  // Blank chunks

  /** No vector was ever made of a blank text. */
  ghost predicate NoBlankVectors(ix: Index) {
    forall id :: id in ix.vectors ==> !Blank(id.content)
  }

  lemma {:induction false} FilesKeepNoBlanks(ix: Index, slicer: Slicer, project: string, runId: RunId,
                                             sources: seq<Source>, force: bool)
    requires NoBlankVectors(ix)
    ensures NoBlankVectors(IngestFiles(ix, slicer, project, runId, sources, force).ix)
  {
    if sources != [] {
      FilesKeepNoBlanks(ix, slicer, project, runId, sources[..|sources| - 1], force);
    }
  }

  lemma StepKeepsNoBlanks(ix: Index, slicer: Slicer, op: Op, ix': Index)
    requires NoBlankVectors(ix) && Step(ix, slicer, op, ix')
    ensures NoBlankVectors(ix')
  {
    if op.Ingest? {
      var call := op.call;
      FilesKeepNoBlanks(Begin(ix, call), slicer, call.project, RunId(call.project, call.target), call.sources,
                        call.force);
      assert ix'.vectors == Work(ix, slicer, call).ix.vectors;
    }
  }

  lemma {:induction false} VectorsAreNeverBlank(states: seq<Index>, ops: seq<Op>, slicer: Slicer, i: nat)
    requires IsHistory(states, ops, slicer) && i < |states|
    ensures NoBlankVectors(states[i])
  {
    if i > 0 {
      VectorsAreNeverBlank(states, ops, slicer, i - 1);
      StepKeepsNoBlanks(states[i - 1], slicer, ops[i - 1], states[i]);
    }
  }

  /** Two rebuilds while the vector store works restore agreement exactly when no chunk of the project is blank. */
  lemma TwoAttemptsRestoreExactly(ix: Index, project: string)
    requires Contained(ix) && NoBlankVectors(ix) && forall id :: id in ix.chunks ==> RunOfOwnProject(ix, id)
    requires ProjectChunks(ix, project) != {}
    ensures var twice := Attempt(Attempt(ix, project, false), project, false);
            && ChunkView(twice, ScopeHash(project)) == ChunkView(ix, ScopeHash(project))
            && (VectorView(twice, ScopeHash(project)) == ChunkView(twice, ScopeHash(project))
                <==> Embeddable(ProjectChunks(ix, project)))
  {
    var once := Attempt(ix, project, false);
    AttemptKeeps(ix, project);
    AttemptKeeps(once, project);
    if Embeddable(ProjectChunks(ix, project)) {
      AttemptSucceeds(ix, project);
      AttemptSucceeds(once, project);
      TwoRebuildsRestore(ix, project);
    } else {
      BlankChunkLacksVector(Attempt(once, project, false), project);
    }
  }

  lemma AttemptSucceeds(ix: Index, project: string)
    requires ProjectChunks(ix, project) != {} && Embeddable(ProjectChunks(ix, project))
    ensures Attempt(ix, project, false) == Rebuild(ix, project)
  {
    assert ToRebuild(ix, project) <= ProjectChunks(ix, project);
  }

  lemma BlankChunkLacksVector(ix: Index, project: string)
    requires Contained(ix) && NoBlankVectors(ix) && !Embeddable(ProjectChunks(ix, project))
    ensures VectorView(ix, ScopeHash(project)) != ChunkView(ix, ScopeHash(project))
  {
    FullProjectAgrees(ix, project);
  }

  lemma AttemptKeeps(ix: Index, project: string)
    requires Contained(ix) && NoBlankVectors(ix)
    ensures var ix' := Attempt(ix, project, false);
            && Contained(ix') && NoBlankVectors(ix') && ix'.chunks == ix.chunks
            && ProjectChunks(ix', project) == ProjectChunks(ix, project)
  {
    RebuildKeepsAgreement(ix, project);
  }

  /** A project with a blank chunk does not agree, at any moment of any history. */
  lemma BlankChunksNeverAgree(states: seq<Index>, ops: seq<Op>, slicer: Slicer, i: nat, project: string)
    requires IsHistory(states, ops, slicer) && i < |states| && !Embeddable(ProjectChunks(states[i], project))
    ensures VectorView(states[i], ScopeHash(project)) != ChunkView(states[i], ScopeHash(project))
  {
    VectorsStayContained(states, ops, slicer, i);
    VectorsAreNeverBlank(states, ops, slicer, i);
    BlankChunkLacksVector(states[i], project);
  }
}
