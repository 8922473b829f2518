/** The numbers that `ingest_target` reports: the files it found unchanged, and the chunks it made of the others. */
module IngestCounts {
  import opened IngestIndex
  import opened Wrappers

  /** The manifest has the file with just this content. */
  predicate Known(ix: Index, project: string, src: Source) {
    (ScopeHash(project), src.path) in ix.files && ix.files[(ScopeHash(project), src.path)].preimage == src.content
  }

  /** How many of the files are passed over. */
  function PassedOver(ix: Index, project: string, sources: seq<Source>, force: bool): nat {
    if sources == [] then 0
    else PassedOver(ix, project, sources[..|sources| - 1], force) +
         if !force && Known(ix, project, sources[|sources| - 1]) then 1 else 0
  }

  /** How many chunks the others have, one after the other. */
  function ChunksMade(ix: Index, slicer: Slicer, project: string, sources: seq<Source>, force: bool): nat {
    if sources == [] then 0
    else
      var src := sources[|sources| - 1];
      ChunksMade(ix, slicer, project, sources[..|sources| - 1], force) +
      if !force && Known(ix, project, src) then 0
      else if slicer(src.path, src.content).Some? then |slicer(src.path, src.content).value| else 0
  }

  predicate DistinctPaths(sources: seq<Source>) {
    forall i, j :: 0 <= i < j < |sources| ==> sources[i].path != sources[j].path
  }

  /** Handling a file leaves the manifest rows of all others alone. */
  lemma FileKeepsRows(p: Progress, slicer: Slicer, project: string, runId: RunId, src: Source, force: bool,
                      key: (Scope, Path))
    requires key.1 != src.path
    ensures var ix, ix' := p.ix, IngestFile(p, slicer, project, runId, src, force).ix;
            (key in ix'.files <==> key in ix.files) && (key in ix.files ==> ix'.files[key] == ix.files[key])
  {
  }

  lemma {:induction false} FilesKeepRows(ix: Index, slicer: Slicer, project: string, runId: RunId, sources: seq<Source>,
                                         force: bool, key: (Scope, Path))
    requires forall src :: src in sources ==> src.path != key.1
    ensures var ix' := IngestFiles(ix, slicer, project, runId, sources, force).ix;
            (key in ix'.files <==> key in ix.files) && (key in ix.files ==> ix'.files[key] == ix.files[key])
  {
    if sources != [] {
      var front := sources[..|sources| - 1];
      FilesKeepRows(ix, slicer, project, runId, front, force, key);
      FileKeepsRows(IngestFiles(ix, slicer, project, runId, front, force), slicer, project, runId,
                    sources[|sources| - 1], force, key);
    }
  }

  lemma FileCounts(p: Progress, slicer: Slicer, project: string, runId: RunId, src: Source, force: bool)
    requires IngestFile(p, slicer, project, runId, src, force).fault.None?
    ensures var p' := IngestFile(p, slicer, project, runId, src, force);
            if !force && Known(p.ix, project, src) then p'.skipped == p.skipped + 1 && p'.indexed == p.indexed
            else p'.skipped == p.skipped && slicer(src.path, src.content).Some?
                 && p'.indexed == p.indexed + |slicer(src.path, src.content).value|
  {
  }

  lemma {:induction false} FilesCount(ix: Index, slicer: Slicer, project: string, runId: RunId, sources: seq<Source>,
                                      force: bool)
    requires DistinctPaths(sources) && IngestFiles(ix, slicer, project, runId, sources, force).fault.None?
    ensures var p := IngestFiles(ix, slicer, project, runId, sources, force);
            && p.skipped == PassedOver(ix, project, sources, force)
            && p.indexed == ChunksMade(ix, slicer, project, sources, force)
  {
    if sources != [] {
      var front, src := sources[..|sources| - 1], sources[|sources| - 1];
      var p := IngestFiles(ix, slicer, project, runId, front, force);
      FilesCount(ix, slicer, project, runId, front, force);
      FilesKeepRows(ix, slicer, project, runId, front, force, (ScopeHash(project), src.path));
      if p.fault.None? {
        FileCounts(p, slicer, project, runId, src, force);
      }
    }
  }

  /** The counts of a call without a fault, read off the manifest from before the call. */
  lemma CallCounts(ix: Index, slicer: Slicer, call: Call)
    requires DistinctPaths(call.sources) && Work(ix, slicer, call).fault.None?
    ensures var p := Work(ix, slicer, call);
            && p.skipped == PassedOver(ix, call.project, call.sources, call.force)
            && p.indexed == ChunksMade(ix, slicer, call.project, call.sources, call.force)
  {
    var begun := Begin(ix, call);
    FilesCount(begun, slicer, call.project, RunId(call.project, call.target), call.sources, call.force);
    BeginKeepsKnown(ix, call);
    SameCounts(ix, begun, slicer, call.project, call.sources, call.force);
  }

  /** A directory call first removes the rows of files that are gone, and reports their number. */
  lemma RemovedAreTheVanished(ix: Index, call: Call)
    ensures var stale, scope := StalePaths(ix, ScopeHash(call.project), PathsOf(call.sources)), ScopeHash(call.project);
            var vanished := set key | key in ix.files && key.0 == scope && key.1 !in PathsOf(call.sources);
            && |stale| == |vanished|
            && (call.directory ==> Begin(ix, call).files.Keys == ix.files.Keys - vanished)
  {
    var scope := ScopeHash(call.project);
    var vanished := set key | key in ix.files && key.0 == scope && key.1 !in PathsOf(call.sources);
    var stale := StalePaths(ix, scope, PathsOf(call.sources));
    PairsAreAsMany(stale, vanished, scope);
    if call.directory {
      var started := StartRun(ix, call.project, call.target, call.now);
      assert StalePaths(started, scope, PathsOf(call.sources)) == stale;
    }
  }

  lemma {:induction false} PairsAreAsMany(paths: set<Path>, keys: set<(Scope, Path)>, scope: Scope)
    requires forall key :: key in keys <==> key.0 == scope && key.1 in paths
    ensures |paths| == |keys|
  {
    if paths == {} {
      assert keys == {};
    } else {
      var path :| path in paths;
      assert (scope, path) in keys;
      PairsAreAsMany(paths - {path}, keys - {(scope, path)}, scope);
    }
  }

  lemma BeginKeepsKnown(ix: Index, call: Call)
    ensures forall src :: src in call.sources ==>
              Known(Begin(ix, call), call.project, src) == Known(ix, call.project, src)
  {
    forall src | src in call.sources ensures Known(Begin(ix, call), call.project, src) == Known(ix, call.project, src) {
      assert src.path in PathsOf(call.sources);
    }
  }

  lemma {:induction false} SameCounts(ix: Index, ix': Index, slicer: Slicer, project: string, sources: seq<Source>,
                                      force: bool)
    requires forall src :: src in sources ==> Known(ix', project, src) == Known(ix, project, src)
    ensures PassedOver(ix', project, sources, force) == PassedOver(ix, project, sources, force)
    ensures ChunksMade(ix', slicer, project, sources, force) == ChunksMade(ix, slicer, project, sources, force)
  {
    if sources != [] {
      SameCounts(ix, ix', slicer, project, sources[..|sources| - 1], force);
    }
  }
}
