/** Files, snapshots and rollback as values (orchestrator/patching/snapshots.py, rollback.py). */
module PatchFiles {
  import opened Graphs
  import opened Wrappers

  type Bytes = string

  /** A resolved path, as its components from the root; there are no symbolic links. */
  type Location = seq<string>

  type Files = map<Location, Bytes>

  /** Collision-free stand-in for a sha256 hex digest. */
  datatype Digest = Sha256(preimage: Bytes)

  // Paths

  /** A path named in a patch; a drive letter counts as absolute. */
  datatype RelPath = RelPath(absolute: bool, parts: seq<string>)

  function Normalize(base: Location, parts: seq<string>): Location
    decreases |parts|
  {
    if parts == [] then base
    else if parts[0] == ".." then Normalize(if base == [] then [] else base[..|base| - 1], parts[1..])
    else if parts[0] == "." then Normalize(base, parts[1..])
    else Normalize(base + [parts[0]], parts[1..])
  }

  /** `(repo / rel).resolve()` */
  function Resolve(repo: Location, rel: RelPath): Location {
    Normalize(if rel.absolute then [] else repo, rel.parts)
  }

  /** `target == root or root in target.parents` */
  predicate Under(root: Location, target: Location) {
    root <= target
  }

  lemma {:induction false} ClimbingNeedsDots(base: Location, parts: seq<string>)
    requires ".." !in parts
    ensures Under(base, Normalize(base, parts))
    decreases |parts|
  {
    if parts != [] {
      ClimbingNeedsDots(if parts[0] == "." then base else base + [parts[0]], parts[1..]);
    }
  }

  /** A relative path without dots lies where its components say. */
  lemma {:induction false} PlainPathsLieBelow(base: Location, parts: seq<string>)
    requires "." !in parts && ".." !in parts
    ensures Normalize(base, parts) == base + parts
    decreases |parts|
  {
    if parts == [] {
      assert base + parts == base;
    } else {
      PlainPathsLieBelow(base + [parts[0]], parts[1..]);
      assert base + [parts[0]] + parts[1..] == base + parts;
    }
  }

  lemma {:induction false} NormalizeStepwise(base: Location, parts: seq<string>, more: seq<string>)
    ensures Normalize(base, parts + more) == Normalize(Normalize(base, parts), more)
    decreases |parts|
  {
    if parts == [] {
      assert parts + more == more;
    } else {
      assert (parts + more)[1..] == parts[1..] + more && (parts + more)[0] == parts[0];
      if parts[0] == ".." {
        NormalizeStepwise(if base == [] then [] else base[..|base| - 1], parts[1..], more);
      } else {
        NormalizeStepwise(if parts[0] == "." then base else base + [parts[0]], parts[1..], more);
      }
    }
  }

  /** Wherever they stand, a single dot says nothing, and two dots take back the component before them. */
  lemma DotsCancel(base: Location, parts: seq<string>, name: string, more: seq<string>)
    requires name != "." && name != ".."
    ensures Normalize(base, parts + ["."] + more) == Normalize(base, parts + more)
    ensures Normalize(base, parts + [name, ".."] + more) == Normalize(base, parts + more)
  {
    var here := Normalize(base, parts);
    NormalizeStepwise(base, parts, more);
    NormalizeStepwise(base, parts, ["."]);
    NormalizeStepwise(base, parts + ["."], more);
    NormalizeStepwise(base, parts, [name, ".."]);
    NormalizeStepwise(base, parts + [name, ".."], more);
    assert Normalize(here, ["."]) == here;
    assert [name, ".."][1..] == [".."];
    assert Normalize(here + [name], [".."]) == here;
  }

  /** A path of a patch resolves to its place in the repository, an absolute one to its place under the root. */
  lemma ResolvesToItsPlace(repo: Location, rel: RelPath)
    requires "." !in rel.parts && ".." !in rel.parts
    ensures Resolve(repo, rel) == if rel.absolute then rel.parts else repo + rel.parts
    ensures !rel.absolute ==> Under(repo, Resolve(repo, rel))
  {
    PlainPathsLieBelow(if rel.absolute then [] else repo, rel.parts);
  }

  function TargetsOf(repo: Location, rels: seq<RelPath>): set<Location> {
    set rel | rel in rels :: Resolve(repo, rel)
  }

  // What git apply may do

  datatype Write = Put(content: Bytes) | Remove

  /** Any of `writes` take effect, but only on `targets`. */
  function Written(files: Files, writes: map<Location, Write>, targets: set<Location>): Files {
    map p | p in files.Keys + writes.Keys && (if p in writes && p in targets then writes[p].Put? else p in files)
      :: if p in writes && p in targets then writes[p].content else files[p]
  }

  /** File by file: a write to a target takes effect, every other file stays. */
  lemma WrittenExactly(files: Files, writes: map<Location, Write>, targets: set<Location>, p: Location)
    ensures var after := Written(files, writes, targets);
            if p in targets && p in writes then
              match writes[p]
              case Put(content) => p in after && after[p] == content
              case Remove => p !in after
            else (p in after <==> p in files) && (p in files ==> after[p] == files[p])
  {
  }

  ghost predicate SameOutside(files: Files, files': Files, targets: set<Location>) {
    forall p :: p !in targets ==> (p in files <==> p in files') && (p in files ==> files'[p] == files[p])
  }

  lemma WrittenSameOutside(files: Files, writes: map<Location, Write>, targets: set<Location>)
    ensures SameOutside(files, Written(files, writes, targets), targets)
  {
  }

  // Snapshots

  datatype FileSnapshot = FileSnapshot(
    id: nat,
    runId: nat,
    target: Location,
    preSha: Option<Digest>,
    backup: Option<nat>,
    created: bool)

  type Backups = map<nat, Bytes>

  datatype RollbackStatus =
    | RolledBack
    | ApplyRunNotFound
    | RestorePolicyBlock
    | SnapshotInvalid
    | SnapshotHashMismatch
    | BackupMissing  // reading the backup raises

  datatype Restored = Restored(files: Files, status: RollbackStatus)

  function RestoreOne(files: Files, s: FileSnapshot, backups: Backups, repo: Location): Restored {
    if !Under(repo, s.target) then Restored(files, RestorePolicyBlock)
    else if s.created then Restored(files - {s.target}, RolledBack)
    else if s.backup.None? || s.preSha.None? then Restored(files, SnapshotInvalid)
    else if s.backup.value !in backups then Restored(files, BackupMissing)
    else if Sha256(backups[s.backup.value]) != s.preSha.value then Restored(files, SnapshotHashMismatch)
    else Restored(files[s.target := backups[s.backup.value]], RolledBack)
  }

  /** Each status names what is wrong with the row; a row with nothing wrong puts back its file, or its absence. */
  lemma RestoreNamesCause(files: Files, s: FileSnapshot, backups: Backups, repo: Location)
    ensures var r := RestoreOne(files, s, backups, repo);
            && r.status != ApplyRunNotFound
            && (r.status == RestorePolicyBlock <==> !(repo <= s.target))
            && (r.status == SnapshotInvalid ==> !s.created && (s.backup == None || s.preSha == None))
            && (r.status == BackupMissing ==> !s.created && s.backup.Some? && s.backup.value !in backups)
            && (r.status == SnapshotHashMismatch ==>
                  && !s.created && s.backup.Some? && s.backup.value in backups && s.preSha.Some?
                  && backups[s.backup.value] != s.preSha.value.preimage)
            && (r.status != RolledBack ==> r.files == files)
            && (r.status == RolledBack ==> r.files == if s.created then files - {s.target}
                                                      else files[s.target := s.preSha.value.preimage])
  {
  }

  /** The rows in the given order, stopping at the first that cannot be restored. */
  function RestoreRows(files: Files, rows: seq<FileSnapshot>, backups: Backups, repo: Location): Restored {
    if rows == [] then Restored(files, RolledBack)
    else
      var r := RestoreRows(files, rows[..|rows| - 1], backups, repo);
      if r.status != RolledBack then r else RestoreOne(r.files, rows[|rows| - 1], backups, repo)
  }

  predicate BackupIntact(s: FileSnapshot, backups: Backups) {
    s.created || (s.backup.Some? && s.preSha.Some? && s.backup.value in backups
                  && Sha256(backups[s.backup.value]) == s.preSha.value)
  }

  function RowTargets(rows: seq<FileSnapshot>): set<Location> {
    set s | s in rows :: s.target
  }

  lemma LastRow(rows: seq<FileSnapshot>)
    requires rows != []
    ensures forall s :: s in rows <==> s in rows[..|rows| - 1] || s == rows[|rows| - 1]
    ensures RowTargets(rows) == RowTargets(rows[..|rows| - 1]) + {rows[|rows| - 1].target}
  {
    SplitLast(rows);
  }

  /** A restore succeeds exactly when every row lies in the repository and has its backup intact. */
  lemma {:induction false} RestoreSucceedsExactly(files: Files, rows: seq<FileSnapshot>, backups: Backups,
                                                  repo: Location)
    ensures RestoreRows(files, rows, backups, repo).status == RolledBack
       <==> forall s :: s in rows ==> Under(repo, s.target) && BackupIntact(s, backups)
  {
    if rows != [] {
      RestoreSucceedsExactly(files, rows[..|rows| - 1], backups, repo);
      LastRow(rows);
    }
  }

  /** Whether or not it succeeds, a restore changes nothing but its targets. */
  lemma {:induction false} RestoreStaysOnTargets(files: Files, rows: seq<FileSnapshot>, backups: Backups,
                                                 repo: Location)
    ensures SameOutside(files, RestoreRows(files, rows, backups, repo).files, RowTargets(rows))
  {
    if rows != [] {
      RestoreStaysOnTargets(files, rows[..|rows| - 1], backups, repo);
      LastRow(rows);
    }
  }

  /** The row describes what was at its target in `pre`, and the backup still holds it. */
  ghost predicate Describes(s: FileSnapshot, pre: Files, backups: Backups, repo: Location) {
    && Under(repo, s.target)
    && (s.created <==> s.target !in pre)
    && (s.target in pre ==>
          && s.preSha == Some(Sha256(pre[s.target]))
          && s.backup.Some? && s.backup.value in backups && backups[s.backup.value] == pre[s.target])
  }

  /** `files` with the targets put back to what they are in `pre`. */
  ghost function PutBack(files: Files, pre: Files, targets: set<Location>): Files {
    map p | p in files.Keys + pre.Keys && (if p in targets then p in pre else p in files)
      :: if p in targets then pre[p] else files[p]
  }

  lemma OneRowPutsBack(files: Files, s: FileSnapshot, backups: Backups, repo: Location, pre: Files,
                       targets: set<Location>)
    requires Describes(s, pre, backups, repo)
    ensures RestoreOne(PutBack(files, pre, targets), s, backups, repo)
         == Restored(PutBack(files, pre, targets + {s.target}), RolledBack)
  {
    var r, wanted := RestoreOne(PutBack(files, pre, targets), s, backups, repo).files,
        PutBack(files, pre, targets + {s.target});
    assert forall p :: p in r <==> p in wanted;
  }

  /** Rows that describe one earlier state restore it, in whatever order they are listed. */
  lemma {:induction false} RestorePutsBack(files: Files, rows: seq<FileSnapshot>, backups: Backups, repo: Location,
                                           pre: Files)
    requires forall s :: s in rows ==> Describes(s, pre, backups, repo)
    ensures RestoreRows(files, rows, backups, repo) == Restored(PutBack(files, pre, RowTargets(rows)), RolledBack)
  {
    if rows == [] {
      assert PutBack(files, pre, {}) == files;
    } else {
      var front, last := rows[..|rows| - 1], rows[|rows| - 1];
      LastRow(rows);
      RestorePutsBack(files, front, backups, repo, pre);
      OneRowPutsBack(files, last, backups, repo, pre, RowTargets(front));
    }
  }

  lemma ListingOrderIsIrrelevant(files: Files, rows: seq<FileSnapshot>, rows': seq<FileSnapshot>, backups: Backups,
                                 repo: Location, pre: Files)
    requires forall s :: s in rows ==> Describes(s, pre, backups, repo)
    requires multiset(rows) == multiset(rows')
    ensures RestoreRows(files, rows, backups, repo) == RestoreRows(files, rows', backups, repo)
  {
    forall s ensures s in rows <==> s in rows' {
      assert s in rows <==> s in multiset(rows);
      assert s in rows' <==> s in multiset(rows');
    }
    assert RowTargets(rows) == RowTargets(rows');
    RestorePutsBack(files, rows, backups, repo, pre);
    RestorePutsBack(files, rows', backups, repo, pre);
  }

  lemma RestoringTwiceIsRestoringOnce(files: Files, rows: seq<FileSnapshot>, backups: Backups, repo: Location,
                                      pre: Files)
    requires forall s :: s in rows ==> Describes(s, pre, backups, repo)
    ensures var once := RestoreRows(files, rows, backups, repo).files;
            RestoreRows(once, rows, backups, repo).files == once
  {
    RestorePutsBack(files, rows, backups, repo, pre);
    RestorePutsBack(RestoreRows(files, rows, backups, repo).files, rows, backups, repo, pre);
  }

  /** Putting the targets back undoes a change completely exactly when it was confined to them. */
  lemma PutBackUndoesExactly(before: Files, after: Files, targets: set<Location>)
    ensures PutBack(after, before, targets) == before <==> SameOutside(before, after, targets)
  {
    var undone := PutBack(after, before, targets);
    if undone == before {
      forall p | p !in targets ensures (p in before <==> p in after) && (p in before ==> after[p] == before[p]) {
        assert p in undone <==> p in after;
      }
    }
  }

  // Stacks of runs

  /** One apply run: its repository, its rows, and the files just before and just after it. */
  datatype Applied = Applied(repo: Location, rows: seq<FileSnapshot>, before: Files, after: Files)

  /** The run changed nothing but its targets. */
  ghost predicate Confined(run: Applied) {
    SameOutside(run.before, run.after, RowTargets(run.rows))
  }

  ghost predicate Undoable(run: Applied, backups: Backups) {
    (forall s :: s in run.rows ==> Describes(s, run.before, backups, run.repo)) && Confined(run)
  }

  function FilesBelow(runs: seq<Applied>, base: Files, i: nat): Files
    requires i <= |runs|
  {
    if i == 0 then base else runs[i - 1].after
  }

  /** Each run starts from the files the previous one left; the first starts from `base`. */
  ghost predicate Stacked(runs: seq<Applied>, base: Files) {
    forall i :: 0 <= i < |runs| ==> runs[i].before == FilesBelow(runs, base, i)
  }

  function Top(runs: seq<Applied>, base: Files): Files {
    FilesBelow(runs, base, |runs|)
  }

  function RestoreNewestFirst(files: Files, runs: seq<Applied>, backups: Backups): Restored
    decreases |runs|
  {
    if runs == [] then Restored(files, RolledBack)
    else
      var newest := runs[|runs| - 1];
      var r := RestoreRows(files, newest.rows, backups, newest.repo);
      if r.status != RolledBack then r else RestoreNewestFirst(r.files, runs[..|runs| - 1], backups)
  }

  lemma StackedBelow(runs: seq<Applied>, base: Files)
    requires Stacked(runs, base) && runs != []
    ensures Stacked(runs[..|runs| - 1], base) && runs[|runs| - 1].before == Top(runs[..|runs| - 1], base)
  {
    var older := runs[..|runs| - 1];
    forall i | 0 <= i <= |older| ensures FilesBelow(older, base, i) == FilesBelow(runs, base, i) {
    }
  }

  /** Restoring any stack of runs newest first, however their files overlap, brings back the original files. */
  lemma {:induction false} RollbackUndoesStack(runs: seq<Applied>, base: Files, backups: Backups)
    requires Stacked(runs, base) && forall run :: run in runs ==> Undoable(run, backups)
    ensures RestoreNewestFirst(Top(runs, base), runs, backups) == Restored(base, RolledBack)
  {
    if runs != [] {
      var newest, older := runs[|runs| - 1], runs[..|runs| - 1];
      StackedBelow(runs, base);
      assert Undoable(newest, backups);
      RestorePutsBack(newest.after, newest.rows, backups, newest.repo, newest.before);
      PutBackUndoesExactly(newest.before, newest.after, RowTargets(newest.rows));
      RollbackUndoesStack(older, base, backups);
    }
  }
}
