/**
 * `_build_diff` of orchestrator/patching/service.py and `_affected_paths` of
 * orchestrator/patching/validation.py: the header lines one writes and the paths the other reads.
 */
module DiffPaths {
  import opened Graphs
  import opened PythonText
  import opened Wrappers

  datatype Change = Change(relPath: string, before: string, after: string)

  /** One line that `difflib.unified_diff` yields below the two header lines of a file. */
  datatype HunkLine = Hunk(range: string) | Context(line: string) | Removed(line: string) | Added(line: string)

  function Text(h: HunkLine): string {
    match h
    case Hunk(range) => "@@ " + range
    case Context(line) => " " + line
    case Removed(line) => "-" + line
    case Added(line) => "+" + line
  }

  /** The pieces that stand on a line of their own already carry their line feed. */
  function Piece(h: HunkLine): string {
    if h.Hunk? then Text(h) + "\n" else Text(h)
  }

  predicate Differ(c: Change) {
    SplitLines(c.before) != SplitLines(c.after)
  }

  /** All that the model knows of the hunks: which line each of their lines is taken from. */
  predicate IsBody(c: Change, body: seq<HunkLine>) {
    forall h :: h in body ==>
      match h
      case Hunk(range) => OneLine(range)
      case Context(line) => line in SplitLines(c.before)
      case Removed(line) => line in SplitLines(c.before)
      case Added(line) => line in SplitLines(c.after)
  }

  predicate AreBodies(changes: seq<Change>, bodies: seq<seq<HunkLine>>) {
    |bodies| == |changes| && forall k :: 0 <= k < |changes| ==> IsBody(changes[k], bodies[k])
  }

  function SideName(side: char, path: string): (name: string)
    ensures |name| == |path| + 2 && name[0] == side && name[1] == '/' && name[2..] == path
  {
    [side, '/'] + path
  }

  function OldName(c: Change): string {
    if c.before != "" then SideName('a', Slashes(c.relPath)) else "/dev/null"
  }

  function NewName(c: Change): string {
    if c.after != "" then SideName('b', Slashes(c.relPath)) else "/dev/null"
  }

  function TextsOf(body: seq<HunkLine>): (r: seq<string>)
    ensures |r| == |body| && forall i :: 0 <= i < |body| ==> r[i] == Text(body[i])
  {
    seq(|body|, i requires 0 <= i < |body| => Text(body[i]))
  }

  function Headers(c: Change): seq<string> {
    ["--- " + OldName(c), "+++ " + NewName(c)]
  }

  /** The lines that describe one file: none when the two line lists are the same. */
  function FileLines(c: Change, body: seq<HunkLine>): seq<string> {
    if Differ(c) then Headers(c) + TextsOf(body) else []
  }

  function LinesOfEach(changes: seq<Change>, bodies: seq<seq<HunkLine>>): (r: seq<seq<string>>)
    requires |bodies| == |changes|
    ensures |r| == |changes| && forall k :: 0 <= k < |changes| ==> r[k] == FileLines(changes[k], bodies[k])
  {
    seq(|changes|, k requires 0 <= k < |changes| => FileLines(changes[k], bodies[k]))
  }

  function Flatten<T>(files: seq<seq<T>>): seq<T> {
    if files == [] then [] else Flatten(files[..|files| - 1]) + files[|files| - 1]
  }

  /** The files follow each other in the order given. */
  lemma {:induction false} FlattenInOrder<T>(files: seq<seq<T>>, more: seq<seq<T>>)
    ensures Flatten(files + more) == Flatten(files) + Flatten(more)
    ensures forall file: seq<T> :: Flatten([file]) == file
  {
    forall file: seq<T> ensures Flatten([file]) == file {
      assert [file][..0] == [];
    }
    if more == [] {
      assert files + more == files;
    } else {
      var n := |more| - 1;
      FlattenInOrder(files, more[..n]);
      assert (files + more)[..|files + more| - 1] == files + more[..n];
    }
  }

  /** The lines of the whole diff. */
  function DiffLines(changes: seq<Change>, bodies: seq<seq<HunkLine>>): seq<string>
    requires |bodies| == |changes|
  {
    Flatten(LinesOfEach(changes, bodies))
  }

  /** `line if line.endswith("\n") else f"{line}\n"` */
  function Ended(piece: string): string {
    if piece != "" && piece[|piece| - 1] == '\n' then piece else piece + "\n"
  }

  function Concat(pieces: seq<string>): string {
    if pieces == [] then "" else Concat(pieces[..|pieces| - 1]) + Ended(pieces[|pieces| - 1])
  }

  function UnifiedDiff(c: Change, body: seq<HunkLine>): seq<string> {
    if Differ(c)
    then ["--- " + OldName(c) + "\n", "+++ " + NewName(c) + "\n"]
        + seq(|body|, i requires 0 <= i < |body| => Piece(body[i]))
    else []
  }

  method BuildDiff(changes: seq<Change>, bodies: seq<seq<HunkLine>>) returns (diff: string)
    requires AreBodies(changes, bodies)
    ensures diff == JoinLines(DiffLines(changes, bodies))
  {
    var pieces: seq<string> := [];
    ghost var files := LinesOfEach(changes, bodies);
    for k := 0 to |changes|
      invariant Concat(pieces) == JoinLines(Flatten(files[..k]))
    {
      assert files[..k + 1][..k] == files[..k];
      OneMoreFile(pieces, Flatten(files[..k]), changes[k], bodies[k]);
      pieces := pieces + UnifiedDiff(changes[k], bodies[k]);
    }
    assert files[..|changes|] == files;
    diff := Concat(pieces);
  }

  lemma OneMoreFile(pieces: seq<string>, lines: seq<string>, c: Change, body: seq<HunkLine>)
    requires Concat(pieces) == JoinLines(lines) && IsBody(c, body)
    ensures Concat(pieces + UnifiedDiff(c, body)) == JoinLines(lines + FileLines(c, body))
  {
    if Differ(c) {
      EachPieceIsALine(c, body);
      PiecesAreLines(pieces, lines, UnifiedDiff(c, body), FileLines(c, body));
    } else {
      assert pieces + [] == pieces && lines + [] == lines;
    }
  }

  lemma EachPieceIsALine(c: Change, body: seq<HunkLine>)
    requires IsBody(c, body)
    ensures |UnifiedDiff(c, body)| == |FileLines(c, body)|
    ensures forall i :: 0 <= i < |UnifiedDiff(c, body)| ==>
        Ended(UnifiedDiff(c, body)[i]) == FileLines(c, body)[i] + "\n"
  {
    var pieces, lines := UnifiedDiff(c, body), FileLines(c, body);
    forall i | 0 <= i < |pieces| ensures Ended(pieces[i]) == lines[i] + "\n" {
      if i >= 2 {
        PieceEnds(c, body, i - 2);
        assert pieces[i] == Piece(body[i - 2]) && lines[i] == Text(body[i - 2]);
      }
    }
  }

  lemma PieceEnds(c: Change, body: seq<HunkLine>, i: nat)
    requires IsBody(c, body) && i < |body|
    ensures Ended(Piece(body[i])) == Text(body[i]) + "\n"
  {
    var h := body[i];
    assert h in body;
    if !h.Hunk? {
      assert OneLine(h.line);
      assert Piece(h)[1..] == h.line;
    }
  }

  lemma {:induction false} PiecesAreLines(pieces: seq<string>, lines: seq<string>, more: seq<string>,
                                          texts: seq<string>)
    requires Concat(pieces) == JoinLines(lines)
    requires |more| == |texts| && forall i :: 0 <= i < |more| ==> Ended(more[i]) == texts[i] + "\n"
    ensures Concat(pieces + more) == JoinLines(lines + texts)
  {
    if more == [] {
      assert pieces + more == pieces && lines + texts == lines;
    } else {
      var k := |more| - 1;
      PiecesAreLines(pieces, lines, more[..k], texts[..k]);
      LastLast(pieces, more);
      LastLast(lines, texts);
      JoinLinesAppends(lines + texts[..k], [texts[k]]);
      assert Ended(more[k]) == texts[k] + "\n";
      OneLineJoined(texts[k]);
      ConcatAppends(pieces + more[..k], more[k]);
    }
  }

  lemma LastLast(a: seq<string>, b: seq<string>)
    requires b != []
    ensures a + b == a + b[..|b| - 1] + [b[|b| - 1]]
  {
  }

  lemma OneLineJoined(line: string)
    ensures JoinLines([line]) == line + "\n"
  {
    assert JoinLines([]) == "";
  }

  lemma ConcatAppends(pieces: seq<string>, piece: string)
    ensures Concat(pieces + [piece]) == Concat(pieces) + Ended(piece)
  {
    assert (pieces + [piece])[..|pieces|] == pieces;
  }

  // Reading the paths back

  /** `line.startswith(("--- ", "+++ "))` */
  predicate IsHeader(line: string) {
    |line| >= 4 && (line[0] == '-' || line[0] == '+') && line[1] == line[0] && line[2] == line[0] && line[3] == ' '
  }

  /** The path that the text behind the marker stands for, unless it stands for a file that does not exist. */
  function PathIn(name: string): Option<string> {
    var raw := UpTo(Strip(name), '\t');
    if raw == "/dev/null" then None
    else if |raw| >= 2 && (raw[0] == 'a' || raw[0] == 'b') && raw[1] == '/' then Some(Slashes(raw[2..]))
    else Some(Slashes(raw))
  }

  /** The path a line names, if it reads as a header line that names one. */
  function HeaderPath(line: string): Option<string> {
    if IsHeader(line) then PathIn(line[4..]) else None
  }

  function Named(lines: seq<string>): seq<string> {
    if lines == [] then []
    else
      var path := HeaderPath(lines[|lines| - 1]);
      Named(lines[..|lines| - 1]) + if path.Some? then [path.value] else []
  }

  function FirstOccurrences(paths: seq<string>): (r: seq<string>)
    ensures Distinct(r) && forall p :: p in r <==> p in paths
  {
    if paths == [] then []
    else
      var r, last := FirstOccurrences(paths[..|paths| - 1]), paths[|paths| - 1];
      if last in r then r else r + [last]
  }

  method AffectedPaths(diff: string) returns (deduped: seq<string>)
    ensures deduped == FirstOccurrences(Named(SplitLines(diff)))
  {
    var lines := SplitLines(diff);
    var paths: seq<string> := [];
    for k := 0 to |lines|
      invariant paths == Named(lines[..k])
    {
      assert lines[..k + 1][..k] == lines[..k];
      var path := HeaderPath(lines[k]);
      if path.Some? {
        paths := paths + [path.value];
      }
    }
    assert lines[..|lines|] == lines;
    deduped := [];
    for k := 0 to |paths|
      invariant deduped == FirstOccurrences(paths[..k])
    {
      assert paths[..k + 1][..k] == paths[..k];
      if paths[k] !in deduped {
        deduped := deduped + [paths[k]];
      }
    }
    assert paths[..|paths|] == paths;
  }

  /** Paths met later come after those met before. */
  lemma {:induction false} EarlierPathsComeFirst(paths: seq<string>, more: seq<string>)
    ensures FirstOccurrences(paths) <= FirstOccurrences(paths + more)
  {
    if more == [] {
      assert paths + more == paths;
    } else {
      var n := |more| - 1;
      EarlierPathsComeFirst(paths, more[..n]);
      assert (paths + more)[..|paths + more| - 1] == paths + more[..n];
    }
  }

  // Which paths come back

  /** A path that survives in a header line: the reader cuts at a tab and strips white space. */
  predicate Plain(path: string) {
    '\t' !in path && (path == "" || !IsSpace(path[|path| - 1]))
  }

  lemma HeaderRoundTripsExactly(side: char, path: string)
    requires (side == 'a' || side == 'b') && Slashes(path) == path
    ensures PathIn(SideName(side, path)) == Some(path) <==> Plain(path)
  {
    var name := SideName(side, path);
    var raw := UpTo(Strip(name), '\t');
    CutName(side, path);
    assert raw[0] == side && raw[1] == '/' && "/dev/null"[0] == '/';
    PrefixBehindSide(name, path, |raw|);
    var cut := path[..|raw| - 2];
    assert PathIn(name) == Some(cut);
    assert cut == path <==> |cut| == |path|;
  }

  /** How much of the name is left: all of it just when the path is plain. */
  lemma CutName(side: char, path: string)
    requires side == 'a' || side == 'b'
    ensures var name := SideName(side, path); var raw := UpTo(Strip(name), '\t');
      2 <= |raw| <= |name| && raw == name[..|raw|] && (|raw| == |name| <==> Plain(path))
  {
    var name := SideName(side, path);
    assert SkipSpace(name, 0) == 0;
    var n := SkipSpaceBack(name, 0, |name|);
    assert Strip(name) == name[..n] && n >= 2;
    assert path != "" ==> name[|name| - 1] == path[|path| - 1];
    assert forall i :: 2 <= i < |name| ==> name[i] == path[i - 2];
    assert forall i :: 0 <= i < |path| ==> name[i + 2] == path[i];
  }

  lemma PrefixBehindSide(name: string, path: string, n: nat)
    requires 2 <= n <= |name| && name[2..] == path
    ensures name[..n][2..] == path[..n - 2]
    ensures Slashes(path) == path ==> Slashes(path[..n - 2]) == path[..n - 2]
  {
  }

  /** A name without a side stands for itself, white space around it and anything behind a tab left out. */
  lemma BareNameIsItself(path: string, more: string)
    requires path != "" && path != "/dev/null" && '\t' !in path && !IsSpace(path[0])
    requires |path| >= 2 ==> !((path[0] == 'a' || path[0] == 'b') && path[1] == '/')
    requires more == "" ==> !IsSpace(path[|path| - 1])
    requires more != "" ==> more[0] == '\t' && !IsSpace(more[|more| - 1])
    ensures PathIn([' '] + path + more + [' ']) == Some(Slashes(path))
  {
    var body := path + more;
    StripExactly([' '], body, [' ']);
    assert [' '] + path + more + [' '] == [' '] + body + [' '];
    if more == "" {
      assert body == path;
      UpToExactly(path, '\t', "");
    } else {
      assert body == path + ['\t'] + more[1..];
      UpToExactly(path, '\t', more[1..]);
    }
  }

  /** The two lines above the hunks of a file name its old and its new side, and a side without text as no file. */
  lemma HeaderLines(c: Change, body: seq<HunkLine>)
    requires SplitLines(c.before) != SplitLines(c.after)
    ensures |FileLines(c, body)| == |body| + 2
    ensures FileLines(c, body)[0] == "--- " + if c.before == "" then "/dev/null" else ['a', '/'] + Slashes(c.relPath)
    ensures FileLines(c, body)[1] == "+++ " + if c.after == "" then "/dev/null" else ['b', '/'] + Slashes(c.relPath)
  {
    assert FileLines(c, body) == Headers(c) + TextsOf(body);
  }

  /** Each hunk line carries its mark. */
  lemma HunkLines(c: Change, body: seq<HunkLine>, i: nat)
    requires SplitLines(c.before) != SplitLines(c.after) && i < |body|
    ensures |FileLines(c, body)| == |body| + 2
    ensures FileLines(c, body)[i + 2] == match body[i]
                                         case Hunk(range) => "@@ " + range
                                         case Context(line) => " " + line
                                         case Removed(line) => "-" + line
                                         case Added(line) => "+" + line
  {
    assert FileLines(c, body) == Headers(c) + TextsOf(body);
  }

  lemma NothingToSay(c: Change, body: seq<HunkLine>)
    requires SplitLines(c.before) == SplitLines(c.after)
    ensures FileLines(c, body) == []
  {
  }

  lemma NullNamesNothing()
    ensures PathIn("/dev/null") == None
  {
    var name := "/dev/null";
    assert name[0] == '/' && name[8] == 'l';
    assert SkipSpace(name, 0) == 0 && SkipSpaceBack(name, 0, 9) == 9;
    assert forall i :: 0 <= i < 9 ==> name[i] != '\t';
    assert Find(name, '\t', 0) == 9;
  }

  /** A changed line that, with its sign, reads as a header line. */
  predicate Disguised(h: HunkLine) {
    || (h.Removed? && |h.line| >= 3 && h.line[0] == '-' && h.line[1] == '-' && h.line[2] == ' ')
    || (h.Added? && |h.line| >= 3 && h.line[0] == '+' && h.line[1] == '+' && h.line[2] == ' ')
  }

  lemma DisguisedExactly(h: HunkLine)
    ensures IsHeader(Text(h)) <==> Disguised(h)
  {
    if h.Removed? || h.Added? {
      assert Text(h)[1..] == h.line;
    }
  }

  predicate Touched(changes: seq<Change>, path: string) {
    exists k | 0 <= k < |changes| ::
      SplitLines(changes[k].before) != SplitLines(changes[k].after) && Slashes(changes[k].relPath) == path
  }

  predicate NamedInDisguise(changes: seq<Change>, bodies: seq<seq<HunkLine>>, path: string)
    requires |bodies| == |changes|
  {
    exists k | 0 <= k < |changes| :: Differ(changes[k]) && DisguisedIn(bodies[k], path)
  }

  predicate DisguisedIn(body: seq<HunkLine>, path: string) {
    exists h :: h in body && Disguised(h) && HeaderPath(Text(h)) == Some(path)
  }

  /** Each changed path is one that a header line can carry. */
  predicate PlainPaths(changes: seq<Change>) {
    forall k :: 0 <= k < |changes| && Differ(changes[k]) ==>
      OneLine(changes[k].relPath) && Plain(Slashes(changes[k].relPath))
  }

  predicate Names(lines: seq<string>, path: string) {
    exists line :: line in lines && HeaderPath(line) == Some(path)
  }

  lemma NamesOfBoth(a: seq<string>, b: seq<string>, path: string)
    ensures Names(a + b, path) <==> Names(a, path) || Names(b, path)
  {
  }

  lemma {:induction false} NamedExactly(lines: seq<string>, path: string)
    ensures path in Named(lines) <==> Names(lines, path)
  {
    if lines != [] {
      var n := |lines| - 1;
      NamedExactly(lines[..n], path);
      NamesOfBoth(lines[..n], [lines[n]], path);
      assert lines == lines[..n] + [lines[n]];
    }
  }

  lemma NamesOfBody(body: seq<HunkLine>, path: string)
    ensures Names(TextsOf(body), path) <==> DisguisedIn(body, path)
  {
    var lines := TextsOf(body);
    forall i | 0 <= i < |lines| ensures HeaderPath(lines[i]).Some? ==> Disguised(body[i]) {
      DisguisedExactly(body[i]);
    }
    if DisguisedIn(body, path) {
      var h :| h in body && Disguised(h) && HeaderPath(Text(h)) == Some(path);
      var i :| 0 <= i < |body| && body[i] == h;
      assert lines[i] == Text(h);
    }
  }

  lemma NamesOfFile(c: Change, body: seq<HunkLine>, path: string)
    requires Differ(c) && Plain(Slashes(c.relPath))
    ensures Names(FileLines(c, body), path) <==> Slashes(c.relPath) == path || DisguisedIn(body, path)
  {
    NamesOfHeaders(c, path);
    NamesOfBody(body, path);
    NamesOfBoth(Headers(c), TextsOf(body), path);
  }

  /** At least one of the two header lines names the file, and neither names anything else. */
  lemma NamesOfHeaders(c: Change, path: string)
    requires Differ(c) && Plain(Slashes(c.relPath))
    ensures Names(Headers(c), path) <==> Slashes(c.relPath) == path
  {
    assert c.before != "" || c.after != "";
    SlashesOnce(c.relPath);
    HeaderNames("--- ", 'a', c.before != "", Slashes(c.relPath));
    HeaderNames("+++ ", 'b', c.after != "", Slashes(c.relPath));
    NamesOfTwo("--- " + OldName(c), "+++ " + NewName(c), path);
  }

  lemma NamesOfTwo(line: string, next: string, path: string)
    ensures Names([line, next], path) <==> HeaderPath(line) == Some(path) || HeaderPath(next) == Some(path)
  {
  }

  lemma HeaderNames(marker: string, side: char, present: bool, path: string)
    requires (marker == "--- " || marker == "+++ ") && (side == 'a' || side == 'b')
    requires Slashes(path) == path && Plain(path)
    ensures HeaderPath(marker + if present then SideName(side, path) else "/dev/null")
         == if present then Some(path) else None
  {
    BehindMarker(SideName(side, path));
    BehindMarker("/dev/null");
    HeaderRoundTripsExactly(side, path);
    NullNamesNothing();
  }

  lemma BehindMarker(name: string)
    ensures HeaderPath("--- " + name) == PathIn(name) && HeaderPath("+++ " + name) == PathIn(name)
  {
    assert ("--- " + name)[4..] == name && ("+++ " + name)[4..] == name;
  }

  lemma {:induction false} FlattenExactly<T>(files: seq<seq<T>>, x: T)
    ensures x in Flatten(files) <==> exists k | 0 <= k < |files| :: x in files[k]
  {
    if files != [] {
      FlattenExactly(files[..|files| - 1], x);
    }
  }

  lemma FlattenNames(files: seq<seq<string>>, path: string)
    ensures Names(Flatten(files), path) <==> exists k | 0 <= k < |files| :: Names(files[k], path)
  {
    forall line ensures line in Flatten(files) <==> exists k | 0 <= k < |files| :: line in files[k] {
      FlattenExactly(files, line);
    }
  }

  lemma LinesOfAllFiles(changes: seq<Change>, bodies: seq<seq<HunkLine>>, path: string)
    requires |bodies| == |changes| && PlainPaths(changes)
    ensures Names(DiffLines(changes, bodies), path)
        <==> Touched(changes, path) || NamedInDisguise(changes, bodies, path)
  {
    var files := LinesOfEach(changes, bodies);
    FlattenNames(files, path);
    forall k | 0 <= k < |changes|
      ensures Names(files[k], path)
          <==> Differ(changes[k]) && (Slashes(changes[k].relPath) == path || DisguisedIn(bodies[k], path))
    {
      if Differ(changes[k]) {
        NamesOfFile(changes[k], bodies[k], path);
      }
    }
  }

  lemma DiffLinesAreLines(changes: seq<Change>, bodies: seq<seq<HunkLine>>)
    requires AreBodies(changes, bodies) && PlainPaths(changes)
    ensures forall line :: line in DiffLines(changes, bodies) ==> OneLine(line)
  {
    var files := LinesOfEach(changes, bodies);
    forall k, line | 0 <= k < |files| && line in files[k] ensures OneLine(line) {
      if Differ(changes[k]) {
        FileLinesAreLines(changes[k], bodies[k]);
      }
    }
    forall line | line in DiffLines(changes, bodies) ensures OneLine(line) {
      FlattenExactly(files, line);
    }
  }

  lemma FileLinesAreLines(c: Change, body: seq<HunkLine>)
    requires IsBody(c, body) && OneLine(c.relPath)
    ensures forall line :: line in FileLines(c, body) ==> OneLine(line)
  {
    forall i | 0 <= i < |body| ensures OneLine(TextsOf(body)[i]) {
      assert body[i] in body;
      TextIsALine(body[i]);
    }
    HeadersAreLines(c);
  }

  lemma TextIsALine(h: HunkLine)
    requires if h.Hunk? then OneLine(h.range) else OneLine(h.line)
    ensures OneLine(Text(h))
  {
  }

  lemma HeadersAreLines(c: Change)
    requires OneLine(c.relPath)
    ensures OneLine(Headers(c)[0]) && OneLine(Headers(c)[1])
  {
    assert OneLine("/dev/null");
    assert OneLine(SideName('a', Slashes(c.relPath)));
    assert OneLine(SideName('b', Slashes(c.relPath)));
    AfterMarker(OldName(c));
    AfterMarker(NewName(c));
  }

  lemma AfterMarker(name: string)
    requires OneLine(name)
    ensures OneLine("--- " + name) && OneLine("+++ " + name)
  {
  }

  /** What the validation service reads from a diff that the patch service built. */
  predicate ReadBack(changes: seq<Change>, bodies: seq<seq<HunkLine>>, affected: seq<string>)
    requires |bodies| == |changes|
  {
    affected == FirstOccurrences(Named(SplitLines(JoinLines(DiffLines(changes, bodies)))))
  }

  /** The paths read back are the files with differing line lists, and those that a changed line names in disguise. */
  lemma AffectedExactly(changes: seq<Change>, bodies: seq<seq<HunkLine>>, affected: seq<string>, path: string)
    requires AreBodies(changes, bodies) && PlainPaths(changes) && ReadBack(changes, bodies, affected)
    ensures Distinct(affected)
    ensures path in affected <==> Touched(changes, path) || NamedInDisguise(changes, bodies, path)
  {
    DiffLinesAreLines(changes, bodies);
    LinesRoundTrip(DiffLines(changes, bodies));
    NamedExactly(DiffLines(changes, bodies), path);
    LinesOfAllFiles(changes, bodies, path);
  }

  lemma SnapshotCoversTouchedFiles(changes: seq<Change>, bodies: seq<seq<HunkLine>>, affected: seq<string>)
    requires AreBodies(changes, bodies) && PlainPaths(changes) && ReadBack(changes, bodies, affected)
    ensures forall k :: 0 <= k < |changes| && SplitLines(changes[k].before) != SplitLines(changes[k].after) ==>
              Slashes(changes[k].relPath) in affected
    ensures (forall k, h :: 0 <= k < |changes| && h in bodies[k] ==> !Disguised(h))
        ==> forall path :: path in affected <==> Touched(changes, path)
  {
    forall path ensures path in affected <==> Touched(changes, path) || NamedInDisguise(changes, bodies, path) {
      AffectedExactly(changes, bodies, affected, path);
    }
  }

  /** The validation service reads back a path that the patch does not touch. */
  ghost predicate NamesAnotherFile(changes: seq<Change>, bodies: seq<seq<HunkLine>>, path: string) {
    && |bodies| == |changes| && AreBodies(changes, bodies) && PlainPaths(changes)
    && !Touched(changes, path)
    && forall affected :: ReadBack(changes, bodies, affected) ==> path in affected
  }

  lemma DisguisedLineNamesAnotherFile()
    ensures exists changes, bodies, path :: NamesAnotherFile(changes, bodies, path)
  {
    var line := ['-', '-', ' ', 'g'];
    RemovedLineMisleads(Change(['f'], line, ""), Removed(line), ['g']);
  }

  lemma RemovedLineMisleads(c: Change, h: HunkLine, path: string)
    requires |c.relPath| == 1 && c.relPath[0] == 'f' && |path| == 1 && path[0] == 'g'
    requires c.before == ['-', '-', ' '] + path && c.after == "" && h == Removed(c.before)
    ensures NamesAnotherFile([c], [[h]], path)
  {
    SplitsToItself(c.before);
    RemovedLineNames(c.before, path);
    OneFileMisleads(c, h, path);
  }

  lemma SplitsToItself(line: string)
    requires OneLine(line) && line != ""
    ensures SplitLines(line) == [line]
  {
    assert line[..|line|] == line;
  }

  lemma OneFileMisleads(c: Change, h: HunkLine, path: string)
    requires Differ(c) && OneLine(c.relPath) && Plain(Slashes(c.relPath)) && Slashes(c.relPath) != path
    requires h.Removed? && h.line in SplitLines(c.before) && HeaderPath(Text(h)) == Some(path)
    ensures NamesAnotherFile([c], [[h]], path)
  {
    var body := [h];
    DisguisedExactly(h);
    assert h in body && DisguisedIn(body, path);
    OneFile([c], [body], path);
  }

  lemma OneFile(changes: seq<Change>, bodies: seq<seq<HunkLine>>, path: string)
    requires |changes| == |bodies| == 1 && IsBody(changes[0], bodies[0]) && PlainPaths(changes)
    requires Differ(changes[0]) && Slashes(changes[0].relPath) != path && DisguisedIn(bodies[0], path)
    ensures NamesAnotherFile(changes, bodies, path)
  {
    forall affected | ReadBack(changes, bodies, affected) ensures path in affected {
      AffectedExactly(changes, bodies, affected, path);
    }
  }

  lemma RemovedLineNames(line: string, path: string)
    requires |path| == 1 && path[0] == 'g' && line == ['-', '-', ' '] + path
    ensures HeaderPath(Text(Removed(line))) == Some(path)
  {
    assert Text(Removed(line))[4..] == path;
    OneLetterName(path);
  }

  lemma OneLetterName(path: string)
    requires |path| == 1 && path[0] == 'g'
    ensures PathIn(path) == Some(path)
  {
    assert Strip(path) == path && UpTo(path, '\t') == path;
    assert Slashes(path) == path;
  }
}
