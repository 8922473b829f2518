/** The parts of Python's `str` that the chunker and the patch service rely on. */
module PythonText {

  /** `str.isspace` of one character, which decides what `strip` removes. */
  predicate IsSpace(c: char) {
    || '\t' <= c <= '\r' || '\U{1c}' <= c <= ' ' || c == '\U{85}' || c == '\U{a0}' || c == '\U{1680}'
    || '\U{2000}' <= c <= '\U{200a}' || c == '\U{2028}' || c == '\U{2029}' || c == '\U{202f}' || c == '\U{205f}'
        || c == '\U{3000}'
  }

  /** The code points that Python counts as white space. */
  lemma SpaceExactly(c: char)
    ensures IsSpace(c) <==>
              c in {'\U{9}', '\U{a}', '\U{b}', '\U{c}', '\U{d}', '\U{1c}', '\U{1d}', '\U{1e}', '\U{1f}', '\U{20}',
                    '\U{85}', '\U{a0}', '\U{1680}', '\U{2000}', '\U{2001}', '\U{2002}', '\U{2003}', '\U{2004}',
                    '\U{2005}', '\U{2006}', '\U{2007}', '\U{2008}', '\U{2009}', '\U{200a}', '\U{2028}', '\U{2029}',
                    '\U{202f}', '\U{205f}', '\U{3000}'}
  {
  }

  /** `not text.strip()` */
  predicate Blank(text: string) {
    forall c :: c in text ==> IsSpace(c)
  }

  function SkipSpace(s: string, i: nat): (k: nat)
    requires i <= |s|
    ensures i <= k <= |s| && (forall j :: i <= j < k ==> IsSpace(s[j]))
    ensures k < |s| ==> !IsSpace(s[k])
    decreases |s| - i
  {
    if i == |s| || !IsSpace(s[i]) then i else SkipSpace(s, i + 1)
  }

  function SkipSpaceBack(s: string, i: nat, n: nat): (k: nat)
    requires i <= n <= |s|
    ensures i <= k <= n && (forall j :: k <= j < n ==> IsSpace(s[j]))
    ensures i < k ==> !IsSpace(s[k - 1])
  {
    if i == n || !IsSpace(s[n - 1]) then n else SkipSpaceBack(s, i, n - 1)
  }

  function Strip(s: string): string {
    var i := SkipSpace(s, 0);
    s[i..SkipSpaceBack(s, i, |s|)]
  }

  function Find(s: string, c: char, i: nat): (k: nat)
    requires i <= |s|
    ensures i <= k <= |s| && (forall j :: i <= j < k ==> s[j] != c)
    ensures k < |s| ==> s[k] == c
    decreases |s| - i
  {
    if i == |s| || s[i] == c then i else Find(s, c, i + 1)
  }

  /** `s.split(stop, 1)[0]` */
  function UpTo(s: string, stop: char): string {
    s[..Find(s, stop, 0)]
  }

  /** `s.replace("\\", "/")` */
  function Slashes(s: string): (r: string)
    ensures |r| == |s|
    ensures forall i :: 0 <= i < |s| ==> r[i] == if s[i] == '\\' then '/' else s[i]
  {
    seq(|s|, i requires 0 <= i < |s| => if s[i] == '\\' then '/' else s[i])
  }

  lemma SlashesOnce(s: string)
    ensures Slashes(Slashes(s)) == Slashes(s)
  {
  }

  // Lines

  /** The boundaries at which `str.splitlines` splits; a carriage return and a line feed together are one. */
  predicate IsBreak(c: char) {
    '\n' <= c <= '\r' || '\U{1c}' <= c <= '\U{1e}' || c == '\U{85}' || c == '\U{2028}' || c == '\U{2029}'
  }

  lemma BreakExactly(c: char)
    ensures IsBreak(c) <==>
              c in {'\U{a}', '\U{b}', '\U{c}', '\U{d}', '\U{1c}', '\U{1d}', '\U{1e}', '\U{85}', '\U{2028}', '\U{2029}'}
  {
  }

  predicate OneLine(s: string) {
    forall i :: 0 <= i < |s| ==> !IsBreak(s[i])
  }

  function FirstBreak(s: string, i: nat): (k: nat)
    requires i <= |s|
    ensures i <= k <= |s| && (forall j :: i <= j < k ==> !IsBreak(s[j]))
    ensures k < |s| ==> IsBreak(s[k])
    decreases |s| - i
  {
    if i == |s| || IsBreak(s[i]) then i else FirstBreak(s, i + 1)
  }

  function SplitLines(s: string): (lines: seq<string>)
    ensures forall l :: l in lines ==> OneLine(l)
    ensures lines == [] <==> s == ""
    decreases |s|
  {
    var k := FirstBreak(s, 0);
    if s == "" then []
    else if k == |s| then [s[..k]]
    else if s[k] == '\r' && k + 1 < |s| && s[k + 1] == '\n' then [s[..k]] + SplitLines(s[k + 2..])
    else [s[..k]] + SplitLines(s[k + 1..])
  }

  function JoinLines(lines: seq<string>): string {
    if lines == [] then "" else lines[0] + "\n" + JoinLines(lines[1..])
  }

  lemma {:induction false} JoinLinesAppends(a: seq<string>, b: seq<string>)
    ensures JoinLines(a + b) == JoinLines(a) + JoinLines(b)
  {
    if a == [] {
      assert a + b == b;
    } else {
      JoinLinesAppends(a[1..], b);
      assert (a + b)[1..] == a[1..] + b;
    }
  }

  /** Lines written one after the other are read back as they were. */
  lemma {:induction false} LinesRoundTrip(lines: seq<string>)
    requires forall l :: l in lines ==> OneLine(l)
    ensures SplitLines(JoinLines(lines)) == lines
  {
    if lines != [] {
      var s, k, rest := JoinLines(lines), |lines[0]|, JoinLines(lines[1..]);
      LinesRoundTrip(lines[1..]);
      assert s[..k] == lines[0] && s[k] == '\n' && s[k + 1..] == rest;
      assert lines[0] in lines;
      assert FirstBreak(s, 0) == k;
    }
  }

  /** A break between two lines: a carriage return with its line feed, or any one of the boundaries. */
  predicate IsBoundary(b: string) {
    b == ['\r', '\n'] || (|b| == 1 && IsBreak(b[0]))
  }

  /**
   * A line, whatever boundary ends it, is the first line; the rest of the text gives the others. A carriage return
   * is a boundary of its own only if no line feed follows.
   */
  lemma LinesPartAtAnyBoundary(line: string, boundary: string, rest: string)
    requires OneLine(line) && IsBoundary(boundary)
    requires boundary == ['\r'] ==> rest == "" || rest[0] != '\n'
    ensures SplitLines(line + boundary + rest) == [line] + SplitLines(rest)
  {
    var s, k := line + boundary + rest, |line|;
    assert forall i :: 0 <= i < k ==> s[i] == line[i];
    assert s[k] == boundary[0];
    assert FirstBreak(s, 0) == k;
    assert s[..k] == line && s[k + |boundary|..] == rest;
    if |boundary| == 2 {
      assert s[k + 1] == '\n';
    } else if s[k] == '\r' && rest != "" {
      assert s[k + 1] == rest[0];
    }
  }

  /** A last line without a boundary is a line as well. */
  lemma LastLine(line: string)
    requires OneLine(line)
    ensures SplitLines(line) == if line == "" then [] else [line]
  {
    assert line[..|line|] == line;
  }

  /** Stripping takes off white space at both ends and nothing else. */
  lemma StripExactly(before: string, s: string, after: string)
    requires (forall c :: c in before ==> IsSpace(c)) && (forall c :: c in after ==> IsSpace(c))
    requires s != "" && !IsSpace(s[0]) && !IsSpace(s[|s| - 1])
    ensures Strip(before + s + after) == s
  {
    var all, i, n := before + s + after, |before|, |before| + |s|;
    forall k | 0 <= k < i ensures IsSpace(all[k]) {
      assert all[k] == before[k] && before[k] in before;
    }
    assert all[i] == s[0] && all[n - 1] == s[|s| - 1];
    forall k | n <= k < |all| ensures IsSpace(all[k]) {
      assert all[k] == after[k - n] && after[k - n] in after;
    }
    assert SkipSpace(all, 0) == i;
    assert SkipSpaceBack(all, i, |all|) == n;
  }

  lemma StripOfBlank(s: string)
    requires Blank(s)
    ensures Strip(s) == ""
  {
    forall k | 0 <= k < |s| ensures IsSpace(s[k]) {
      assert s[k] in s;
    }
  }

  /** Up to a character that the text does not hold there is the whole text, and otherwise what stands before it. */
  lemma UpToExactly(s: string, stop: char, more: string)
    requires stop !in s
    ensures UpTo(s, stop) == s && UpTo(s + [stop] + more, stop) == s
  {
    var all := s + [stop] + more;
    assert forall k :: 0 <= k < |s| ==> all[k] == s[k] && s[k] in s;
    assert all[|s|] == stop;
    assert Find(all, stop, 0) == |s|;
    assert Find(s, stop, 0) == |s|;
  }
}
