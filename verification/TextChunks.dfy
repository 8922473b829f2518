/** `TextProcessorAdapter.process_text` of orchestrator/ingest/processors.py. */
module TextChunks {
  import opened PythonText
  import opened Wrappers

  datatype DocumentChunk = DocumentChunk(content: string, index: nat)

  /** The two sizes of an adapter. */
  datatype Sizes = Sizes(chunkSize: int, chunkOverlap: int)

  /** An adapter that the constructor has let pass: the chunk may even be negative. */
  type TextProcessor = p: Sizes | p.chunkOverlap < p.chunkSize witness Sizes(1, 0)

  /** The constructor of the adapter; an error when the overlap is not smaller than the chunk. */
  function Configure(chunkSize: int, chunkOverlap: int): (r: Result<Sizes, string>)
    ensures r.Ok? ==> r.value == Sizes(chunkSize, chunkOverlap) && r.value.chunkOverlap < r.value.chunkSize
  {
    if chunkOverlap >= chunkSize then Err("chunk_overlap must be smaller than chunk_size")
    else Ok(Sizes(chunkSize, chunkOverlap))
  }

  /** Some window does not start inside a text of length n. */
  ghost predicate PassesEnd(p: Sizes, n: nat) {
    exists k: nat :: n <= StartOf(p, k)
  }

  function StartOf(p: Sizes, k: nat): int {
    k * StepOf(p)
  }

  /** The constructor accepts just the sizes whose windows move on until they have passed the end of any text. */
  lemma AcceptedSizesPassAnyText(chunkSize: int, chunkOverlap: int)
    ensures Configure(chunkSize, chunkOverlap).Ok? <==> forall n: nat :: PassesEnd(Sizes(chunkSize, chunkOverlap), n)
  {
    var p := Sizes(chunkSize, chunkOverlap);
    if chunkOverlap < chunkSize {
      forall n: nat ensures PassesEnd(p, n) {
        assert n <= StartOf(p, n);
      }
    } else {
      forall k: nat ensures StartOf(p, k) <= 0 {
      }
      assert !PassesEnd(p, 1);
    }
  }

  function Min(a: int, b: int): int {
    if a < b then a else b
  }

  function StepOf(p: Sizes): int {
    p.chunkSize - p.chunkOverlap
  }

  /** Where a slice `text[start:end]` ends: a negative end counts from the end of the text, and never before `start`. */
  function SliceEnd(n: nat, start: nat, end: int): (e: nat)
    requires start <= n
    ensures start <= e <= n
  {
    var from := if end < 0 then n + end else end;
    if from < start then start else Min(from, n)
  }

  /** Which characters a slice holds: those before its end, counted from the front or, if negative, from the back. */
  lemma SliceExactly(n: nat, start: nat, end: int, i: nat)
    requires start <= i < n
    ensures i < SliceEnd(n, start, end) <==> if end < 0 then i - n < end else i < end
  {
  }

  /** Where the k-th window ends. */
  function WindowEnd(n: nat, p: TextProcessor, k: nat): (e: nat)
    requires k * StepOf(p) <= n
    ensures k * StepOf(p) <= e <= n
  {
    assert k * StepOf(p) >= 0;
    SliceEnd(n, k * StepOf(p), Min(k * StepOf(p) + p.chunkSize, n))
  }

  /** The k-th window of the text. */
  function Window(text: string, p: TextProcessor, k: nat): string
    requires k * StepOf(p) <= |text|
  {
    assert k * StepOf(p) >= 0;
    text[k * StepOf(p)..WindowEnd(|text|, p, k)]
  }

  /** A window is emitted if it starts inside the text and, unless it is the first, is longer than the overlap. */
  predicate Emitted(n: nat, p: TextProcessor, k: nat) {
    k * StepOf(p) < n && (k == 0 || WindowEnd(n, p, k) - k * StepOf(p) > p.chunkOverlap)
  }

  /** The chunks of a text that is not blank: all emitted windows, in order, and no others. */
  ghost predicate ChunksOf(text: string, p: TextProcessor, chunks: seq<DocumentChunk>) {
    && (forall k :: 0 <= k < |chunks| ==> Emitted(|text|, p, k) && chunks[k] == DocumentChunk(Window(text, p, k), k))
    && !Emitted(|text|, p, |chunks|)
  }

  method ProcessText(p: TextProcessor, text: string) returns (chunks: seq<DocumentChunk>)
    ensures Blank(text) ==> chunks == []
    ensures !Blank(text) ==> ChunksOf(text, p, chunks) && chunks != []
  {
    chunks := [];
    if Blank(text) {
      return;
    }
    var start, chunkIndex := 0, 0;
    var step := p.chunkSize - p.chunkOverlap;
    while start < |text|
      invariant start == chunkIndex * step && |chunks| == chunkIndex && start >= 0
      invariant forall k :: 0 <= k < chunkIndex ==>
                  Emitted(|text|, p, k) && chunks[k] == DocumentChunk(Window(text, p, k), k)
      decreases |text| - start
    {
      var end := Min(start + p.chunkSize, |text|);
      var content := text[start..SliceEnd(|text|, start, end)];
      assert content == Window(text, p, chunkIndex);
      if chunkIndex > 0 && |content| <= p.chunkOverlap {
        break;
      }
      chunks := chunks + [DocumentChunk(content, chunkIndex)];
      assert (chunkIndex + 1) * step == start + step;
      start := start + step;
      chunkIndex := chunkIndex + 1;
    }
  }

  // Nothing is lost

  /** The first chunk followed by every later chunk without its first `overlap` characters. */
  function Rejoin(chunks: seq<DocumentChunk>, overlap: nat): string
    requires forall k :: 0 < k < |chunks| ==> overlap <= |chunks[k].content|
  {
    if chunks == [] then ""
    else if |chunks| == 1 then chunks[0].content
    else Rejoin(chunks[..|chunks| - 1], overlap) + chunks[|chunks| - 1].content[overlap..]
  }

  lemma WindowsAddText(text: string, p: TextProcessor, k: nat)
    requires 0 <= p.chunkOverlap && k > 0 && Emitted(|text|, p, k)
    ensures |Window(text, p, k)| > p.chunkOverlap
    ensures (k - 1) * StepOf(p) + p.chunkSize == k * StepOf(p) + p.chunkOverlap < |text|
    ensures WindowEnd(|text|, p, k) == Min(k * StepOf(p) + p.chunkSize, |text|)
    ensures text[..k * StepOf(p) + p.chunkOverlap] + Window(text, p, k)[p.chunkOverlap..]
         == text[..Min(k * StepOf(p) + p.chunkSize, |text|)]
  {
    assert (k - 1) * StepOf(p) == k * StepOf(p) - StepOf(p);
  }

  lemma {:induction false} PrefixRejoins(text: string, p: TextProcessor, chunks: seq<DocumentChunk>)
    requires 0 <= p.chunkOverlap && chunks != []
    requires forall k :: 0 <= k < |chunks| ==>
        Emitted(|text|, p, k) && chunks[k] == DocumentChunk(Window(text, p, k), k)
    ensures forall k :: 0 < k < |chunks| ==> p.chunkOverlap < |chunks[k].content|
    ensures Rejoin(chunks, p.chunkOverlap) == text[..Min((|chunks| - 1) * StepOf(p) + p.chunkSize, |text|)]
  {
    forall k | 0 < k < |chunks| ensures p.chunkOverlap < |chunks[k].content| {
      WindowsAddText(text, p, k);
    }
    if |chunks| > 1 {
      var k := |chunks| - 1;
      PrefixRejoins(text, p, chunks[..k]);
      WindowsAddText(text, p, k);
    }
  }

  /** Where counting must stop: the first k whose window is not emitted, for a text longer than one chunk. */
  lemma CountIsCeiling(n: nat, p: TextProcessor, count: nat)
    requires 0 <= p.chunkOverlap && p.chunkSize < n && count > 0
    requires Emitted(n, p, count - 1) && !Emitted(n, p, count)
    ensures count == 1 + (n - p.chunkSize + StepOf(p) - 1) / StepOf(p)
  {
    var s, c := StepOf(p), count - 1;
    assert count * s == c * s + s;
    assert (c - 1) * s == c * s - s;
    QuotientIsUnique(n - p.chunkSize + s - 1, s, c);
  }

  lemma QuotientIsUnique(a: int, s: int, q: int)
    requires s > 0 && q * s <= a < (q + 1) * s
    ensures a / s == q
  {
    var d := a / s;
    assert a == d * s + a % s;
    assert d < q ==> (d + 1) * s <= q * s;
    assert d > q ==> (q + 1) * s <= d * s;
  }

  /**
   * For any non-empty text and any overlap that is smaller than the chunk, the chunks rejoin to the
   * text, every later chunk adds a character, and there are 1 or 1 + ceil((n - size) / (size - overlap)) of them.
   */
  lemma ChunkingLosesNothing(text: string, p: TextProcessor, chunks: seq<DocumentChunk>)
    requires 0 <= p.chunkOverlap && text != "" && ChunksOf(text, p, chunks)
    ensures forall k :: 0 < k < |chunks| ==> p.chunkOverlap < |chunks[k].content|
    ensures Rejoin(chunks, p.chunkOverlap) == text
    ensures |chunks| == if |text| <= p.chunkSize then 1 else 1 + (|text| - p.chunkSize + StepOf(p) - 1) / StepOf(p)
  {
    LastWindowReachesTheEnd(text, p, chunks);
    PrefixRejoins(text, p, chunks);
    if |text| > p.chunkSize {
      CountIsCeiling(|text|, p, |chunks|);
    }
  }

  lemma LastWindowReachesTheEnd(text: string, p: TextProcessor, chunks: seq<DocumentChunk>)
    requires 0 <= p.chunkOverlap && text != "" && ChunksOf(text, p, chunks)
    ensures |chunks| > 0 && (|chunks| - 1) * StepOf(p) + p.chunkSize >= |text|
    ensures |text| <= p.chunkSize ==> |chunks| == 1
  {
    assert Emitted(|text|, p, 0);
    assert Emitted(|text|, p, |chunks| - 1);
    NothingBehindTheLast(|text|, p, |chunks|);
  }

  lemma NothingBehindTheLast(n: nat, p: TextProcessor, count: nat)
    requires 0 <= p.chunkOverlap && count > 0 && Emitted(n, p, count - 1) && !Emitted(n, p, count)
    ensures (count - 1) * StepOf(p) + p.chunkSize >= n
    ensures n <= p.chunkSize ==> count == 1
  {
    var c, s := count - 1, StepOf(p);
    assert count * s == c * s + s;
    if c > 0 {
      assert c * s == (c - 1) * s + s;
      assert (c - 1) * s >= 0;
    }
  }

  /** The k-th window holds the i-th character. */
  predicate Covers(n: nat, p: TextProcessor, k: nat, i: nat) {
    k * StepOf(p) < n && k * StepOf(p) <= i < WindowEnd(n, p, k)
  }

  predicate Covered(n: nat, p: TextProcessor, count: nat, i: nat) {
    exists k | 0 <= k < count :: Covers(n, p, k, i)
  }

  /**
   * The adapter accepts a negative overlap, and with it a negative chunk; every character is then in some
   * chunk only if one chunk suffices.
   */
  lemma CoverageExactly(text: string, p: TextProcessor, chunks: seq<DocumentChunk>)
    requires text != "" && ChunksOf(text, p, chunks)
    ensures (forall i: nat | i < |text| :: Covered(|text|, p, |chunks|, i))
        <==> p.chunkOverlap >= 0 || |text| <= p.chunkSize
  {
    var n := |text|;
    assert Emitted(n, p, 0);
    if n <= p.chunkSize {
      forall i: nat | i < n ensures Covered(n, p, |chunks|, i) {
        assert Covers(n, p, 0, i);
      }
    } else if p.chunkSize < 0 {
      LastCharacterIsLost(n, p, |chunks|);
      assert !Covered(n, p, |chunks|, n - 1);
    } else if p.chunkOverlap < 0 {
      GapAfterFirstChunk(n, p, |chunks|);
      var gap: nat := p.chunkSize;
      assert gap < n && !Covered(n, p, |chunks|, gap);
    } else {
      LastWindowReachesTheEnd(text, p, chunks);
      assert Emitted(n, p, |chunks| - 1);
      forall i: nat | i < n ensures Covered(n, p, |chunks|, i) {
        CoveredFromTheEnd(n, p, |chunks|, i);
      }
    }
  }

  /** Chunks of two with an overlap of minus one: of a text of three characters the last is in no chunk. */
  lemma NegativeOverlapDropsACharacter(text: string, chunks: seq<DocumentChunk>)
    requires |text| == 3 && ChunksOf(text, Sizes(2, -1), chunks)
    ensures Configure(2, -1).Ok?
    ensures chunks == [DocumentChunk(text[..2], 0)] && !Covered(3, Sizes(2, -1), 1, 2)
  {
    var p: TextProcessor := Sizes(2, -1);
    assert Emitted(3, p, 0) && !Emitted(3, p, 1);
    assert Window(text, p, 0) == text[..2];
    GapAfterFirstChunk(3, p, 1);
  }

  /** With a negative chunk every window stops short of the end of the text. */
  lemma LastCharacterIsLost(n: nat, p: TextProcessor, count: nat)
    requires p.chunkSize < 0 < n
    ensures !Covered(n, p, count, n - 1)
  {
    var last: nat := n - 1;
    forall k | 0 <= k < count ensures !Covers(n, p, k, last) {
      assert k * StepOf(p) >= 0;
    }
  }

  lemma GapAfterFirstChunk(n: nat, p: TextProcessor, count: nat)
    requires p.chunkOverlap < 0 <= p.chunkSize
    ensures !Covered(n, p, count, p.chunkSize)
  {
    forall k | 0 <= k < count ensures !Covers(n, p, k, p.chunkSize) {
      if k > 0 {
        assert k * StepOf(p) == (k - 1) * StepOf(p) + StepOf(p);
        assert (k - 1) * StepOf(p) >= 0;
      }
    }
  }

  /** Walking back from the last window to one that holds the character. */
  lemma {:induction false} CoveredFromTheEnd(n: nat, p: TextProcessor, count: nat, i: nat)
    requires 0 <= p.chunkOverlap && count > 0 && i < n && (count - 1) * StepOf(p) < n
    requires i < (count - 1) * StepOf(p) + p.chunkSize
    ensures Covered(n, p, count, i)
  {
    var k := count - 1;
    assert k * StepOf(p) >= 0;
    if k * StepOf(p) <= i {
      assert Covers(n, p, k, i);
    } else {
      assert k > 0;
      assert k * StepOf(p) == (k - 1) * StepOf(p) + StepOf(p);
      CoveredFromTheEnd(n, p, k, i);
      assert forall j: nat | j < k && Covers(n, p, j, i) :: j < count;
    }
  }
}
