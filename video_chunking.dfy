/**
 * The sliding-window transcript chunker: windows of `chunkSize` tokens whose
 * starts advance by `chunkSize - overlap`, each turned into a transcript
 * chunk that records its first and last token and the words in between.
 */
module VideoChunking {
  import opened Wrappers
  import opened PyStrings
  import opened TranscriptChunks

  /** One transcript token: its id, when it is spoken, and the word. */
  datatype Token = Token(id: int, timestamp: Timestamp, word: string)

  /**
   * Why chunking raises: `range` rejects a zero step (ValueError), and an
   * empty window has no first token (IndexError).
   */
  datatype ChunkError = ZeroStep | EmptyWindow

  /** The window size and overlap `chunk_video_transcript` uses when its caller gives none. */
  const DefaultChunkSize: int := 20
  const DefaultOverlap: int := 2

  function Min(a: int, b: int): int {
    if a < b then a else b
  }

  function TokenWords(tokens: seq<Token>): (words: seq<string>)
    ensures |words| == |tokens|
  {
    seq(|tokens|, k requires 0 <= k < |tokens| => tokens[k].word)
  }

  /** `get_chunk_text`: the words of the window, in order, joined by single spaces. */
  function ChunkText(window: seq<Token>): string {
    Join(" ", TokenWords(window))
  }

  /** Splitting a chunk's text on whitespace gives back its window's words. */
  lemma ChunkTextWords(window: seq<Token>)
    requires forall k :: 0 <= k < |window| ==> IsWord(window[k].word)
    ensures Words(ChunkText(window)) == TokenWords(window)
    ensures SingleSpaced(ChunkText(window))
    ensures forall k :: 0 <= k < |window| ==> Contains(ChunkText(window), window[k].word)
  {
    var ws := TokenWords(window);
    WordsOfJoin(ws);
    JoinWordsSingleSpaced(ws);
    forall k | 0 <= k < |window| ensures Contains(ChunkText(window), window[k].word) {
      JoinContains(" ", ws, k);
    }
  }

  /**
   * Where Python's slice `tokens[start : start + chunkSize]` ends on a list
   * of length `n`: a negative end counts from the end of the list, and the
   * result is clamped to `0..n`. The slice is empty when this is `<= start`.
   */
  function WindowEnd(n: nat, start: nat, chunkSize: int): (e: nat)
    ensures e <= n
    ensures 0 <= start + chunkSize ==> e == Min(start + chunkSize, n)
  {
    var h := start + chunkSize;
    if h < 0 then (if h + n < 0 then 0 else h + n) else if h > n then n else h
  }

  /** A window `tokens[start..end]`, by its bounds. */
  datatype Span = Span(start: nat, end: nat)

  predicate ValidSpans(spans: seq<Span>, n: nat) {
    forall k :: 0 <= k < |spans| ==> spans[k].start < spans[k].end <= n
  }

  /** The chunk built from the non-empty window `tokens[start..end]`. */
  function MakeChunk(videoId: string, tokens: seq<Token>, start: nat, end: nat): TranscriptChunk
    requires start < end <= |tokens|
  {
    TranscriptChunk(videoId, tokens[start].id, tokens[end - 1].id,
      tokens[start].timestamp, tokens[end - 1].timestamp, ChunkText(tokens[start..end]))
  }

  /** The chunks of a list of windows, in order. */
  function ChunksOf(videoId: string, tokens: seq<Token>, spans: seq<Span>): (chunks: seq<TranscriptChunk>)
    requires ValidSpans(spans, |tokens|)
    ensures |chunks| == |spans|
  {
    seq(|spans|, k requires 0 <= k < |spans| => MakeChunk(videoId, tokens, spans[k].start, spans[k].end))
  }

  /**
   * The windows `acc` collected so far, followed by those starting at
   * `i, i + step, ...` below `n`; an empty window raises.
   */
  function SpansFrom(n: nat, chunkSize: int, step: int, acc: seq<Span>, i: nat): Result<seq<Span>, ChunkError>
    requires step > 0
    decreases n - i
  {
    if i >= n then Success(acc)
    else
      var end := WindowEnd(n, i, chunkSize);
      if end <= i then Failure(EmptyWindow)
      else SpansFrom(n, chunkSize, step, acc + [Span(i, end)], i + step)
  }

  lemma {:induction false} SpansFromValid(n: nat, chunkSize: int, step: int, acc: seq<Span>, i: nat)
    requires step > 0 && ValidSpans(acc, n)
    ensures SpansFrom(n, chunkSize, step, acc, i).Success? ==> ValidSpans(SpansFrom(n, chunkSize, step, acc, i).value, n)
    decreases n - i
  {
    if i < n {
      var end := WindowEnd(n, i, chunkSize);
      if end > i {
        SpansFromValid(n, chunkSize, step, acc + [Span(i, end)], i + step);
      }
    }
  }

  /** What `chunk_video_transcript` returns or raises. */
  function VideoChunks(videoId: string, tokens: seq<Token>, chunkSize: int, overlap: int)
    : Result<seq<TranscriptChunk>, ChunkError>
  {
    var step := chunkSize - overlap;
    if step == 0 then Failure(ZeroStep)
    else if step < 0 then Success([])
    else
      match SpansFrom(|tokens|, chunkSize, step, [], 0)
      case Failure(e) => Failure(e)
      case Success(spans) =>
        SpansFromValid(|tokens|, chunkSize, step, [], 0);
        Success(ChunksOf(videoId, tokens, spans))
  }

  lemma ChunksOfSnoc(videoId: string, tokens: seq<Token>, spans: seq<Span>, start: nat, end: nat)
    requires ValidSpans(spans, |tokens|) && start < end <= |tokens|
    ensures ValidSpans(spans + [Span(start, end)], |tokens|)
    ensures ChunksOf(videoId, tokens, spans + [Span(start, end)])
         == ChunksOf(videoId, tokens, spans) + [MakeChunk(videoId, tokens, start, end)]
  {
    var spans' := spans + [Span(start, end)];
    assert ValidSpans(spans', |tokens|) by {
      forall k | 0 <= k < |spans'| ensures spans'[k].start < spans'[k].end <= |tokens| {
        if k < |spans| {
          assert spans'[k] == spans[k];
        }
      }
    }
  }

  /** `chunk_video_transcript`: the `for` loop over `range(0, len(tokens), step)`. */
  method ChunkVideoTranscript(videoId: string, tokens: seq<Token>, chunkSize: int, overlap: int)
    returns (r: Result<seq<TranscriptChunk>, ChunkError>)
    ensures r == VideoChunks(videoId, tokens, chunkSize, overlap)
  {
    var step := chunkSize - overlap;
    if step == 0 {
      return Failure(ZeroStep);
    }
    if step < 0 {
      // range(0, n, step) with n >= 0 and a negative step is empty
      return Success([]);
    }
    var allChunks: seq<TranscriptChunk> := [];
    ghost var spans: seq<Span> := [];
    var i: nat := 0;
    while i < |tokens|
      invariant ValidSpans(spans, |tokens|)
      invariant allChunks == ChunksOf(videoId, tokens, spans)
      invariant SpansFrom(|tokens|, chunkSize, step, spans, i) == SpansFrom(|tokens|, chunkSize, step, [], 0)
      decreases |tokens| - i
    {
      var end := WindowEnd(|tokens|, i, chunkSize);
      if end <= i {
        // chunk_tokens[0] on an empty window
        return Failure(EmptyWindow);
      }
      ChunksOfSnoc(videoId, tokens, spans, i, end);
      allChunks := allChunks + [MakeChunk(videoId, tokens, i, end)];
      spans := spans + [Span(i, end)];
      i := i + step;
    }
    return Success(allChunks);
  }

  // ------------------------------------------------------------ properties

  /** Where window `k` starts, counted from the first window: `k * step`, built up one step at a time. */
  function StartOf(k: nat, step: nat): nat {
    if k == 0 then 0 else StartOf(k - 1, step) + step
  }

  lemma {:induction false} StartOfIsProduct(k: nat, step: nat)
    ensures StartOf(k, step) == k * step
  {
    if k > 0 {
      StartOfIsProduct(k - 1, step);
      assert (k - 1) * step + step == k * step;
    }
  }

  lemma {:induction false} StartOfMonotone(a: nat, b: nat, step: nat)
    requires a < b && step >= 1
    ensures StartOf(a, step) < StartOf(b, step)
    decreases b
  {
    if a < b - 1 {
      StartOfMonotone(a, b - 1, step);
    }
  }

  /**
   * From start `i`, with `acc` already collected, a positive window size
   * gives `m` more windows: one per start `i + StartOf(k, step)` below `n`.
   */
  lemma {:induction false} SpansFromCount(n: nat, chunkSize: int, step: nat, acc: seq<Span>, i: nat)
    requires chunkSize >= 1 && step >= 1
    ensures SpansFrom(n, chunkSize, step, acc, i).Success?
    ensures var m := |SpansFrom(n, chunkSize, step, acc, i).value| - |acc|;
      m >= 0 &&
      (i >= n ==> m == 0) &&
      (i < n ==> m > 0 && i + StartOf(m - 1, step) < n <= i + StartOf(m, step))
    decreases n - i
  {
    if i < n {
      SpansFromCount(n, chunkSize, step, acc + [Span(i, Min(i + chunkSize, n))], i + step);
    }
  }

  /** The windows collected before `i` stay in front. */
  lemma {:induction false} SpansFromKeeps(n: nat, chunkSize: int, step: nat, acc: seq<Span>, i: nat, k: nat)
    requires chunkSize >= 1 && step >= 1 && k < |acc|
    ensures SpansFrom(n, chunkSize, step, acc, i).Success?
    ensures k < |SpansFrom(n, chunkSize, step, acc, i).value|
    ensures SpansFrom(n, chunkSize, step, acc, i).value[k] == acc[k]
    decreases n - i
  {
    SpansFromCount(n, chunkSize, step, acc, i);
    if i < n {
      var acc' := acc + [Span(i, Min(i + chunkSize, n))];
      assert acc'[k] == acc[k];
      SpansFromKeeps(n, chunkSize, step, acc', i + step, k);
    }
  }

  /** Window `k` after `acc` starts at `i + StartOf(k, step)` and ends `chunkSize` later, clamped to `n`. */
  lemma {:induction false} SpansFromAt(n: nat, chunkSize: int, step: nat, acc: seq<Span>, i: nat, k: nat)
    requires chunkSize >= 1 && step >= 1 && i + StartOf(k, step) < n
    ensures SpansFrom(n, chunkSize, step, acc, i).Success?
    ensures |acc| + k < |SpansFrom(n, chunkSize, step, acc, i).value|
    ensures SpansFrom(n, chunkSize, step, acc, i).value[|acc| + k] ==
      Span(i + StartOf(k, step), Min(i + StartOf(k, step) + chunkSize, n))
    decreases k
  {
    var acc' := acc + [Span(i, Min(i + chunkSize, n))];
    if k == 0 {
      SpansFromKeeps(n, chunkSize, step, acc', i + step, |acc|);
    } else {
      SpansFromAt(n, chunkSize, step, acc', i + step, k - 1);
    }
  }

  /**
   * `chunk` is the chunk of `videoId` built from the non-empty window
   * `tokens[start..end]` of at most `chunkSize` tokens: the window's first
   * token gives its start id and timestamp, its last token the end id and
   * timestamp, and its words the text.
   */
  predicate ChunkOfWindow(chunk: TranscriptChunk, videoId: string, tokens: seq<Token>, chunkSize: int, start: int, end: int) {
    0 <= start < end <= |tokens| && end - start <= chunkSize &&
    chunk.videoId == videoId &&
    chunk.startTokenId == tokens[start].id &&
    chunk.startTimestamp == tokens[start].timestamp &&
    chunk.endTokenId == tokens[end - 1].id &&
    chunk.endTimestamp == tokens[end - 1].timestamp &&
    chunk.text == ChunkText(tokens[start..end])
  }

  lemma MakeChunkOfWindow(videoId: string, tokens: seq<Token>, chunkSize: int, start: nat, end: nat)
    requires start < end <= |tokens| && end - start <= chunkSize
    ensures ChunkOfWindow(MakeChunk(videoId, tokens, start, end), videoId, tokens, chunkSize, start, end)
  {
  }

  /** Each chunk of `ChunksOf` is the chunk of its window. */
  lemma ChunksOfAt(videoId: string, tokens: seq<Token>, chunkSize: int, spans: seq<Span>, k: nat)
    requires ValidSpans(spans, |tokens|) && k < |spans| && spans[k].end - spans[k].start <= chunkSize
    ensures ChunkOfWindow(ChunksOf(videoId, tokens, spans)[k], videoId, tokens, chunkSize, spans[k].start, spans[k].end)
  {
    MakeChunkOfWindow(videoId, tokens, chunkSize, spans[k].start, spans[k].end);
  }

  /** With a positive step, the chunks are those of the windows `SpansFrom` lists. */
  lemma VideoChunksOfSpans(videoId: string, tokens: seq<Token>, chunkSize: int, overlap: int)
    requires chunkSize - overlap >= 1
    requires SpansFrom(|tokens|, chunkSize, chunkSize - overlap, [], 0).Success?
    ensures ValidSpans(SpansFrom(|tokens|, chunkSize, chunkSize - overlap, [], 0).value, |tokens|)
    ensures VideoChunks(videoId, tokens, chunkSize, overlap)
      == Success(ChunksOf(videoId, tokens, SpansFrom(|tokens|, chunkSize, chunkSize - overlap, [], 0).value))
  {
    SpansFromValid(|tokens|, chunkSize, chunkSize - overlap, [], 0);
  }

  /** Window `k` starts at `k * step`. */
  lemma SpanAt(n: nat, chunkSize: int, step: nat, k: nat)
    requires chunkSize >= 1 && step >= 1
    requires SpansFrom(n, chunkSize, step, [], 0).Success?
    requires k < |SpansFrom(n, chunkSize, step, [], 0).value|
    ensures SpansFrom(n, chunkSize, step, [], 0).value[k] == Span(k * step, Min(k * step + chunkSize, n))
  {
    SpansFromCount(n, chunkSize, step, [], 0);
    var m := |SpansFrom(n, chunkSize, step, [], 0).value|;
    if k < m - 1 {
      StartOfMonotone(k, m - 1, step);
    }
    SpansFromAt(n, chunkSize, step, [], 0, k);
    StartOfIsProduct(k, step);
  }

  /** Chunk `k` is built from the window starting at `k * step`. */
  lemma VideoChunkAt(videoId: string, tokens: seq<Token>, chunkSize: int, overlap: int, k: nat)
    requires chunkSize >= 1 && chunkSize - overlap >= 1
    requires VideoChunks(videoId, tokens, chunkSize, overlap).Success?
    requires k < |VideoChunks(videoId, tokens, chunkSize, overlap).value|
    ensures var start := k * (chunkSize - overlap);
      ChunkOfWindow(VideoChunks(videoId, tokens, chunkSize, overlap).value[k], videoId, tokens, chunkSize,
        start, Min(start + chunkSize, |tokens|))
  {
    var step := chunkSize - overlap;
    SpansFromCount(|tokens|, chunkSize, step, [], 0);
    VideoChunksOfSpans(videoId, tokens, chunkSize, overlap);
    var spans := SpansFrom(|tokens|, chunkSize, step, [], 0).value;
    SpanAt(|tokens|, chunkSize, step, k);
    ChunksOfAt(videoId, tokens, chunkSize, spans, k);
  }

  /**
   * With `chunkSize >= 1` and a positive step, chunking succeeds with
   * ceil(n / step) chunks (the least count whose starts `k * step` reach
   * `n`), and chunk `k` is built from exactly the window
   * `tokens[k * step .. min(k * step + chunkSize, n)]`.
   */
  lemma VideoChunksWindows(videoId: string, tokens: seq<Token>, chunkSize: int, overlap: int)
    requires chunkSize >= 1 && chunkSize - overlap >= 1
    ensures VideoChunks(videoId, tokens, chunkSize, overlap).Success?
    ensures var step, chunks := chunkSize - overlap, VideoChunks(videoId, tokens, chunkSize, overlap).value;
      (|tokens| == 0 <==> chunks == []) &&
      (chunks != [] ==> (|chunks| - 1) * step < |tokens| <= |chunks| * step) &&
      forall k :: 0 <= k < |chunks| ==>
        ChunkOfWindow(chunks[k], videoId, tokens, chunkSize, k * step, Min(k * step + chunkSize, |tokens|))
  {
    var step := chunkSize - overlap;
    var n := |tokens|;
    SpansFromCount(n, chunkSize, step, [], 0);
    var spans := SpansFrom(n, chunkSize, step, [], 0).value;
    assert |VideoChunks(videoId, tokens, chunkSize, overlap).value| == |spans|;
    if spans != [] {
      StartOfIsProduct(|spans| - 1, step);
      StartOfIsProduct(|spans|, step);
    }
    forall k | 0 <= k < |spans| {
      VideoChunkAt(videoId, tokens, chunkSize, overlap, k);
    }
  }

  /** With `step <= chunkSize`, token `j` lies in the window starting at `StartOf(q, step)` for some `q >= k` whose start is below `|tokens|`. */
  lemma {:induction false} CoveringWindow(n: nat, chunkSize: int, step: nat, k: nat, j: nat)
    requires 1 <= step <= chunkSize && StartOf(k, step) <= j < n
    ensures exists q :: k <= q && StartOf(q, step) <= j < Min(StartOf(q, step) + chunkSize, n)
    decreases n - StartOf(k, step)
  {
    if j >= StartOf(k, step) + step {
      CoveringWindow(n, chunkSize, step, k + 1, j);
    } else {
      assert StartOf(k, step) <= j < Min(StartOf(k, step) + chunkSize, n);
    }
  }

  /** With `0 <= overlap < chunkSize` no token is skipped: each one lies in some chunk's window. */
  lemma VideoChunksCover(videoId: string, tokens: seq<Token>, chunkSize: int, overlap: int, j: nat)
    requires 0 <= overlap < chunkSize && j < |tokens|
    ensures VideoChunks(videoId, tokens, chunkSize, overlap).Success?
    ensures var step, chunks := chunkSize - overlap, VideoChunks(videoId, tokens, chunkSize, overlap).value;
      exists k :: 0 <= k < |chunks| && k * step <= j < Min(k * step + chunkSize, |tokens|)
  {
    var step := chunkSize - overlap;
    SpansFromCount(|tokens|, chunkSize, step, [], 0);
    VideoChunksOfSpans(videoId, tokens, chunkSize, overlap);
    var chunks := VideoChunks(videoId, tokens, chunkSize, overlap).value;
    assert |chunks| == |SpansFrom(|tokens|, chunkSize, step, [], 0).value|;
    CoveringWindow(|tokens|, chunkSize, step, 0, j);
    var k :| 0 <= k && StartOf(k, step) <= j < Min(StartOf(k, step) + chunkSize, |tokens|);
    SpansFromAt(|tokens|, chunkSize, step, [], 0, k);
    StartOfIsProduct(k, step);
    assert 0 <= k < |chunks| && k * step <= j < Min(k * step + chunkSize, |tokens|);
  }

  /**
   * With `0 <= overlap < chunkSize` and some tokens, the first chunk starts
   * at the first token and the last chunk ends at the last token.
   */
  lemma VideoChunksEnds(videoId: string, tokens: seq<Token>, chunkSize: int, overlap: int)
    requires 0 <= overlap < chunkSize && |tokens| > 0
    ensures VideoChunks(videoId, tokens, chunkSize, overlap).Success?
    ensures var chunks := VideoChunks(videoId, tokens, chunkSize, overlap).value;
      |chunks| > 0 &&
      chunks[0].startTokenId == tokens[0].id &&
      chunks[0].startTimestamp == tokens[0].timestamp &&
      chunks[|chunks| - 1].endTokenId == tokens[|tokens| - 1].id &&
      chunks[|chunks| - 1].endTimestamp == tokens[|tokens| - 1].timestamp
  {
    var step := chunkSize - overlap;
    var n := |tokens|;
    SpansFromCount(n, chunkSize, step, [], 0);
    var spans := SpansFrom(n, chunkSize, step, [], 0).value;
    var last := |spans| - 1;
    assert StartOf(last, step) + step == StartOf(|spans|, step);
    SpansFromAt(n, chunkSize, step, [], 0, 0);
    SpansFromAt(n, chunkSize, step, [], 0, last);
  }

  /** An empty transcript gives no chunks, whatever the sizes, unless the step is zero. */
  lemma VideoChunksEmpty(videoId: string, chunkSize: int, overlap: int)
    ensures chunkSize == overlap ==> VideoChunks(videoId, [], chunkSize, overlap) == Failure(ZeroStep)
    ensures chunkSize != overlap ==> VideoChunks(videoId, [], chunkSize, overlap) == Success([])
  {
  }

  /** `overlap == chunkSize` always raises, and a zero-size window over a non-empty transcript raises too. */
  lemma VideoChunksErrors(videoId: string, tokens: seq<Token>, chunkSize: int, overlap: int)
    ensures chunkSize == overlap ==> VideoChunks(videoId, tokens, chunkSize, overlap) == Failure(ZeroStep)
    ensures chunkSize == 0 && overlap < 0 && tokens != [] ==>
      VideoChunks(videoId, tokens, chunkSize, overlap) == Failure(EmptyWindow)
  {
  }

  // ------------------------------------------------------------ examples

  function SampleTokens(): seq<Token> {
    [Token(1, Timestamp("0.0"), "hello"), Token(2, Timestamp("0.5"), "world"),
     Token(3, Timestamp("1.0"), "click"), Token(4, Timestamp("1.5"), "save")]
  }

  /** Four tokens in windows of two without overlap give two chunks of "vid1", "hello world" and "click save". */
  lemma SampleWithoutOverlap()
    ensures VideoChunks("vid1", SampleTokens(), 2, 0).Success?
    ensures var chunks := VideoChunks("vid1", SampleTokens(), 2, 0).value;
      |chunks| == 2 && chunks[0].videoId == "vid1" && chunks[0].text == "hello world"
      && chunks[1].videoId == "vid1" && chunks[1].text == "click save"
  {
    var tokens := SampleTokens();
    VideoChunksWindows("vid1", tokens, 2, 0);
    var chunks := VideoChunks("vid1", tokens, 2, 0).value;
    assert ChunkOfWindow(chunks[0], "vid1", tokens, 2, 0, 2);
    assert ChunkOfWindow(chunks[1], "vid1", tokens, 2, 2, 4);
    assert TokenWords(tokens[0..2]) == ["hello", "world"];
    assert TokenWords(tokens[2..4]) == ["click", "save"];
  }

  /**
   * With an overlap of one the start advances one token at a time: four
   * chunks, "hello world", "world click", "click save" and the lone "save".
   */
  lemma SampleWithOverlap()
    ensures VideoChunks("vid1", SampleTokens(), 2, 1).Success?
    ensures var chunks := VideoChunks("vid1", SampleTokens(), 2, 1).value;
      |chunks| == 4 && chunks[0].text == "hello world" && chunks[1].text == "world click"
      && chunks[2].text == "click save" && chunks[3].text == "save"
  {
    var tokens := SampleTokens();
    VideoChunksWindows("vid1", tokens, 2, 1);
    var chunks := VideoChunks("vid1", tokens, 2, 1).value;
    assert ChunkOfWindow(chunks[0], "vid1", tokens, 2, 0, 2);
    assert ChunkOfWindow(chunks[1], "vid1", tokens, 2, 1, 3);
    assert ChunkOfWindow(chunks[2], "vid1", tokens, 2, 2, 4);
    assert ChunkOfWindow(chunks[3], "vid1", tokens, 2, 3, 4);
    assert TokenWords(tokens[0..2]) == ["hello", "world"];
    assert TokenWords(tokens[1..3]) == ["world", "click"];
    assert TokenWords(tokens[2..4]) == ["click", "save"];
    assert TokenWords(tokens[3..4]) == ["save"];
  }
}
