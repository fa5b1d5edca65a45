/**
 * Retrieval from one kind of source: chunk every source in order, embed the
 * chunk texts into a fresh index (row `k` is chunk `k`), search it with the
 * question, and accept the top hit only when its score is strictly above the
 * threshold.
 */
module Retrieval {
  import opened Wrappers
  import opened TranscriptChunks
  import opened PdfChunks
  import opened VideoChunking
  import opened PdfChunking
  import opened Embedders
  import opened VectorIndexing
  import opened RagSystems
  import opened VideoAnswers
  import opened PdfAnswers

  /** A video as loaded: its id and its transcript tokens. */
  datatype Video = Video(videoId: string, transcripts: seq<Token>)

  /** A video's chunks under the default window size 20 and overlap 2, which never fail. */
  function TranscriptChunksOf(video: Video): seq<TranscriptChunk> {
    VideoChunksWindows(video.videoId, video.transcripts, DefaultChunkSize, DefaultOverlap);
    VideoChunks(video.videoId, video.transcripts, DefaultChunkSize, DefaultOverlap).value
  }

  /** The chunks of the first `i` videos, video after video. */
  function VideoCorpus(videos: seq<Video>, i: nat): seq<TranscriptChunk>
    requires i <= |videos|
  {
    if i == 0 then [] else VideoCorpus(videos, i - 1) + TranscriptChunksOf(videos[i - 1])
  }

  /** The chunks of the first `i` PDFs, document after document. */
  function PdfCorpus(pdfs: seq<Pdf>, i: nat): seq<PDFChunk>
    requires i <= |pdfs|
  {
    if i == 0 then [] else PdfCorpus(pdfs, i - 1) + ChunksOfPdf(pdfs[i - 1])
  }

  /**
   * The corpus handed to the embedder: the chunk texts, in chunk order.
   * `TranscriptChunk` and `PDFChunk` are unrelated records that share no
   * type, so each search has its own projection, as each source function
   * builds its own list of texts.
   */
  function VideoTexts(chunks: seq<TranscriptChunk>): (texts: seq<string>)
    ensures |texts| == |chunks|
    ensures forall k :: 0 <= k < |chunks| ==> texts[k] == chunks[k].text
  {
    seq(|chunks|, k requires 0 <= k < |chunks| => chunks[k].text)
  }

  /** The PDF counterpart of `VideoTexts`. */
  function PdfTexts(chunks: seq<PDFChunk>): (texts: seq<string>)
    ensures |texts| == |chunks|
    ensures forall k :: 0 <= k < |chunks| ==> texts[k] == chunks[k].text
  {
    seq(|chunks|, k requires 0 <= k < |chunks| => chunks[k].text)
  }

  /** How similar the question is to each text, by the inner product of their embeddings. */
  function TextScores(embedder: Embedder, question: string, texts: seq<string>): (scores: seq<real>)
    ensures |scores| == |texts|
  {
    RowScores(embedder.embedQuery(question), EmbedTexts(embedder, texts))
  }

  /** The threshold gate: the top-scoring chunk, if its score is strictly above `threshold`. */
  function Pick<C>(chunks: seq<C>, scores: seq<real>, threshold: real): Option<C>
    requires |scores| == |chunks|
  {
    match TopHit(scores)
    case None => None
    case Some(h) => if h.score > threshold then Some(chunks[h.row]) else None
  }

  /** The video chunk `retrieve_from_videos` answers with, if any. */
  function VideoPick(question: string, videos: seq<Video>, embedder: Embedder, threshold: real): Option<TranscriptChunk> {
    var chunks := VideoCorpus(videos, |videos|);
    Pick(chunks, TextScores(embedder, question, VideoTexts(chunks)), threshold)
  }

  /** The PDF chunk `retrieve_from_pdfs` answers with, if any. */
  function PdfPick(question: string, pdfs: seq<Pdf>, embedder: Embedder, threshold: real): Option<PDFChunk> {
    var chunks := PdfCorpus(pdfs, |pdfs|);
    Pick(chunks, TextScores(embedder, question, PdfTexts(chunks)), threshold)
  }

  /** The first loop of `retrieve_from_videos`: every video's chunks, video after video. */
  method CollectVideoChunks(videos: seq<Video>) returns (allChunks: seq<TranscriptChunk>)
    ensures allChunks == VideoCorpus(videos, |videos|)
  {
    allChunks := [];
    for i := 0 to |videos|
      invariant allChunks == VideoCorpus(videos, i)
    {
      var chunks := ChunkVideoTranscript(videos[i].videoId, videos[i].transcripts, DefaultChunkSize, DefaultOverlap);
      VideoChunksWindows(videos[i].videoId, videos[i].transcripts, DefaultChunkSize, DefaultOverlap);
      allChunks := allChunks + chunks.value;
    }
  }

  /** The first loop of `retrieve_from_pdfs`: every PDF's chunks, document after document. */
  method CollectPdfChunks(pdfs: seq<Pdf>) returns (allChunks: seq<PDFChunk>)
    ensures allChunks == PdfCorpus(pdfs, |pdfs|)
  {
    allChunks := [];
    for i := 0 to |pdfs|
      invariant allChunks == PdfCorpus(pdfs, i)
    {
      var chunks := ChunkPdfPages(pdfs[i], DefaultMaxChars);
      allChunks := allChunks + chunks;
    }
  }

  /** The video pick, given the corpus already collected. */
  lemma VideoPickOf(question: string, videos: seq<Video>, embedder: Embedder, threshold: real, chunks: seq<TranscriptChunk>)
    requires chunks == VideoCorpus(videos, |videos|)
    ensures VideoPick(question, videos, embedder, threshold)
      == Pick(chunks, TextScores(embedder, question, VideoTexts(chunks)), threshold)
  {
  }

  /** The PDF pick, given the corpus already collected. */
  lemma PdfPickOf(question: string, pdfs: seq<Pdf>, embedder: Embedder, threshold: real, chunks: seq<PDFChunk>)
    requires chunks == PdfCorpus(pdfs, |pdfs|)
    ensures PdfPick(question, pdfs, embedder, threshold)
      == Pick(chunks, TextScores(embedder, question, PdfTexts(chunks)), threshold)
  {
  }

  /** `retrieve_from_videos`: a fresh answer for the picked chunk, or none. */
  method RetrieveFromVideos(question: string, videos: seq<Video>, embedder: Embedder, threshold: real)
    returns (answer: VideoAnswer?)
    ensures VideoPick(question, videos, embedder, threshold).None? ==> answer == null
    ensures VideoPick(question, videos, embedder, threshold).Some? ==>
      answer != null && fresh(answer) && answer.refinedAnswer == None &&
      answer.CopiedFrom(VideoPick(question, videos, embedder, threshold).value)
  {
    var allChunks := CollectVideoChunks(videos);
    VideoPickOf(question, videos, embedder, threshold, allChunks);
    var texts := VideoTexts(allChunks);
    var vectors := EmbedTexts(embedder, texts);
    var index := new VectorIndex(if vectors == [] then 0 else |vectors[0]|);
    index.Add(vectors);
    assert index.rows == vectors;
    var rag := new RAGSystem(allChunks, embedder, index);
    var best := rag.Answer(question);
    assert best == TopHit(TextScores(embedder, question, texts));
    if best.Some? && best.value.score > threshold {
      answer := new VideoAnswer(allChunks[best.value.row]);
    } else {
      answer := null;
    }
  }

  /** `retrieve_from_pdfs`: a fresh answer for the picked chunk, or none. */
  method RetrieveFromPdfs(question: string, pdfs: seq<Pdf>, embedder: Embedder, threshold: real)
    returns (answer: PDFAnswer?)
    ensures PdfPick(question, pdfs, embedder, threshold).None? ==> answer == null
    ensures PdfPick(question, pdfs, embedder, threshold).Some? ==>
      answer != null && fresh(answer) && answer.summary == None &&
      answer.CopiedFrom(PdfPick(question, pdfs, embedder, threshold).value)
  {
    var allChunks := CollectPdfChunks(pdfs);
    PdfPickOf(question, pdfs, embedder, threshold, allChunks);
    var texts := PdfTexts(allChunks);
    var vectors := EmbedTexts(embedder, texts);
    var index := new VectorIndex(if vectors == [] then 0 else |vectors[0]|);
    index.Add(vectors);
    assert index.rows == vectors;
    var rag := new RAGSystem(allChunks, embedder, index);
    var best := rag.Answer(question);
    assert best == TopHit(TextScores(embedder, question, texts));
    if best.Some? && best.value.score > threshold {
      answer := new PDFAnswer(allChunks[best.value.row]);
    } else {
      answer := null;
    }
  }

  // ------------------------------------------------------------ properties

  /**
   * The gate answers exactly when some chunk scores strictly above the
   * threshold (a best score equal to the threshold is rejected), and then
   * with a chunk whose score is the highest, the first one on ties.
   */
  lemma PickExactly<C>(chunks: seq<C>, scores: seq<real>, threshold: real)
    requires |scores| == |chunks|
    ensures Pick(chunks, scores, threshold).Some? <==> exists k :: 0 <= k < |scores| && scores[k] > threshold
    ensures Pick(chunks, scores, threshold).Some? ==>
      exists k :: 0 <= k < |chunks| && Pick(chunks, scores, threshold).value == chunks[k] &&
        scores[k] > threshold &&
        (forall j :: 0 <= j < |scores| ==> scores[j] <= scores[k]) &&
        (forall j :: 0 <= j < k ==> scores[j] < scores[k])
  {
    var h := TopHit(scores);
    if h.Some? {
      var k := h.value.row;
      assert scores[k] == h.value.score;
    }
  }

  /** How similar the question is to one text: the inner product of their embeddings. */
  function Similarity(embedder: Embedder, question: string, text: string): real {
    Dot(embedder.embedQuery(question), embedder.embedText(text))
  }

  /**
   * Row `k` of the index is text `k`: the gate over the embedded texts picks
   * chunk `k` for the first text that scores highest, when that score is
   * strictly above the threshold, and picks nothing when no text does.
   */
  lemma PickOfTexts<C>(chunks: seq<C>, texts: seq<string>, embedder: Embedder, question: string, threshold: real)
    requires |texts| == |chunks|
    ensures var pick := Pick(chunks, TextScores(embedder, question, texts), threshold);
      (pick.None? <==> forall j :: 0 <= j < |texts| ==> Similarity(embedder, question, texts[j]) <= threshold) &&
      (pick.Some? ==>
        exists k :: 0 <= k < |chunks| && pick.value == chunks[k] &&
          Similarity(embedder, question, texts[k]) > threshold &&
          (forall j :: 0 <= j < |texts| ==>
            Similarity(embedder, question, texts[j]) <= Similarity(embedder, question, texts[k])) &&
          (forall j :: 0 <= j < k ==>
            Similarity(embedder, question, texts[j]) < Similarity(embedder, question, texts[k])))
  {
    var scores := TextScores(embedder, question, texts);
    var vectors := EmbedTexts(embedder, texts);
    assert forall j :: 0 <= j < |texts| ==> scores[j] == Dot(embedder.embedQuery(question), vectors[j]);
    assert forall j :: 0 <= j < |texts| ==> scores[j] == Similarity(embedder, question, texts[j]);
    PickExactly(chunks, scores, threshold);
  }

  /**
   * `retrieve_from_videos` answers with the chunk of the video corpus whose
   * text is most similar to the question (the first on ties), when that
   * similarity is strictly above the threshold; it answers with nothing
   * exactly when no chunk is above the threshold.
   */
  lemma VideoPickScores(question: string, videos: seq<Video>, embedder: Embedder, threshold: real)
    ensures var chunks := VideoCorpus(videos, |videos|);
      var pick := VideoPick(question, videos, embedder, threshold);
      (pick.None? <==> forall j :: 0 <= j < |chunks| ==> Similarity(embedder, question, chunks[j].text) <= threshold) &&
      (pick.Some? ==>
        exists k :: 0 <= k < |chunks| && pick.value == chunks[k] &&
          Similarity(embedder, question, chunks[k].text) > threshold &&
          (forall j :: 0 <= j < |chunks| ==>
            Similarity(embedder, question, chunks[j].text) <= Similarity(embedder, question, chunks[k].text)) &&
          (forall j :: 0 <= j < k ==>
            Similarity(embedder, question, chunks[j].text) < Similarity(embedder, question, chunks[k].text)))
  {
    var chunks := VideoCorpus(videos, |videos|);
    PickOfTexts(chunks, VideoTexts(chunks), embedder, question, threshold);
  }

  /** The PDF counterpart of `VideoPickScores`, for `retrieve_from_pdfs`. */
  lemma PdfPickScores(question: string, pdfs: seq<Pdf>, embedder: Embedder, threshold: real)
    ensures var chunks := PdfCorpus(pdfs, |pdfs|);
      var pick := PdfPick(question, pdfs, embedder, threshold);
      (pick.None? <==> forall j :: 0 <= j < |chunks| ==> Similarity(embedder, question, chunks[j].text) <= threshold) &&
      (pick.Some? ==>
        exists k :: 0 <= k < |chunks| && pick.value == chunks[k] &&
          Similarity(embedder, question, chunks[k].text) > threshold &&
          (forall j :: 0 <= j < |chunks| ==>
            Similarity(embedder, question, chunks[j].text) <= Similarity(embedder, question, chunks[k].text)) &&
          (forall j :: 0 <= j < k ==>
            Similarity(embedder, question, chunks[j].text) < Similarity(embedder, question, chunks[k].text)))
  {
    var chunks := PdfCorpus(pdfs, |pdfs|);
    PickOfTexts(chunks, PdfTexts(chunks), embedder, question, threshold);
  }

  /** Lowering the threshold never loses an answer, nor changes it. */
  lemma PickLowerThreshold<C>(chunks: seq<C>, scores: seq<real>, lower: real, threshold: real)
    requires |scores| == |chunks| && lower <= threshold
    requires Pick(chunks, scores, threshold).Some?
    ensures Pick(chunks, scores, lower) == Pick(chunks, scores, threshold)
  {
  }

  /** Every chunk of the video corpus belongs to one of the videos. */
  lemma {:induction false} VideoCorpusFrom(videos: seq<Video>, i: nat, k: nat)
    requires i <= |videos| && k < |VideoCorpus(videos, i)|
    ensures exists v :: 0 <= v < i && VideoCorpus(videos, i)[k].videoId == videos[v].videoId
  {
    var before := VideoCorpus(videos, i - 1);
    var video := videos[i - 1];
    if k < |before| {
      VideoCorpusFrom(videos, i - 1, k);
    } else {
      VideoChunksWindows(video.videoId, video.transcripts, DefaultChunkSize, DefaultOverlap);
      var step := DefaultChunkSize - DefaultOverlap;
      var m := k - |before|;
      assert ChunkOfWindow(TranscriptChunksOf(video)[m], video.videoId, video.transcripts, DefaultChunkSize,
        m * step, Min(m * step + DefaultChunkSize, |video.transcripts|));
    }
  }

  /** A video with at least one token gives the corpus at least one chunk. */
  lemma {:induction false} VideoCorpusNonEmpty(videos: seq<Video>, i: nat, v: nat)
    requires v < i <= |videos| && videos[v].transcripts != []
    ensures VideoCorpus(videos, i) != []
  {
    if v < i - 1 {
      VideoCorpusNonEmpty(videos, i - 1, v);
    } else {
      var video := videos[v];
      VideoChunksWindows(video.videoId, video.transcripts, DefaultChunkSize, DefaultOverlap);
    }
  }

  /**
   * With a threshold of 0 and an embedder under which every text scores
   * positively against the question, any video with a token is enough for
   * an answer.
   */
  lemma VideoRetrievalAnswers(question: string, videos: seq<Video>, embedder: Embedder, v: nat)
    requires v < |videos| && videos[v].transcripts != []
    requires forall t :: Dot(embedder.embedQuery(question), embedder.embedText(t)) > 0.0
    ensures VideoPick(question, videos, embedder, 0.0).Some?
  {
    var chunks := VideoCorpus(videos, |videos|);
    VideoCorpusNonEmpty(videos, |videos|, v);
    var scores := TextScores(embedder, question, VideoTexts(chunks));
    assert scores[0] == Dot(embedder.embedQuery(question), embedder.embedText(chunks[0].text));
    PickExactly(chunks, scores, 0.0);
  }
}
