/**
 * The `/ask` endpoint: videos first, PDFs as fallback, a 404 when neither
 * has an answer, otherwise the answer refined and formatted.
 */
module Api {
  import opened Wrappers
  import opened PyStrings
  import opened TranscriptChunks
  import opened VideoChunking
  import opened PdfChunks
  import opened PdfChunking
  import opened Embedders
  import opened Retrieval
  import opened VideoAnswers
  import opened PdfAnswers
  import opened AnswerRefiners
  import opened FormatAnswers

  /** The similarity thresholds as configured; `None` where the environment sets none. */
  datatype Settings = Settings(videoThreshold: Option<real>, pdfThreshold: Option<real>)

  const DefaultThreshold: real := 0.7
  const NotFoundStatus: int := 404
  const NotFoundDetail: string := "No relevant answer found"

  /** How a request fails: an HTTP error raised by the endpoint, or the language model raising. */
  datatype AskError = HttpError(statusCode: int, detail: string) | GenerationFailed

  function VideoThreshold(settings: Settings): real {
    settings.videoThreshold.GetOr(DefaultThreshold)
  }

  function PdfThreshold(settings: Settings): real {
    settings.pdfThreshold.GetOr(DefaultThreshold)
  }

  /**
   * The response to a question, given what the language model answers to
   * each prompt: the best video chunk over the video threshold, else the
   * best PDF chunk over the PDF threshold, else a 404; the chosen chunk's
   * text refined by the model and laid out by the formatter.
   */
  function AskResult(question: string, settings: Settings, videos: seq<Video>, pdfs: seq<Pdf>, embedder: Embedder,
                     respond: string -> Option<string>): Result<string, AskError>
  {
    match VideoPick(question, videos, embedder, VideoThreshold(settings))
    case Some(c) =>
      (match respond(VideoPrompt(question, c.text))
       case None => Failure(GenerationFailed)
       case Some(refined) =>
         Success(Render(question, VideoLines(c.videoId, c.startTimestamp, c.startTokenId, c.endTimestamp,
                                            c.endTokenId, c.text, refined))))
    case None =>
      match PdfPick(question, pdfs, embedder, PdfThreshold(settings))
      case None => Failure(HttpError(NotFoundStatus, NotFoundDetail))
      case Some(c) =>
        match respond(PdfPrompt(question, c.text))
        case None => Failure(GenerationFailed)
        case Some(summary) =>
          Success(Render(question, PdfLines(c.pdfId, c.pageNumber, c.paragraphIndex, c.text, Some(summary))))
  }

  /** The prompts one request sends to the language model. */
  function AskPrompts(question: string, settings: Settings, videos: seq<Video>, pdfs: seq<Pdf>, embedder: Embedder): seq<string> {
    match VideoPick(question, videos, embedder, VideoThreshold(settings))
    case Some(c) => [VideoPrompt(question, c.text)]
    case None =>
      match PdfPick(question, pdfs, embedder, PdfThreshold(settings))
      case None => []
      case Some(c) => [PdfPrompt(question, c.text)]
  }

  /**
   * `ask`: video retrieval always runs; PDF retrieval runs only when it
   * found nothing (`pdfSearched`). With no answer from either, the 404 is
   * raised before the refiner is reached; otherwise the refined answers go
   * to the formatter, whose text is the response.
   */
  method Ask(question: string, settings: Settings, videos: seq<Video>, pdfs: seq<Pdf>, embedder: Embedder,
             refiner: AnswerRefiner)
    returns (r: Result<string, AskError>, ghost pdfSearched: bool)
    modifies refiner.llmClient
    ensures r == AskResult(question, settings, videos, pdfs, embedder, refiner.llmClient.respond)
    ensures refiner.llmClient.prompts == old(refiner.llmClient.prompts) + AskPrompts(question, settings, videos, pdfs, embedder)
    ensures pdfSearched <==> VideoPick(question, videos, embedder, VideoThreshold(settings)).None?
  {
    var videoThreshold := VideoThreshold(settings);
    var pdfThreshold := PdfThreshold(settings);
    var videoAnswer := RetrieveFromVideos(question, videos, embedder, videoThreshold);
    var pdfAnswer: PDFAnswer? := null;
    pdfSearched := false;
    if videoAnswer == null {
      pdfAnswer := RetrieveFromPdfs(question, pdfs, embedder, pdfThreshold);
      pdfSearched := true;
    }
    if videoAnswer == null && pdfAnswer == null {
      return Failure(HttpError(NotFoundStatus, NotFoundDetail)), pdfSearched;
    }
    var refined := refiner.RefineAnswer(question, videoAnswer, pdfAnswer);
    if refined.Failure? {
      return Failure(GenerationFailed), pdfSearched;
    }
    videoAnswer, pdfAnswer := refined.value.0, refined.value.1;
    var formatted := FormatAnswer(question, videoAnswer, pdfAnswer);
    assert formatted.Success?;
    if videoAnswer != null {
      AskResultOfVideo(question, settings, videos, pdfs, embedder, refiner.llmClient.respond,
                       VideoPick(question, videos, embedder, videoThreshold).value, videoAnswer.refinedAnswer.value);
    } else {
      AskResultOfPdf(question, settings, videos, pdfs, embedder, refiner.llmClient.respond,
                     PdfPick(question, pdfs, embedder, pdfThreshold).value, pdfAnswer.summary.value);
    }
    r := Success(formatted.value);
  }

  /** The response when a video chunk is picked and the model refines it. */
  lemma AskResultOfVideo(question: string, settings: Settings, videos: seq<Video>, pdfs: seq<Pdf>, embedder: Embedder,
                         respond: string -> Option<string>, c: TranscriptChunk, refined: string)
    requires VideoPick(question, videos, embedder, VideoThreshold(settings)) == Some(c)
    requires respond(VideoPrompt(question, c.text)) == Some(refined)
    ensures AskResult(question, settings, videos, pdfs, embedder, respond)
      == Success(Render(question, VideoLines(c.videoId, c.startTimestamp, c.startTokenId, c.endTimestamp,
                                             c.endTokenId, c.text, refined)))
  {
  }

  /** The response when only a PDF chunk is picked and the model summarises it. */
  lemma AskResultOfPdf(question: string, settings: Settings, videos: seq<Video>, pdfs: seq<Pdf>, embedder: Embedder,
                       respond: string -> Option<string>, c: PDFChunk, summary: string)
    requires VideoPick(question, videos, embedder, VideoThreshold(settings)).None?
    requires PdfPick(question, pdfs, embedder, PdfThreshold(settings)) == Some(c)
    requires respond(PdfPrompt(question, c.text)) == Some(summary)
    ensures AskResult(question, settings, videos, pdfs, embedder, respond)
      == Success(Render(question, PdfLines(c.pdfId, c.pageNumber, c.paragraphIndex, c.text, Some(summary))))
  {
  }

  /** The 404 is raised exactly when neither the videos nor the PDFs have a chunk over their threshold. */
  lemma AskNotFound(question: string, settings: Settings, videos: seq<Video>, pdfs: seq<Pdf>, embedder: Embedder,
                    respond: string -> Option<string>)
    ensures AskResult(question, settings, videos, pdfs, embedder, respond) == Failure(HttpError(NotFoundStatus, NotFoundDetail))
        <==> VideoPick(question, videos, embedder, VideoThreshold(settings)).None? &&
             PdfPick(question, pdfs, embedder, PdfThreshold(settings)).None?
    ensures AskPrompts(question, settings, videos, pdfs, embedder) == []
        <==> VideoPick(question, videos, embedder, VideoThreshold(settings)).None? &&
             PdfPick(question, pdfs, embedder, PdfThreshold(settings)).None?
  {
  }

  /**
   * A video chunk over the threshold decides the response: the PDFs are
   * irrelevant, and the output shows the chunk's snippet and then the
   * model's refinement of it.
   */
  lemma AskVideoFirst(question: string, settings: Settings, videos: seq<Video>, pdfs: seq<Pdf>, otherPdfs: seq<Pdf>,
                      embedder: Embedder, respond: string -> Option<string>, c: TranscriptChunk, refined: string)
    requires VideoPick(question, videos, embedder, VideoThreshold(settings)) == Some(c)
    ensures AskResult(question, settings, videos, pdfs, embedder, respond) ==
            AskResult(question, settings, videos, otherPdfs, embedder, respond)
    ensures AskPrompts(question, settings, videos, pdfs, embedder) == [VideoPrompt(question, c.text)]
    ensures respond(VideoPrompt(question, c.text)) == Some(refined) ==>
      var out := AskResult(question, settings, videos, pdfs, embedder, respond);
      out.Success? && Before(out.value, VideoTypeLine, "Video ID: " + c.videoId) &&
      Before(out.value, RawHeading, c.text) && Before(out.value, c.text, RefinedHeading) &&
      Before(out.value, RefinedHeading, refined)
  {
    VideoReportInOrder(question, c.videoId, c.startTimestamp, c.startTokenId, c.endTimestamp, c.endTokenId, c.text, refined);
  }

  /** Without a video chunk, a PDF chunk over its threshold is shown with the model's summary of it. */
  lemma AskPdfFallback(question: string, settings: Settings, videos: seq<Video>, pdfs: seq<Pdf>, embedder: Embedder,
                       respond: string -> Option<string>, c: PDFChunk, summary: string)
    requires VideoPick(question, videos, embedder, VideoThreshold(settings)).None?
    requires PdfPick(question, pdfs, embedder, PdfThreshold(settings)) == Some(c)
    requires respond(PdfPrompt(question, c.text)) == Some(summary)
    ensures var out := AskResult(question, settings, videos, pdfs, embedder, respond);
      out.Success? && Contains(out.value, PdfTypeLine) && Contains(out.value, c.pdfId) &&
      Contains(out.value, "Page: " + IntToString(c.pageNumber)) &&
      Contains(out.value, "Paragraph: " + IntToString(c.paragraphIndex)) &&
      Contains(out.value, c.text) && Contains(out.value, summary)
  {
    PdfReportContents(question, c.pdfId, c.pageNumber, c.paragraphIndex, c.text, Some(summary));
  }

  /** Every successful response opens with the question, verbatim, under its heading. */
  lemma AskHeader(question: string, settings: Settings, videos: seq<Video>, pdfs: seq<Pdf>, embedder: Embedder,
                  respond: string -> Option<string>)
    ensures var out := AskResult(question, settings, videos, pdfs, embedder, respond);
      out.Success? ==> StartsWith(out.value, QuestionHeading + "\n" + question + "\n" + SourceHeading + "\n")
  {
    var videoPick := VideoPick(question, videos, embedder, VideoThreshold(settings));
    var pdfPick := PdfPick(question, pdfs, embedder, PdfThreshold(settings));
    if videoPick.Some? {
      var c := videoPick.value;
      if respond(VideoPrompt(question, c.text)).Some? {
        var refined := respond(VideoPrompt(question, c.text)).value;
        RenderHeader(question, VideoLines(c.videoId, c.startTimestamp, c.startTokenId, c.endTimestamp, c.endTokenId, c.text, refined));
      }
    } else if pdfPick.Some? {
      var c := pdfPick.value;
      if respond(PdfPrompt(question, c.text)).Some? {
        var summary := respond(PdfPrompt(question, c.text)).value;
        RenderHeader(question, PdfLines(c.pdfId, c.pageNumber, c.paragraphIndex, c.text, Some(summary)));
      }
    }
  }

  /** An unset threshold behaves as 0.7. */
  lemma AskDefaults(question: string, videos: seq<Video>, pdfs: seq<Pdf>, embedder: Embedder,
                    respond: string -> Option<string>)
    ensures AskResult(question, Settings(None, None), videos, pdfs, embedder, respond) ==
            AskResult(question, Settings(Some(0.7), Some(0.7)), videos, pdfs, embedder, respond)
  {
    assert VideoThreshold(Settings(None, None)) == VideoThreshold(Settings(Some(0.7), Some(0.7)));
    assert PdfThreshold(Settings(None, None)) == PdfThreshold(Settings(Some(0.7), Some(0.7)));
  }
}
