/**
 * The formatter: the user's question and the chosen answer laid out as a
 * list of lines, joined by newlines.
 */
module FormatAnswers {
  import opened Wrappers
  import opened PyStrings
  import opened TranscriptChunks
  import opened VideoAnswers
  import opened PdfAnswers

  const QuestionHeading: string := "\n=== QUESTION ==="
  const SourceHeading: string := "\n=== SOURCE ==="
  const RawHeading: string := "\n=== RAW ANSWER ==="
  const RefinedHeading: string := "\n=== REFINED ANSWER ==="
  const VideoTypeLine: string := "Type: Video"
  const PdfTypeLine: string := "Type: PDF"
  const NoAnswerMessage: string :=
    "No answer was available due to lack of resources. Please provide more resources and try again."

  /** An optional string interpolated into an f-string: `None` shows as "None". */
  function Shown(x: Option<string>): string {
    match x
    case None => "None"
    case Some(s) => s
  }

  function TimestampsLine(startTimestamp: Timestamp, endTimestamp: Timestamp): string {
    "Timestamps: " + startTimestamp.shown + " \U{2013} " + endTimestamp.shown
  }

  function TokenIdsLine(startTokenId: int, endTokenId: int): string {
    "Start token_id: " + IntToString(startTokenId) + " End token_id: " + IntToString(endTokenId)
  }

  function HeaderLines(question: string): seq<string> {
    [QuestionHeading, question, SourceHeading]
  }

  /** The lines of the video branch, the refined answer being a string. */
  function VideoLines(videoId: string, startTimestamp: Timestamp, startTokenId: int, endTimestamp: Timestamp,
                      endTokenId: int, snippet: string, refined: string): seq<string>
  {
    [VideoTypeLine, "Video ID: " + videoId, TimestampsLine(startTimestamp, endTimestamp),
     TokenIdsLine(startTokenId, endTokenId), RawHeading, snippet, RefinedHeading, refined]
  }

  /** The lines of the PDF branch. */
  function PdfLines(pdfId: string, pageNumber: int, paragraphIndex: int, text: string, summary: Option<string>): seq<string> {
    [PdfTypeLine, "PDF: " + pdfId, "Page: " + IntToString(pageNumber),
     "Paragraph: " + IntToString(paragraphIndex), "raw text: " + text, "summary: " + Shown(summary)]
  }

  /** The header lines followed by a branch's lines, joined by newlines. */
  function Render(question: string, body: seq<string>): string {
    Join("\n", HeaderLines(question) + body)
  }

  /** Joining the lines raises when the video answer's refined answer is still `None`. */
  datatype FormatError = RefinedAnswerNotText

  /**
   * What `format_answer` returns: the video branch whenever a video answer
   * is given, else the PDF branch when a PDF answer is given, else the
   * no-answer message.
   */
  function Formatted(question: string, videoAnswer: VideoAnswer?, pdfAnswer: PDFAnswer?): Result<string, FormatError>
    reads videoAnswer, pdfAnswer
  {
    if videoAnswer != null then
      match videoAnswer.refinedAnswer
      case None => Failure(RefinedAnswerNotText)
      case Some(refined) =>
        Success(Render(question, VideoLines(videoAnswer.videoId, videoAnswer.startTimestamp, videoAnswer.startTokenId,
                                            videoAnswer.endTimestamp, videoAnswer.endTokenId,
                                            videoAnswer.transcriptSnippet, refined)))
    else if pdfAnswer != null then
      Success(Render(question, PdfLines(pdfAnswer.pdfId, pdfAnswer.pageNumber, pdfAnswer.paragraphIndex,
                                        pdfAnswer.text, pdfAnswer.summary)))
    else
      Success(Render(question, [NoAnswerMessage]))
  }

  /**
   * `format_answer`: the header lines, then the lines of one branch, are
   * appended to `lines`, which is joined at the end. Neither answer is
   * modified (the method may change nothing). A `None` refined answer
   * makes the join raise; the method stops there with the error.
   */
  method FormatAnswer(question: string, videoAnswer: VideoAnswer?, pdfAnswer: PDFAnswer?)
    returns (r: Result<string, FormatError>)
    ensures r == Formatted(question, videoAnswer, pdfAnswer)
  {
    var lines: seq<string> := [];
    lines := lines + [QuestionHeading, question, SourceHeading];
    assert lines == HeaderLines(question);
    if videoAnswer != null {
      if videoAnswer.refinedAnswer.None? {
        return Failure(RefinedAnswerNotText);
      }
      lines := lines + [VideoTypeLine, "Video ID: " + videoAnswer.videoId,
                        TimestampsLine(videoAnswer.startTimestamp, videoAnswer.endTimestamp),
                        TokenIdsLine(videoAnswer.startTokenId, videoAnswer.endTokenId),
                        RawHeading, videoAnswer.transcriptSnippet,
                        RefinedHeading, videoAnswer.refinedAnswer.value];
      assert lines == HeaderLines(question) + VideoLines(videoAnswer.videoId, videoAnswer.startTimestamp,
        videoAnswer.startTokenId, videoAnswer.endTimestamp, videoAnswer.endTokenId,
        videoAnswer.transcriptSnippet, videoAnswer.refinedAnswer.value);
    } else if pdfAnswer != null {
      lines := lines + [PdfTypeLine, "PDF: " + pdfAnswer.pdfId,
                        "Page: " + IntToString(pdfAnswer.pageNumber),
                        "Paragraph: " + IntToString(pdfAnswer.paragraphIndex),
                        "raw text: " + pdfAnswer.text, "summary: " + Shown(pdfAnswer.summary)];
      assert lines == HeaderLines(question) + PdfLines(pdfAnswer.pdfId, pdfAnswer.pageNumber,
        pdfAnswer.paragraphIndex, pdfAnswer.text, pdfAnswer.summary);
    } else {
      lines := lines + [NoAnswerMessage];
    }
    r := Success(Join("\n", lines));
  }

  lemma HeaderJoin(question: string)
    ensures Join("\n", HeaderLines(question)) == QuestionHeading + "\n" + question + "\n" + SourceHeading
  {
    var header := HeaderLines(question);
    assert header[1..] == [question, SourceHeading];
    assert header[1..][1..] == [SourceHeading];
    assert Join("\n", header[1..]) == question + "\n" + SourceHeading;
  }

  /** Every output opens with the QUESTION heading, the question verbatim and the SOURCE heading, one per line. */
  lemma RenderHeader(question: string, body: seq<string>)
    requires body != []
    ensures StartsWith(Render(question, body), QuestionHeading + "\n" + question + "\n" + SourceHeading + "\n")
    ensures Contains(Render(question, body), question)
  {
    var header := HeaderLines(question);
    JoinAppend("\n", header, body);
    HeaderJoin(question);
    JoinContains("\n", header + body, 1);
  }

  /** With neither answer, the fixed message follows the SOURCE heading and ends the output. */
  lemma NoAnswerReport(question: string)
    ensures Render(question, [NoAnswerMessage]) ==
            QuestionHeading + "\n" + question + "\n" + SourceHeading + "\n" + NoAnswerMessage
  {
    var header := HeaderLines(question);
    JoinAppend("\n", header, [NoAnswerMessage]);
    HeaderJoin(question);
  }

  /** The video branch shows, in this order: the question, type, id, timestamps, token ids, raw snippet and refined answer. */
  lemma VideoReportInOrder(question: string, videoId: string, startTimestamp: Timestamp, startTokenId: int,
                           endTimestamp: Timestamp, endTokenId: int, snippet: string, refined: string)
    ensures var out := Render(question, VideoLines(videoId, startTimestamp, startTokenId, endTimestamp, endTokenId, snippet, refined));
      Before(out, question, VideoTypeLine) &&
      Before(out, VideoTypeLine, "Video ID: " + videoId) &&
      Before(out, "Video ID: " + videoId, TimestampsLine(startTimestamp, endTimestamp)) &&
      Before(out, TimestampsLine(startTimestamp, endTimestamp), TokenIdsLine(startTokenId, endTokenId)) &&
      Before(out, TokenIdsLine(startTokenId, endTokenId), RawHeading) &&
      Before(out, RawHeading, snippet) &&
      Before(out, snippet, RefinedHeading) &&
      Before(out, RefinedHeading, refined)
  {
    var lines := HeaderLines(question) + VideoLines(videoId, startTimestamp, startTokenId, endTimestamp, endTokenId, snippet, refined);
    JoinOrdered("\n", lines, 1, 3);
    JoinOrdered("\n", lines, 3, 4);
    JoinOrdered("\n", lines, 4, 5);
    JoinOrdered("\n", lines, 5, 6);
    JoinOrdered("\n", lines, 6, 7);
    JoinOrdered("\n", lines, 7, 8);
    JoinOrdered("\n", lines, 8, 9);
    JoinOrdered("\n", lines, 9, 10);
  }

  /** The PDF branch shows its type, id, page, paragraph, raw text and summary. */
  lemma PdfReportContents(question: string, pdfId: string, pageNumber: int, paragraphIndex: int,
                          text: string, summary: Option<string>)
    ensures var out := Render(question, PdfLines(pdfId, pageNumber, paragraphIndex, text, summary));
      Contains(out, PdfTypeLine) && Contains(out, "PDF: " + pdfId) &&
      Contains(out, "Page: " + IntToString(pageNumber)) && Contains(out, "Paragraph: " + IntToString(paragraphIndex)) &&
      Contains(out, "raw text: " + text) && Contains(out, "summary: " + Shown(summary)) &&
      Contains(out, pdfId) && Contains(out, text) && Contains(out, Shown(summary))
  {
    var lines := HeaderLines(question) + PdfLines(pdfId, pageNumber, paragraphIndex, text, summary);
    var out := Join("\n", lines);
    JoinContains("\n", lines, 3);
    JoinContains("\n", lines, 4);
    JoinContains("\n", lines, 5);
    JoinContains("\n", lines, 6);
    JoinContains("\n", lines, 7);
    JoinContains("\n", lines, 8);
    ContainsSuffix(out, "PDF: ", pdfId);
    ContainsSuffix(out, "raw text: ", text);
    ContainsSuffix(out, "summary: ", Shown(summary));
  }

  /** Formatting fails exactly when a video answer is given whose refined answer is still absent. */
  lemma FormattedFails(question: string, videoAnswer: VideoAnswer?, pdfAnswer: PDFAnswer?)
    ensures Formatted(question, videoAnswer, pdfAnswer).Failure? <==> videoAnswer != null && videoAnswer.refinedAnswer.None?
  {
  }

  /** A video answer decides the output alone: a PDF answer given beside it is ignored. */
  lemma VideoTakesPriority(question: string, videoAnswer: VideoAnswer, pdfAnswer: PDFAnswer?)
    ensures Formatted(question, videoAnswer, pdfAnswer) == Formatted(question, videoAnswer, null)
  {
  }
}
