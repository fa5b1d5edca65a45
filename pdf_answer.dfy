/** The answer taken from a PDF paragraph. */
module PdfAnswers {
  import opened Wrappers
  import opened PdfChunks

  /**
   * A PDF answer: the fields copied from its chunk, which are never
   * reassigned, and the summary, which starts out absent and is later filled
   * in by the refiner.
   */
  class PDFAnswer {
    const pdfId: string
    const pageNumber: int
    const paragraphIndex: int
    const text: string
    var summary: Option<string>

    predicate CopiedFrom(chunk: PDFChunk) {
      pdfId == chunk.pdfId && pageNumber == chunk.pageNumber &&
      paragraphIndex == chunk.paragraphIndex && text == chunk.text
    }

    constructor(chunk: PDFChunk)
      ensures CopiedFrom(chunk)
      ensures summary == None
    {
      pdfId := chunk.pdfId;
      pageNumber := chunk.pageNumber;
      paragraphIndex := chunk.paragraphIndex;
      text := chunk.text;
      summary := None;
    }
  }
}
