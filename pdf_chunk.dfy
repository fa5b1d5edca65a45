/** The record for one paragraph of a PDF page. */
module PdfChunks {
  /**
   * A paragraph-level chunk: the document it comes from, its page (numbered
   * from 1 by the chunker, though the record itself does not check that),
   * its position among the page's paragraphs, and its text. Fields are set
   * once and never changed.
   */
  datatype PDFChunk = PDFChunk(pdfId: string, pageNumber: int, paragraphIndex: int, text: string)
}
