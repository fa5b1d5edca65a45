/**
 * The paragraph chunker for PDF text: every page, in order, is split on
 * blank lines (`"\n\n"`), each piece is stripped, empty pieces are dropped,
 * and each remaining paragraph becomes one chunk numbered by its page
 * (from 1) and its place on that page (from 0).
 */
module PdfChunking {
  import opened Wrappers
  import opened PyStrings
  import opened PdfChunks

  /** A PDF as the loaders hand it over: an identifier and the text of each page. */
  datatype Pdf = Pdf(pdfId: string, pages: seq<string>)

  /** The `max_chars` of `chunk_pdf_pages` when its caller gives none (it has no effect). */
  const DefaultMaxChars: int := 800

  /** What separates paragraphs in a page's text. */
  const ParagraphBreak: string := "\n\n"

  /** The stripped pieces, in order, leaving out those that strip to nothing. */
  function KeepStripped(pieces: seq<string>): (ps: seq<string>)
    ensures |ps| <= |pieces|
    ensures forall k :: 0 <= k < |ps| ==> ps[k] != [] && Strip(ps[k]) == ps[k]
  {
    if pieces == [] then []
    else
      var rest := KeepStripped(pieces[1..]);
      StripIdempotent(pieces[0]);
      if Strip(pieces[0]) == [] then rest else [Strip(pieces[0])] + rest
  }

  /** A page's paragraphs: the list comprehension over `page_text.split("\n\n")`. */
  function Paragraphs(page: string): seq<string> {
    KeepStripped(SplitOn(page, ParagraphBreak))
  }

  /** A text is kept exactly when it is the non-empty strip of one of the pieces. */
  lemma {:induction false} KeepStrippedMembers(pieces: seq<string>, p: string)
    ensures p in KeepStripped(pieces) <==> p != [] && exists k :: 0 <= k < |pieces| && Strip(pieces[k]) == p
  {
    if pieces != [] {
      KeepStrippedMembers(pieces[1..], p);
      if p != [] && exists k :: 0 <= k < |pieces| && Strip(pieces[k]) == p {
        var k :| 0 <= k < |pieces| && Strip(pieces[k]) == p;
        if k > 0 {
          assert pieces[1..][k - 1] == pieces[k];
        }
      }
      if exists k :: 0 <= k < |pieces[1..]| && Strip(pieces[1..][k]) == p {
        var k :| 0 <= k < |pieces[1..]| && Strip(pieces[1..][k]) == p;
        assert pieces[k + 1] == pieces[1..][k];
      }
    }
  }

  /**
   * A page is cut at its blank lines and nowhere else: the pieces join back
   * into the page with `"\n\n"`, and no piece holds `"\n\n"`. A text is a
   * paragraph exactly when it is the strip of a piece that is not blank.
   */
  lemma ParagraphsOfPage(page: string, p: string)
    ensures Join(ParagraphBreak, SplitOn(page, ParagraphBreak)) == page
    ensures forall k :: 0 <= k < |SplitOn(page, ParagraphBreak)| ==>
      !Contains(SplitOn(page, ParagraphBreak)[k], ParagraphBreak)
    ensures p in Paragraphs(page) <==>
      exists k :: 0 <= k < |SplitOn(page, ParagraphBreak)| &&
        !IsBlank(SplitOn(page, ParagraphBreak)[k]) && Strip(SplitOn(page, ParagraphBreak)[k]) == p
  {
    var pieces := SplitOn(page, ParagraphBreak);
    JoinSplitOn(page, ParagraphBreak);
    forall k | 0 <= k < |pieces| ensures !Contains(pieces[k], ParagraphBreak) {
      SplitOnPiecesFree(page, ParagraphBreak, k);
    }
    forall k | 0 <= k < |pieces| ensures Strip(pieces[k]) == [] <==> IsBlank(pieces[k]) {
      StripEmptyIff(pieces[k]);
    }
    KeepStrippedMembers(pieces, p);
  }

  /** The paragraphs of every page, in page order. */
  function PageParagraphs(pages: seq<string>): (pp: seq<seq<string>>)
    ensures |pp| == |pages|
  {
    if pages == [] then [] else PageParagraphs(pages[..|pages| - 1]) + [Paragraphs(pages[|pages| - 1])]
  }

  /** Entry `i` of `PageParagraphs` is the paragraphs of page `i`. */
  lemma {:induction false} PageParagraphsAt(pages: seq<string>, i: nat)
    requires i < |pages|
    ensures PageParagraphs(pages)[i] == Paragraphs(pages[i])
    decreases |pages|
  {
    if i < |pages| - 1 {
      PageParagraphsAt(pages[..|pages| - 1], i);
    }
  }

  /** The chunks of the first `j` paragraphs `paras` of the page at 0-based position `pageIdx`. */
  function PageChunks(pdfId: string, pageIdx: nat, paras: seq<string>, j: nat): (cs: seq<PDFChunk>)
    requires j <= |paras|
    ensures |cs| == j
  {
    if j == 0 then []
    else PageChunks(pdfId, pageIdx, paras, j - 1) + [PDFChunk(pdfId, pageIdx + 1, j - 1, paras[j - 1])]
  }

  /** The chunks of the first `i` pages, given each page's paragraphs. */
  function ChunksUpTo(pdfId: string, pp: seq<seq<string>>, i: nat): seq<PDFChunk>
    requires i <= |pp|
  {
    if i == 0 then []
    else ChunksUpTo(pdfId, pp, i - 1) + PageChunks(pdfId, i - 1, pp[i - 1], |pp[i - 1]|)
  }

  /** What `chunk_pdf_pages` returns. */
  function ChunksOfPdf(pdf: Pdf): seq<PDFChunk> {
    ChunksUpTo(pdf.pdfId, PageParagraphs(pdf.pages), |pdf.pages|)
  }

  /**
   * The body of `chunk_pdf_pages`'s page loop for the page at 0-based
   * position `pageIdx`: split its text into paragraphs, then append one chunk
   * per paragraph, in paragraph order.
   */
  method ChunkPage(pdfId: string, pages: seq<string>, pageIdx: nat) returns (chunks: seq<PDFChunk>)
    requires pageIdx < |pages|
    ensures chunks == PageChunks(pdfId, pageIdx, PageParagraphs(pages)[pageIdx], |PageParagraphs(pages)[pageIdx]|)
  {
    var paragraphs := Paragraphs(pages[pageIdx]);
    PageParagraphsAt(pages, pageIdx);
    chunks := [];
    var paraIdx := 0;
    while paraIdx < |paragraphs|
      invariant 0 <= paraIdx <= |paragraphs|
      invariant chunks == PageChunks(pdfId, pageIdx, paragraphs, paraIdx)
    {
      chunks := chunks + [PDFChunk(pdfId, pageIdx + 1, paraIdx, paragraphs[paraIdx])];
      paraIdx := paraIdx + 1;
    }
  }

  /**
   * `chunk_pdf_pages`: the loop over the pages, each page chunked by
   * `ChunkPage`. `maxChars` is accepted and ignored: the result does not
   * depend on it.
   */
  method ChunkPdfPages(pdf: Pdf, maxChars: int) returns (chunks: seq<PDFChunk>)
    ensures chunks == ChunksOfPdf(pdf)
  {
    ghost var pp := PageParagraphs(pdf.pages);
    chunks := [];
    var pageIdx := 0;
    while pageIdx < |pdf.pages|
      invariant 0 <= pageIdx <= |pdf.pages|
      invariant chunks == ChunksUpTo(pdf.pdfId, pp, pageIdx)
    {
      var pageChunks := ChunkPage(pdf.pdfId, pdf.pages, pageIdx);
      chunks := chunks + pageChunks;
      pageIdx := pageIdx + 1;
    }
  }

  // ------------------------------------------------------------ properties

  /** How many paragraphs the first `i` pages have together. */
  function ParagraphTotal(pp: seq<seq<string>>, i: nat): nat
    requires i <= |pp|
  {
    if i == 0 then 0 else ParagraphTotal(pp, i - 1) + |pp[i - 1]|
  }

  lemma {:induction false} ParagraphTotalMonotone(pp: seq<seq<string>>, a: nat, b: nat)
    requires a <= b <= |pp|
    ensures ParagraphTotal(pp, a) <= ParagraphTotal(pp, b)
    decreases b
  {
    if a < b {
      ParagraphTotalMonotone(pp, a, b - 1);
    }
  }

  /** One chunk per paragraph: the count is the sum over the pages. */
  lemma {:induction false} ChunksUpToCount(pdfId: string, pp: seq<seq<string>>, i: nat)
    requires i <= |pp|
    ensures |ChunksUpTo(pdfId, pp, i)| == ParagraphTotal(pp, i)
  {
    if i > 0 {
      ChunksUpToCount(pdfId, pp, i - 1);
    }
  }

  lemma {:induction false} PageChunksAt(pdfId: string, pageIdx: nat, paras: seq<string>, j: nat, m: nat)
    requires m < j <= |paras|
    ensures PageChunks(pdfId, pageIdx, paras, j)[m] == PDFChunk(pdfId, pageIdx + 1, m, paras[m])
  {
    if m < j - 1 {
      PageChunksAt(pdfId, pageIdx, paras, j - 1, m);
    }
  }

  /**
   * `c` is the chunk of paragraph `c.paragraphIndex` on page `c.pageNumber`
   * and sits at position `k` of the output: after all paragraphs of the
   * earlier pages and the earlier paragraphs of its own.
   */
  predicate Placed(c: PDFChunk, pdfId: string, pp: seq<seq<string>>, k: nat) {
    c.pdfId == pdfId &&
    1 <= c.pageNumber <= |pp| &&
    0 <= c.paragraphIndex < |pp[c.pageNumber - 1]| &&
    c.text == pp[c.pageNumber - 1][c.paragraphIndex] &&
    k == ParagraphTotal(pp, c.pageNumber - 1) + c.paragraphIndex
  }

  /** Every chunk of the first `i` pages is placed, on one of those pages. */
  lemma {:induction false} ChunksUpToPlaced(pdfId: string, pp: seq<seq<string>>, i: nat, k: nat)
    requires i <= |pp| && k < |ChunksUpTo(pdfId, pp, i)|
    ensures Placed(ChunksUpTo(pdfId, pp, i)[k], pdfId, pp, k)
    ensures ChunksUpTo(pdfId, pp, i)[k].pageNumber <= i
  {
    var before := ChunksUpTo(pdfId, pp, i - 1);
    ChunksUpToCount(pdfId, pp, i - 1);
    if k < |before| {
      ChunksUpToPlaced(pdfId, pp, i - 1, k);
    } else {
      PageChunksAt(pdfId, i - 1, pp[i - 1], |pp[i - 1]|, k - |before|);
    }
  }

  /** The last page's paragraph `m` is chunk `ParagraphTotal(pp, i - 1) + m` of the first `i` pages. */
  lemma ChunksUpToAtLast(pdfId: string, pp: seq<seq<string>>, i: nat, m: nat)
    requires 0 < i <= |pp| && m < |pp[i - 1]|
    ensures ParagraphTotal(pp, i - 1) + m < |ChunksUpTo(pdfId, pp, i)|
    ensures ChunksUpTo(pdfId, pp, i)[ParagraphTotal(pp, i - 1) + m] == PDFChunk(pdfId, i, m, pp[i - 1][m])
  {
    ChunksUpToCount(pdfId, pp, i - 1);
    PageChunksAt(pdfId, i - 1, pp[i - 1], |pp[i - 1]|, m);
  }

  /** Chunks of the first `i - 1` pages keep their positions among those of the first `i`. */
  lemma ChunksUpToPrefix(pdfId: string, pp: seq<seq<string>>, i: nat, k: nat)
    requires 0 < i <= |pp| && k < |ChunksUpTo(pdfId, pp, i - 1)|
    ensures k < |ChunksUpTo(pdfId, pp, i)|
    ensures ChunksUpTo(pdfId, pp, i)[k] == ChunksUpTo(pdfId, pp, i - 1)[k]
  {
  }

  /** Paragraph `m` of page `p` (0-based) is chunk `ParagraphTotal(pp, p) + m`. */
  lemma {:induction false} ChunksUpToAt(pdfId: string, pp: seq<seq<string>>, i: nat, p: nat, m: nat)
    requires p < i <= |pp| && m < |pp[p]|
    ensures ParagraphTotal(pp, p) + m < |ChunksUpTo(pdfId, pp, i)|
    ensures ChunksUpTo(pdfId, pp, i)[ParagraphTotal(pp, p) + m] == PDFChunk(pdfId, p + 1, m, pp[p][m])
  {
    if p < i - 1 {
      ChunksUpToAt(pdfId, pp, i - 1, p, m);
      ChunksUpToPrefix(pdfId, pp, i, ParagraphTotal(pp, p) + m);
    } else {
      ChunksUpToAtLast(pdfId, pp, i, m);
    }
  }

  /** `(pageNumber, paragraphIndex)` strictly increases along the chunks of the first `i` pages. */
  lemma ChunksUpToOrdered(pdfId: string, pp: seq<seq<string>>, i: nat, k: nat, l: nat)
    requires i <= |pp| && k < l < |ChunksUpTo(pdfId, pp, i)|
    ensures var a, b := ChunksUpTo(pdfId, pp, i)[k], ChunksUpTo(pdfId, pp, i)[l];
      a.pageNumber < b.pageNumber || (a.pageNumber == b.pageNumber && a.paragraphIndex < b.paragraphIndex)
  {
    var a, b := ChunksUpTo(pdfId, pp, i)[k], ChunksUpTo(pdfId, pp, i)[l];
    ChunksUpToPlaced(pdfId, pp, i, k);
    ChunksUpToPlaced(pdfId, pp, i, l);
    if a.pageNumber > b.pageNumber {
      ParagraphTotalMonotone(pp, b.pageNumber, a.pageNumber - 1);
      assert false;
    }
  }

  /** There are as many chunks as surviving paragraphs over all pages. */
  lemma PdfChunksCount(pdf: Pdf)
    ensures |ChunksOfPdf(pdf)| == ParagraphTotal(PageParagraphs(pdf.pages), |pdf.pages|)
  {
    ChunksUpToCount(pdf.pdfId, PageParagraphs(pdf.pages), |pdf.pages|);
  }

  /**
   * Every chunk carries the PDF's id, a page number between 1 and the page
   * count, and the stripped, non-empty text of the paragraph its index names
   * on that page.
   */
  lemma PdfChunksSound(pdf: Pdf, k: nat)
    requires k < |ChunksOfPdf(pdf)|
    ensures Placed(ChunksOfPdf(pdf)[k], pdf.pdfId, PageParagraphs(pdf.pages), k)
    ensures ChunksOfPdf(pdf)[k].text != [] && Strip(ChunksOfPdf(pdf)[k].text) == ChunksOfPdf(pdf)[k].text
  {
    ChunksUpToPlaced(pdf.pdfId, PageParagraphs(pdf.pages), |pdf.pages|, k);
    PageParagraphsAt(pdf.pages, ChunksOfPdf(pdf)[k].pageNumber - 1);
  }

  /** Every surviving paragraph of every page has its chunk. */
  lemma PdfChunksComplete(pdf: Pdf, p: nat, m: nat)
    requires p < |pdf.pages| && m < |Paragraphs(pdf.pages[p])|
    ensures ParagraphTotal(PageParagraphs(pdf.pages), p) + m < |ChunksOfPdf(pdf)|
    ensures ChunksOfPdf(pdf)[ParagraphTotal(PageParagraphs(pdf.pages), p) + m]
         == PDFChunk(pdf.pdfId, p + 1, m, Paragraphs(pdf.pages[p])[m])
  {
    PageParagraphsAt(pdf.pages, p);
    ChunksUpToAt(pdf.pdfId, PageParagraphs(pdf.pages), |pdf.pages|, p, m);
  }

  /** `(page_number, paragraph_index)` strictly increases along the output. */
  lemma PdfChunksOrdered(pdf: Pdf, k: nat, l: nat)
    requires k < l < |ChunksOfPdf(pdf)|
    ensures var a, b := ChunksOfPdf(pdf)[k], ChunksOfPdf(pdf)[l];
      a.pageNumber < b.pageNumber || (a.pageNumber == b.pageNumber && a.paragraphIndex < b.paragraphIndex)
  {
    ChunksUpToOrdered(pdf.pdfId, PageParagraphs(pdf.pages), |pdf.pages|, k, l);
  }

  // ------------------------------------------------------------ examples

  /** Text with no newline and no whitespace at either end. */
  predicate OneLine(t: string) {
    t != [] && !IsSpace(t[0]) && !IsSpace(t[|t| - 1]) && forall i :: 0 <= i < |t| ==> t[i] != '\n'
  }

  /**
   * A one-page PDF whose text is two one-line paragraphs separated by a blank
   * line (such as "First paragraph.\n\nSecond paragraph.") gives two chunks
   * of page 1, indexed 0 and 1, carrying the two paragraphs.
   */
  lemma TwoParagraphPage(pdfId: string, first: string, second: string)
    requires OneLine(first) && OneLine(second)
    ensures var chunks := ChunksOfPdf(Pdf(pdfId, [first + ParagraphBreak + second]));
      |chunks| == 2 &&
      chunks[0] == PDFChunk(pdfId, 1, 0, first) &&
      chunks[1] == PDFChunk(pdfId, 1, 1, second)
  {
    var page := first + ParagraphBreak + second;
    SplitOnFirst(first, ParagraphBreak, second);
    SplitOnAbsent(second, ParagraphBreak);
    StripUnpadded(first);
    StripUnpadded(second);
    assert SplitOn(page, ParagraphBreak) == [first, second];
    assert [first, second][1..] == [second];
    assert KeepStripped([second]) == [second];
    assert Paragraphs(page) == [first, second];
    var pdf := Pdf(pdfId, [page]);
    PdfChunksComplete(pdf, 0, 0);
    PdfChunksComplete(pdf, 0, 1);
    PdfChunksCount(pdf);
  }
}
