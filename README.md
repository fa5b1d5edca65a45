# multisource-rag, modelled in Dafny

multisource-rag answers a user's question from two kinds of material: video
transcripts and PDF documents. It works in these steps:

- **Video chunking.** Transcripts are cut into overlapping windows of tokens.
- **PDF chunking.** PDF pages are split into paragraphs.
- **Retrieval.** Every chunk text is embedded. The question is embedded too, and the best chunk by inner product is looked up.
- **Threshold gate.** A chunk is accepted only if its score is strictly above a threshold.
- **Fallback.** Videos are searched first; the PDFs only when no video chunk passes.
- **Refinement.** The chosen answer goes to a language model: a video snippet is rewritten, a PDF paragraph is summarised.
- **Formatting.** Everything is laid out as a fixed multi-line report.

The Dafny model has one module per source file of that core:

| module | file | models |
|---|---|---|
| `VideoChunking` | `video_chunking.dfy` | `chunk_video_transcript`, `get_chunk_text` |
| `TranscriptChunks` | `transcript_chunk.dfy` | `TranscriptChunk` |
| `PdfChunking` | `pdf_chunking.dfy` | `chunk_pdf_pages` |
| `PdfChunks` | `pdf_chunk.dfy` | `PDFChunk` |
| `VectorIndexing` | `vector_index.dfy` | the FAISS wrapper, as an exact top-1 inner-product search |
| `Embedders` | `embedder.dfy` | the embedding model, as a pair of functions |
| `RagSystems` | `rag_system.dfy` | `RAGSystem` |
| `Retrieval` | `retrieval.dfy` | `retrieve_from_videos`, `retrieve_from_pdfs` |
| `VideoAnswers` | `video_answer.dfy` | `VideoAnswer` |
| `PdfAnswers` | `pdf_answer.dfy` | `PDFAnswer` |
| `AnswerRefiners` | `answer_refiner.dfy` | the prompt templates and `AnswerRefiner.refine_answer` |
| `FormatAnswers` | `format_answers.dfy` | `format_answer` |
| `LlmClients` | `llm_client.dfy` | `normalize` and the output post-processing of `LLMClient.generate` |
| `Api` | `app.dfy` | the `/ask` endpoint |

Two support modules hold shared definitions:

- `PyStrings` (`py_strings.dfy`) defines the Python string operations the code relies on: `join`, `split(sep)`, `split()`, `strip()`, `startswith` and `str(int)`.
- `Wrappers` (`wrappers.dfy`) defines `Option` and `Result`. These make Python's `None` and raised exceptions explicit.

Stateful parts of the source are classes:

- `VectorIndex` has `rows` that `Add` extends.
- `VideoAnswer` and `PDFAnswer` have a mutable `refinedAnswer` / `summary`, filled in by the refiner.
- `LanguageModel` keeps a ghost log of the prompts sent to it.

Loops of the source are methods with loop invariants, each proved against a pure specification function:

- `ChunkVideoTranscript` is proved against `VideoChunks`.
- `ChunkPdfPages` is proved against `ChunksOfPdf`, and the body of its page loop, `ChunkPage`, against `PageChunks`.
- `CollectVideoChunks` and `CollectPdfChunks`, the first loops of the two retrievers, are proved against `VideoCorpus` and `PdfCorpus`.

The two retrievers `RetrieveFromVideos` and `RetrieveFromPdfs` call those loops and then embed, index and search; they are specified by `VideoPick` and `PdfPick`.

The `/ask` endpoint has no loop. `Ask` is specified by `AskResult` and `AskPrompts`.

The properties the system promises are lemmas about those functions.

Each video token carries its id, its timestamp and its word. A timestamp is
carried as `Timestamp(shown)`, the text Python prints for it. That text is all
the formatter needs.

## Model

| member | source | states |
|---|---|---|
| VideoChunking.ChunkTextWords | preprocessing/video/video_chunking.py:3-18 | when every word of the window is non-empty and free of whitespace, the chunk text splits back into exactly the window's words, is single-spaced and contains every word |
| VideoChunking.WindowEnd | preprocessing/video/video_chunking.py:47 | the slice `tokens[i : i + chunk_size]` never ends past `n`; when `i + chunk_size >= 0` it ends at `min(i + chunk_size, n)` (a negative end counts from the back of the list, as Python's slice does) |
| VideoChunking.ChunkVideoTranscript | preprocessing/video/video_chunking.py:20-63 | the loop over `range(0, len(tokens), step)` returns exactly `VideoChunks`; a zero step or an empty window gives the error, not a list |
| VideoChunking.SpansFromCount | preprocessing/video/video_chunking.py:46 | with `chunk_size >= 1` and a positive step, the range yields the least number of starts `k * step` that reach past the last token |
| VideoChunking.SpansFromAt | preprocessing/video/video_chunking.py:46-47 | with `chunk_size >= 1` and a positive step, window `k` (when it starts at or before the last token) starts `k` steps in and ends `chunk_size` later, clamped to the transcript |
| VideoChunking.SpanAt | preprocessing/video/video_chunking.py:46-47 | with `chunk_size >= 1` and a positive step, window `k` of the range is `[k * step, min(k * step + chunk_size, n))` |
| VideoChunking.VideoChunkAt | preprocessing/video/video_chunking.py:46-61 | with `chunk_size >= 1` and a positive step, chunk `k` of the output is the chunk of window `k` |
| VideoChunking.VideoChunksWindows | preprocessing/video/video_chunking.py:20-63 | with `chunk_size >= 1` and a positive step, chunking succeeds; it is empty iff there are no tokens; it has ceil(n / step) chunks; chunk `k` is built from `tokens[k*step .. min(k*step + chunk_size, n)]` |
| VideoChunking.VideoChunksCover | preprocessing/video/video_chunking.py:43-47 | with `0 <= overlap < chunk_size`, every token lies in the window of some chunk |
| VideoChunking.VideoChunksEnds | preprocessing/video/video_chunking.py:46-53 | with `0 <= overlap < chunk_size` and at least one token, chunking succeeds, the first chunk starts at the first token and the last chunk ends at the last token |
| VideoChunking.VideoChunksEmpty | preprocessing/video/video_chunking.py:46 | no tokens give no chunks, unless the step is zero |
| VideoChunking.VideoChunksErrors | preprocessing/video/video_chunking.py:43-48 | `overlap == chunk_size` always raises (zero step); with `chunk_size == 0` and a negative overlap (so a positive step), a non-empty transcript raises when reading the first token of its empty window |
| VideoChunking.SampleWithoutOverlap | tests/test_video_chunking.py:3-22 | four tokens in windows of 2 with no overlap give 2 chunks, both of video "vid1": "hello world" and "click save" |
| VideoChunking.SampleWithOverlap | tests/test_video_chunking.py:25-48 | with overlap 1 they give 4 chunks: "hello world", "world click", "click save", "save" |
| PdfChunking.KeepStripped | preprocessing/pdf/pdf_chunking.py:29-33 | every kept paragraph is non-empty and already stripped, and there are no more of them than pieces |
| PdfChunking.KeepStrippedMembers | preprocessing/pdf/pdf_chunking.py:29-33 | a text is a paragraph iff it is the non-empty strip of some piece of the split on blank lines |
| PdfChunking.ParagraphsOfPage | preprocessing/pdf/pdf_chunking.py:28-32 | `page_text.split("\n\n")` cuts only at blank lines: its pieces join back into the page and none holds `"\n\n"`; a text is a paragraph iff it is the strip of a piece that is not all whitespace |
| PdfChunking.PageChunks | preprocessing/pdf/pdf_chunking.py:35-43 | one chunk per paragraph of the page |
| PdfChunking.ChunkPage | preprocessing/pdf/pdf_chunking.py:28-43 | the body of the page loop splits page `page_idx` into its paragraphs and appends exactly `PageChunks` of them, one chunk per paragraph in order |
| PdfChunking.ChunkPdfPages | preprocessing/pdf/pdf_chunking.py:3-45 | the loop over the pages, each page chunked by `ChunkPage`, returns exactly `ChunksOfPdf(pdf)`; `max_chars` has no effect |
| PdfChunking.PageChunksAt | preprocessing/pdf/pdf_chunking.py:35-43 | paragraph `m` of a page becomes the chunk with 1-based page number and paragraph index `m` |
| PdfChunking.ChunksUpToCount | preprocessing/pdf/pdf_chunking.py:28-43 | the count of chunks is the total count of surviving paragraphs |
| PdfChunking.ChunksUpToPlaced | preprocessing/pdf/pdf_chunking.py:28-43 | every chunk is some page's paragraph at its index, under that page's 1-based number |
| PdfChunking.ChunksUpToAt | preprocessing/pdf/pdf_chunking.py:28-43 | paragraph `m` of page `p` is the chunk at position (paragraphs before page `p`) + `m` |
| PdfChunking.ChunksUpToOrdered | preprocessing/pdf/pdf_chunking.py:28-43 | `(page_number, paragraph_index)` strictly increases along the chunks |
| PdfChunking.PdfChunksCount | preprocessing/pdf/pdf_chunking.py:28-45 | a PDF yields as many chunks as it has surviving paragraphs over all pages |
| PdfChunking.PdfChunksSound | preprocessing/pdf/pdf_chunking.py:28-43 | every chunk carries the PDF id and is a surviving paragraph under its page number and index; its text is non-empty and stripped |
| PdfChunking.PdfChunksComplete | preprocessing/pdf/pdf_chunking.py:28-43 | every surviving paragraph of every page has its chunk |
| PdfChunking.PdfChunksOrdered | preprocessing/pdf/pdf_chunking.py:28-45 | chunks come in page order, then paragraph order, with no repeats |
| PdfChunking.TwoParagraphPage | tests/test_pdf_chunking.py:3-15 | a single page "first\n\nsecond" of one-line paragraphs gives 2 chunks, on page 1, with indices 0 and 1 |
| VectorIndexing.TopHit | indexing/faiss/vector_index.py:33-44 | no hit iff there are no rows; otherwise a valid row whose score is the maximum, and the first row with that score |
| VectorIndexing.VectorIndex.constructor | indexing/faiss/vector_index.py:13-20 | a new index holds no vectors |
| VectorIndexing.VectorIndex.Add | indexing/faiss/vector_index.py:23-31 | the vectors are appended after those already held |
| VectorIndexing.UnitRowsSearch | tests/test_vector_index.py:4-17 | rows [1,0] and [0,1] searched with [1,0] give row 0, score 1 |
| VideoAnswers.VideoAnswer.constructor | rag/video_answer.py:9-16 | every field is copied from the chunk, the snippet being its text; the refined answer starts absent |
| PdfAnswers.PDFAnswer.constructor | rag/pdf_answer.py:9-14 | every field is copied from the chunk; the summary starts absent |
| RagSystems.RAGSystem.constructor | rag/rag_system.py:12-15 | stores the chunks, embedder and index as given |
| RagSystems.RAGSystem.Answer | rag/rag_system.py:17-37 | the result is the top hit for the embedded question; it is empty iff the index is; its score is the inner product with its row and no row scores higher; with one row per chunk its row is a chunk position |
| Retrieval.CollectVideoChunks | rag/retrievel.py:32-39 | the loop over the videos returns exactly `VideoCorpus`: each video's chunks with the default sizes, video after video |
| Retrieval.CollectPdfChunks | rag/retrievel.py:85-89 | the loop over the PDFs returns exactly `PdfCorpus`: each PDF's chunks, document after document |
| Retrieval.RetrieveFromVideos | rag/retrievel.py:10-61 | returns null when `VideoPick` finds nothing; otherwise a fresh answer copied from the picked chunk, with no refined answer yet |
| Retrieval.RetrieveFromPdfs | rag/retrievel.py:63-110 | returns null when `PdfPick` finds nothing; otherwise a fresh answer copied from the picked chunk, with no summary yet |
| Retrieval.PickExactly | rag/retrievel.py:53-58 | a chunk is picked iff some score is strictly above the threshold; the pick has the highest score, is the first with it, and is above the threshold |
| Retrieval.PickOfTexts | rag/retrievel.py:43-58 | with row `k` of the index holding the embedding of text `k`, the gate picks nothing iff no text's similarity to the question is above the threshold; otherwise it picks the chunk of a text whose similarity is above the threshold, is the highest, and is the first with that value |
| Retrieval.VideoPickScores | rag/retrievel.py:32-61 | the video answer is the corpus chunk whose text is most similar to the question (the first on ties), with similarity strictly above the threshold; there is none iff no chunk is above it |
| Retrieval.PdfPickScores | rag/retrievel.py:85-110 | the PDF answer is the corpus chunk whose text is most similar to the question (the first on ties), with similarity strictly above the threshold; there is none iff no chunk is above it |
| Retrieval.PickLowerThreshold | rag/retrievel.py:55 | a chunk picked at some threshold is still the pick at any lower one |
| Retrieval.VideoCorpusFrom | rag/retrievel.py:34-39 | every chunk of the video corpus belongs to one of the videos |
| Retrieval.VideoCorpusNonEmpty | rag/retrievel.py:34-39 | one video with tokens makes the corpus non-empty |
| Retrieval.VideoRetrievalAnswers | tests/test_retrieval_smoke.py:12-31 | with threshold 0, a video with tokens, and positive scores, the video retrieval returns an answer |
| AnswerRefiners.PromptsCarryInputs | rag/answer_refiner.py:87-92 | both prompts contain the question and the answer text verbatim |
| AnswerRefiners.PromptDeterminesText | rag/answer_refiner.py:6-44 | for one question, each template gives different prompts for different texts |
| AnswerRefiners.LanguageModel.Generate | rag/answer_refiner.py:88 | returns the model's answer to the prompt and logs the prompt |
| AnswerRefiners.AnswerRefiner.constructor | rag/answer_refiner.py:60-61 | keeps the given client |
| AnswerRefiners.AnswerRefiner.RefineAnswer | rag/answer_refiner.py:63-96 | a video answer, if given, is sent in its template first, and a PDF answer after it; each field is set to the model's reply; a raising call stops the refinement and leaves its field as it was; the model sees exactly those prompts; the same objects are returned |
| FormatAnswers.FormatAnswer | rag/format_answers.py:1-51 | returns exactly `Formatted`; modifies nothing |
| FormatAnswers.RenderHeader | rag/format_answers.py:19-51 | the output starts with "\n=== QUESTION ===", the question verbatim and "\n=== SOURCE ===", one per line |
| FormatAnswers.NoAnswerReport | rag/format_answers.py:47-51 | with neither answer, the fixed no-answer message follows the SOURCE heading and ends the output |
| FormatAnswers.VideoReportInOrder | rag/format_answers.py:25-38 | the video branch shows, in order: the question, type, id, timestamps, token ids, RAW heading, snippet, REFINED heading and refined answer |
| FormatAnswers.PdfReportContents | rag/format_answers.py:40-46 | the PDF branch contains "Type: PDF" and the PDF, page, paragraph, raw-text and summary lines, so also the id, text and summary |
| FormatAnswers.FormattedFails | rag/format_answers.py:38-50 | formatting fails iff a video answer is given whose refined answer is still absent |
| FormatAnswers.VideoTakesPriority | rag/format_answers.py:25-40 | a PDF answer given beside a video answer does not change the output |
| LlmClients.NormalizeSingleSpaced | models/llm_client.py:66-67 | the result has no whitespace at either end, never two whitespace characters in a row, and only single spaces |
| LlmClients.NormalizeWords | models/llm_client.py:66-67 | normalising keeps the sequence of words |
| LlmClients.NormalizeIdempotent | models/llm_client.py:66-67 | normalising twice is normalising once |
| LlmClients.NormalizeBlank | models/llm_client.py:66-67 | the result is "" iff the text is empty or all whitespace |
| LlmClients.PostProcessRemovesEcho | models/llm_client.py:57-64 | when the normalised output starts with the normalised prompt, the prompt plus the result give the output back; otherwise the result is the normalised output |
| LlmClients.PostProcessSuffix | models/llm_client.py:59-64 | the result is always a suffix of the normalised output |
| Api.Ask | api/app.py:56-109 | the response is `AskResult`: video search first, the PDFs only when it finds nothing, a 404 when both find nothing, otherwise the refined and formatted answer; the model is sent exactly `AskPrompts`; a format failure cannot occur |
| Api.AskNotFound | api/app.py:83-93 | the 404 "No relevant answer found" is returned, and nothing is sent to the model, iff neither videos nor PDFs have a chunk above their threshold |
| Api.AskVideoFirst | api/app.py:79-87 | a video pick decides the response: the PDFs do not matter; the model sees only the video prompt; the output shows the type and id, then the raw snippet, then the refined answer |
| Api.AskPdfFallback | api/app.py:83-105 | with no video pick and a PDF pick, the output shows the PDF's type, id, page, paragraph, text and summary |
| Api.AskHeader | api/app.py:101-109 | every successful response opens with the question under its heading |
| Api.AskDefaults | api/app.py:76-77 | unset thresholds behave as 0.7 |

## Left out

- Embeddings, scores and thresholds are exact `real`s. The 32-bit float arithmetic and the normalisation of vectors are not modelled, and neither is the text Python prints for a float timestamp (carried as given).
- The embedding model (sentence-transformers) is a parameter. `Embedder` is a pair of total functions from text to vector.
- The local language model is not modelled: tokenizer, torch and `model.generate`. Neither is `models/gemini_llm_client.py`, the client the endpoint actually uses. The refiner talks to an abstract `LanguageModel`, whose `respond` gives the reply to a prompt, or `None` when the call raises. The decoded text is an input of `LlmClients.PostProcess`.
- VectorIndexing.TopHit: the index returns only the single best row, not FAISS's `(scores, indices)` arrays for `k=3`. Among equal scores it picks the lowest row; FAISS's order for ties is not modelled.
- VectorIndexing.VectorIndex.Add: the dimension of added vectors is not checked against `dim`.
- Retrieval.RetrieveFromVideos: on an empty corpus the model finds no hit and returns null. The code's result there depends on what the embedding library returns for an empty list, which `vectors.shape[1]` then reads.
- Retrieval.RetrieveFromPdfs: on an empty corpus the model finds no hit and returns null, with the same dependence on the embedding library as for the videos.
- RagSystems.RAGSystem.Answer: on an empty index it returns no hit. FAISS instead pads its result with a sentinel pair (a score of about minus the largest float and row -1), which the strict threshold gate then rejects, so the retrievers' results are the same.
- The check `best_score is not None` is always true for a search result. The model has no such branch.
- Api.Ask: the thresholds are taken as already-parsed optional numbers. A value that `float()` cannot parse is not modelled.
- Not modelled: FastAPI and pydantic request handling, `startup`, the data loaders, `logging`, `dotenv`, and `main.py`.
- VideoChunking.ChunkTextWords: the round trip through `split()` is stated only for words that are non-empty and free of whitespace. `' '.join` accepts any word, and an empty word or one holding whitespace does not split back into itself.
- Whitespace is Python's `str.isspace` restricted to ASCII. `split()` and `strip()` on non-ASCII whitespace (such as U+00A0 or U+2028) are not modelled.
- `if video_answer:` on an object is modelled as a null test, since the answer classes define no truthiness of their own.
