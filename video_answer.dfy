/** The answer taken from a video transcript. */
module VideoAnswers {
  import opened Wrappers
  import opened TranscriptChunks

  /**
   * A video answer: the fields copied from its transcript chunk, which are
   * never reassigned, and the refined answer, which starts out absent and is
   * later filled in by the refiner.
   */
  class VideoAnswer {
    const videoId: string
    const startTimestamp: Timestamp
    const startTokenId: int
    const endTimestamp: Timestamp
    const endTokenId: int
    const transcriptSnippet: string
    var refinedAnswer: Option<string>

    /** The copied fields are those of `chunk`, the snippet being its text. */
    predicate CopiedFrom(chunk: TranscriptChunk) {
      videoId == chunk.videoId &&
      startTimestamp == chunk.startTimestamp && startTokenId == chunk.startTokenId &&
      endTimestamp == chunk.endTimestamp && endTokenId == chunk.endTokenId &&
      transcriptSnippet == chunk.text
    }

    constructor(chunk: TranscriptChunk)
      ensures CopiedFrom(chunk)
      ensures refinedAnswer == None
    {
      videoId := chunk.videoId;
      startTimestamp := chunk.startTimestamp;
      startTokenId := chunk.startTokenId;
      endTimestamp := chunk.endTimestamp;
      endTokenId := chunk.endTokenId;
      transcriptSnippet := chunk.text;
      refinedAnswer := None;
    }
  }
}
