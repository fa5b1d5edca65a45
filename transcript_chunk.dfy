/**
 * A transcript chunk: a contiguous run of a video's tokens, the retrieval
 * unit for video search. The record is immutable; its constructor stores its
 * six arguments as given, with no validation or normalisation.
 */
module TranscriptChunks {

  /**
   * A token timestamp (seconds into the video). Timestamps are only copied
   * and printed, never computed with, so they are carried as the text Python
   * prints for them (`str(0.5) == "0.5"`).
   */
  datatype Timestamp = Timestamp(shown: string)

  datatype TranscriptChunk = TranscriptChunk(
    videoId: string,
    startTokenId: int,
    endTokenId: int,
    startTimestamp: Timestamp,
    endTimestamp: Timestamp,
    text: string)
}
