/** The retrieval step: embed the question and take the index's top hit. */
module RagSystems {
  import opened Wrappers
  import opened Embedders
  import opened VectorIndexing

  class RAGSystem<C> {
    const chunks: seq<C>
    const embedder: Embedder
    const index: VectorIndex

    constructor(chunks: seq<C>, embedder: Embedder, index: VectorIndex)
      ensures this.chunks == chunks && this.embedder == embedder && this.index == index
    {
      this.chunks := chunks;
      this.embedder := embedder;
      this.index := index;
    }

    /** Row `k` of the index holds the embedding of chunk `k`: one row per chunk. */
    predicate Aligned()
      reads this, index
    {
      |index.rows| == |chunks|
    }

    /**
     * `answer`: the question is embedded once and the index searched; the
     * result is the top-ranked row and its score, which is at least the score
     * of every row. An empty index has no hit. Nothing is modified.
     */
    method Answer(question: string) returns (best: Option<Hit>)
      ensures best == index.Search(embedder.embedQuery(question))
      ensures best.None? <==> index.rows == []
      ensures best.Some? ==>
        var q := embedder.embedQuery(question);
        best.value.row < |index.rows| &&
        best.value.score == Dot(q, index.rows[best.value.row]) &&
        forall j :: 0 <= j < |index.rows| ==> Dot(q, index.rows[j]) <= best.value.score
      ensures best.Some? && Aligned() ==> best.value.row < |chunks|
    {
      var queryVector := embedder.embedQuery(question);
      best := index.Search(queryVector);
      ghost var scores := RowScores(queryVector, index.rows);
      assert forall j :: 0 <= j < |index.rows| ==> scores[j] == Dot(queryVector, index.rows[j]);
    }
  }
}
