/**
 * The inner-product vector index: rows are appended in order, and a search
 * ranks every row by its inner product with the query. Only the top-ranked
 * row is modelled, since that is all the retriever reads.
 */
module VectorIndexing {
  import opened Wrappers

  /** The inner product of two vectors (over their common length). */
  function Dot(u: seq<real>, v: seq<real>): real
    decreases |u|
  {
    if |u| == 0 || |v| == 0 then 0.0 else u[0] * v[0] + Dot(u[1..], v[1..])
  }

  /** A search hit: the similarity score and the row it belongs to. */
  datatype Hit = Hit(score: real, row: nat)

  /**
   * The best-scoring position of `scores`: none for no scores, otherwise a
   * position whose score is at least every other score, and the first such
   * position when several tie.
   */
  function TopHit(scores: seq<real>): (h: Option<Hit>)
    ensures h.None? <==> scores == []
    ensures h.Some? ==> h.value.row < |scores| && h.value.score == scores[h.value.row]
    ensures h.Some? ==> forall j :: 0 <= j < |scores| ==> scores[j] <= h.value.score
    ensures h.Some? ==> forall j :: 0 <= j < h.value.row ==> scores[j] < h.value.score
  {
    if scores == [] then None
    else
      var prev := TopHit(scores[..|scores| - 1]);
      var last := scores[|scores| - 1];
      if prev.Some? && last <= prev.value.score then prev else Some(Hit(last, |scores| - 1))
  }

  /** The score of every row against the query, in row order. */
  function RowScores(query: seq<real>, rows: seq<seq<real>>): (scores: seq<real>)
    ensures |scores| == |rows|
  {
    seq(|rows|, k requires 0 <= k < |rows| => Dot(query, rows[k]))
  }

  /** A flat inner-product index whose rows are added in place. */
  class VectorIndex {
    const dim: int
    var rows: seq<seq<real>>

    constructor(dim: int)
      ensures this.dim == dim && rows == []
    {
      this.dim := dim;
      rows := [];
    }

    /** `add`: the vectors become the next rows, in order. */
    method Add(vectors: seq<seq<real>>)
      modifies this
      ensures rows == old(rows) + vectors
    {
      rows := rows + vectors;
    }

    /** `search`, first result only: the top-ranked row for `query`, if there is any row. */
    function Search(query: seq<real>): Option<Hit>
      reads this
    {
      TopHit(RowScores(query, rows))
    }
  }

  /** Two unit rows and a query equal to the first: the first row is found. */
  lemma UnitRowsSearch()
    ensures TopHit(RowScores([1.0, 0.0], [[1.0, 0.0], [0.0, 1.0]])) == Some(Hit(1.0, 0))
  {
    var scores := RowScores([1.0, 0.0], [[1.0, 0.0], [0.0, 1.0]]);
    assert scores[0] == 1.0;
    assert scores[1] == 0.0;
  }
}
