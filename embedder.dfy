/**
 * The sentence embedder, as the rest of the pipeline sees it: one function
 * that turns a document text into a vector and one that turns a query into
 * a vector. The model behind them is not part of this model.
 */
module Embedders {
  datatype Embedder = Embedder(embedText: string -> seq<real>, embedQuery: string -> seq<real>)

  /** `embed_texts`: one vector per text, in the order of the texts. */
  function EmbedTexts(embedder: Embedder, texts: seq<string>): (vectors: seq<seq<real>>)
    ensures |vectors| == |texts|
    ensures forall k :: 0 <= k < |texts| ==> vectors[k] == embedder.embedText(texts[k])
  {
    seq(|texts|, k requires 0 <= k < |texts| => embedder.embedText(texts[k]))
  }
}
