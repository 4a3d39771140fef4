/** Embedding vectors as the crawler, the summarizer and the semantic index see them. */
module Embeddings {
  import opened Wrappers

  /** The embedding width of the Gemini embedding model (`embedding_dim`, `EXPECTED_EMBEDDING_DIM`). */
  const Dim: nat := 768

  /**
   * One element of an embedding list. `Num` is any value Python's `float()` accepts,
   * `NonNumeric` one it rejects with an exception.
   */
  datatype Component = Num(value: real) | NonNumeric

  /** An embedding as it travels in a node dictionary: a Python list of components. */
  type Embedding = seq<Component>

  /** The shape gate `embedding and isinstance(embedding, list) and len(embedding) == 768`. */
  predicate HasDim(e: Embedding) {
    |e| > 0 && |e| == Dim
  }

  /** `[float(x) for x in e]`: None when some element makes `float()` raise. */
  function ToFloats(e: Embedding): (r: Option<seq<real>>)
    ensures r.Some? <==> forall i :: 0 <= i < |e| ==> e[i].Num?
    ensures r.Some? ==> |r.value| == |e| && forall i :: 0 <= i < |e| ==> r.value[i] == e[i].value
  {
    if e == [] then Some([])
    else if e[0].NonNumeric? then None
    else match ToFloats(e[1..])
      case None => None
      case Some(rest) => Some([e[0].value] + rest)
  }
}
