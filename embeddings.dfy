/** The text store of backend/embeddings.py: the module-global `_texts`,
    replaced wholesale by `build_embeddings` and emptied by `clear_index`.
    The hashing vectorizer is stateless; it is the parameter `vectorize`. */
module Embeddings {
  import opened Wrappers

  /** `HashingVectorizer(n_features=1024)`: every row has this width. */
  const Features: nat := 1024

  type Row = v: seq<real> | |v| == Features witness seq(Features, _ => 0.0)

  datatype EmbeddingError = NoDocumentsIndexed

  class TextStore {
    var texts: seq<string>

    /** Module import: `_texts = []`. */
    constructor ()
      ensures texts == []
      ensures !IsFitted()
    {
      texts := [];
    }

    /** `is_fitted`: the store holds at least one text. */
    predicate IsFitted()
      reads this
      ensures IsFitted() <==> texts != []
    {
      |texts| > 0
    }

    /** `get_texts`: the list last stored. */
    function GetTexts(): (r: seq<string>)
      reads this
      ensures r == texts
    {
      texts
    }

    /** `build_embeddings`: the previous texts are discarded, not extended. */
    method BuildEmbeddings(ts: seq<string>)
      modifies this
      ensures texts == ts
      ensures GetTexts() == ts
      ensures IsFitted() <==> ts != []
    {
      texts := ts;
    }

    /** `clear_index`. */
    method ClearIndex()
      modifies this
      ensures texts == []
      ensures !IsFitted()
    {
      texts := [];
    }

    /** `get_embeddings`: raises `RuntimeError` while the store is empty,
        otherwise one row of width 1024 per input text, whatever the store
        holds. */
    method GetEmbeddings(ts: seq<string>, vectorize: string -> Row) returns (r: Result<seq<Row>, EmbeddingError>)
      ensures r.Failure? <==> !IsFitted()
      ensures r.Failure? ==> r.error == NoDocumentsIndexed
      ensures r.Success? ==> |r.value| == |ts|
      ensures r.Success? ==> forall i :: 0 <= i < |ts| ==> r.value[i] == vectorize(ts[i])
    {
      if texts == [] {
        return Failure(NoDocumentsIndexed);
      }
      r := Success(seq(|ts|, i requires 0 <= i < |ts| => vectorize(ts[i])));
    }
  }
}
