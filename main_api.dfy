/** The upload and listing endpoints of backend/main.py. HTTP serving,
    reading the request body and writing the file are not modelled; the
    retrieval pipeline's `add_document_to_store` is the parameter
    `addToStore`, which returns the chunk count or None when it raises. */
module UploadApi {
  import opened Wrappers
  import opened Text
  import opened DocumentParser
  import opened VectorStore

  const UploadDir: string := "data/uploads"

  /** What `upload_file` ends in. */
  datatype Upload =
    | ParseRaised(error: ParseError)  // `parse_file` raised: nothing saved, the server answers 500
    | NoText                          // 400 "No text extracted from file.": nothing saved or indexed
    | Stored(docId: string, path: string, chunks: Option<int>)
      // the raw bytes were written to `path`; `chunks` is the count returned
      // with {"status": "ok"}, or None when indexing raised (500)

  /** `upload_file`. `docId` is the form field (None when absent) and
      `freshId` the `uuid4()` used in its place. */
  function UploadFile(filename: string, x: Extractors, docId: Option<string>, freshId: string,
                      addToStore: (string, string) -> Option<int>): (r: Upload)
    ensures r.ParseRaised? <==> ParseFile(filename, x).Failure?
    ensures r == NoText <==> ParseFile(filename, x).Success? && IsBlank(ParseFile(filename, x).value)
    ensures r.Stored? ==> r.docId == (if docId.Some? then docId.value else freshId)
    ensures r.Stored? ==> r.path == PathJoin(UploadDir, r.docId + "_" + filename)
    ensures r.Stored? ==> !IsBlank(ParseFile(filename, x).value)
                          && r.chunks == addToStore(r.docId, ParseFile(filename, x).value)
  {
    match ParseFile(filename, x)
    case Failure(e) => ParseRaised(e)
    case Success(text) =>
      StripEmptyIffBlank(text);
      if Strip(text) == "" then NoText
      else
        var id := if docId.None? then freshId else docId.value;
        var path := PathJoin(UploadDir, id + "_" + filename);
        Stored(id, path, addToStore(id, text))
  }

  /** Number of metadata entries whose `doc_id` is `d`. */
  function Occurrences(meta: seq<ChunkMeta>, d: string): nat {
    if meta == [] then 0
    else Occurrences(meta[..|meta| - 1], d) + (if meta[|meta| - 1].docId == d then 1 else 0)
  }

  function DocIds(meta: seq<ChunkMeta>): set<string> {
    set m | m in meta :: m.docId
  }

  /** `list_docs`: counts the metadata entries of each `doc_id`. */
  method ListDocs(metadata: seq<ChunkMeta>) returns (docs: map<string, nat>)
    ensures docs.Keys == DocIds(metadata)
    ensures forall d :: d in docs ==> docs[d] == Occurrences(metadata, d) && docs[d] > 0
  {
    docs := map[];
    var i := 0;
    while i < |metadata|
      invariant 0 <= i <= |metadata|
      invariant docs.Keys == DocIds(metadata[..i])
      invariant forall d :: d in docs ==> docs[d] == Occurrences(metadata[..i], d) && docs[d] > 0
    {
      var m := metadata[i];
      assert metadata[..i + 1] == metadata[..i] + [m];
      assert metadata[..i + 1][..i] == metadata[..i];
      if m.docId !in docs {
        OccurrencesAbsent(metadata[..i], m.docId);
        docs := docs[m.docId := 0];
      }
      docs := docs[m.docId := docs[m.docId] + 1];
      i := i + 1;
    }
    assert metadata[..|metadata|] == metadata;
  }

  /** The sum, over `keys`, of the number of entries carrying each key. */
  ghost function SumCounts(keys: set<string>, meta: seq<ChunkMeta>): nat
    decreases |keys|
  {
    if keys == {} then 0
    else
      var k :| k in keys;
      Occurrences(meta, k) + SumCounts(keys - {k}, meta)
  }

  lemma {:induction false} SumCountsRemove(keys: set<string>, meta: seq<ChunkMeta>, k: string)
    requires k in keys
    ensures SumCounts(keys, meta) == Occurrences(meta, k) + SumCounts(keys - {k}, meta)
    decreases |keys|
  {
    var x :| x in keys && SumCounts(keys, meta) == Occurrences(meta, x) + SumCounts(keys - {x}, meta);
    if x != k {
      SumCountsRemove(keys - {x}, meta, k);
      SumCountsRemove(keys - {k}, meta, x);
      assert keys - {x} - {k} == keys - {k} - {x};
    }
  }

  /** Adding an entry changes no count outside its own `doc_id`. */
  lemma {:induction false} SumCountsUnaffected(keys: set<string>, meta: seq<ChunkMeta>, m: ChunkMeta)
    requires m.docId !in keys
    ensures SumCounts(keys, meta + [m]) == SumCounts(keys, meta)
    decreases |keys|
  {
    if keys != {} {
      var x :| x in keys;
      SumCountsRemove(keys, meta + [m], x);
      SumCountsRemove(keys, meta, x);
      assert (meta + [m])[..|meta + [m]| - 1] == meta;
      SumCountsUnaffected(keys - {x}, meta, m);
    }
  }

  lemma OccurrencesAbsent(meta: seq<ChunkMeta>, d: string)
    requires d !in DocIds(meta)
    ensures Occurrences(meta, d) == 0
  {
    if meta != [] {
      assert meta[|meta| - 1] in meta;
      assert DocIds(meta[..|meta| - 1]) <= DocIds(meta) by {
        forall m | m in meta[..|meta| - 1] ensures m in meta { }
      }
      OccurrencesAbsent(meta[..|meta| - 1], d);
    }
  }

  /** The counts of `list_docs` add up to the number of metadata entries:
      every entry is counted once, under its own `doc_id`. */
  lemma {:induction false} CountsSumToLength(meta: seq<ChunkMeta>)
    ensures SumCounts(DocIds(meta), meta) == |meta|
  {
    if meta != [] {
      var init := meta[..|meta| - 1];
      var m := meta[|meta| - 1];
      var d := m.docId;
      assert meta == init + [m];
      CountsSumToLength(init);
      assert DocIds(meta) == DocIds(init) + {d};
      var rest := DocIds(init) - {d};
      assert DocIds(meta) - {d} == rest;
      SumCountsRemove(DocIds(meta), meta, d);
      SumCountsUnaffected(rest, init, m);
      if d in DocIds(init) {
        SumCountsRemove(DocIds(init), init, d);
      } else {
        OccurrencesAbsent(init, d);
        assert rest == DocIds(init);
      }
    }
  }
}
