/** `SimpleVectorStore` (backend/vectorstore.py): a flat inner-product index
    (FAISS `IndexFlatIP`) and a metadata list meant to stay positionally
    aligned with it, both written to disk after every `add`. */
module VectorStore {
  import opened Wrappers
  import Ranking

  type Vector = seq<real>
  type NonNegReal = r: real | r >= 0.0

  /** One metadata entry, `{doc_id, chunk_id, text}`. */
  datatype ChunkMeta = ChunkMeta(docId: string, chunkId: int, text: string)

  /** A FAISS flat index: its dimension `d` and the stored rows. */
  datatype FlatIndex = FlatIndex(d: nat, rows: seq<Vector>)

  /** One `(I[0][j], D[0][j])` pair of a FAISS search. */
  datatype Hit = Hit(idx: int, score: real)

  /** The distance FAISS reports beside the label -1 of an unfilled slot
      (minus the largest float32). */
  const PadScore: real := -340282346638528859811704183484516925440.0

  /** The `1e-12` added to the query's norm before dividing. */
  const Epsilon: real := 0.000000000001

  function Dot(a: Vector, b: Vector): real {
    if a == [] || b == [] then 0.0 else a[0] * b[0] + Dot(a[1..], b[1..])
  }

  /** `norms[norms == 0] = 1.0`: the divisor of a row whose norm is `n`. */
  function Divisor(n: NonNegReal): (d: real)
    ensures d > 0.0
    ensures n == 0.0 ==> d == 1.0
    ensures n != 0.0 ==> d == n
  {
    if n == 0.0 then 1.0 else n
  }

  function Scale(v: Vector, d: real): (r: Vector)
    requires d != 0.0
    ensures |r| == |v|
    ensures forall i :: 0 <= i < |v| ==> r[i] * d == v[i]
  {
    seq(|v|, i requires 0 <= i < |v| => v[i] / d)
  }

  /** One row of `vecs / norms`; `norm` stands for `np.linalg.norm`. A row of
      norm zero is divided by 1, so it is stored as it was and nothing is
      divided by zero; the zero vector in particular stays the zero vector. */
  function NormalizeRow(v: Vector, norm: Vector -> NonNegReal): (r: Vector)
    ensures |r| == |v|
    ensures forall i :: 0 <= i < |v| ==> r[i] * Divisor(norm(v)) == v[i]
    ensures norm(v) == 0.0 ==> r == v
    ensures (forall i :: 0 <= i < |v| ==> v[i] == 0.0) ==> forall i :: 0 <= i < |r| ==> r[i] == 0.0
  {
    Scale(v, Divisor(norm(v)))
  }

  /** `vecs / norms` over every row: row `i` is row `i` of the input divided
      by its own divisor, so a row of norm zero is kept as it was. */
  function NormalizeRows(vs: seq<Vector>, norm: Vector -> NonNegReal): (r: seq<Vector>)
    ensures |r| == |vs|
    ensures forall i :: 0 <= i < |vs| ==> |r[i]| == |vs[i]|
    ensures forall i, j :: 0 <= i < |vs| && 0 <= j < |vs[i]| ==> r[i][j] * Divisor(norm(vs[i])) == vs[i][j]
    ensures forall i :: 0 <= i < |vs| && norm(vs[i]) == 0.0 ==> r[i] == vs[i]
  {
    seq(|vs|, i requires 0 <= i < |vs| => NormalizeRow(vs[i], norm))
  }

  /** `q / (norm(q) + 1e-12)`: the divisor is never zero. */
  function NormalizeQuery(q: Vector, norm: Vector -> NonNegReal): (r: Vector)
    ensures |r| == |q|
    ensures forall i :: 0 <= i < |q| ==> r[i] * (norm(q) + Epsilon) == q[i]
  {
    Scale(q, norm(q) + Epsilon)
  }

  /** The inner product of stored row `i` with the query. */
  function Score(rows: seq<Vector>, q: Vector, i: int): real {
    if 0 <= i < |rows| then Dot(rows[i], q) else 0.0
  }

  function ScoreKey(rows: seq<Vector>, q: Vector): int -> real {
    i => Score(rows, q, i)
  }

  function Positions(n: nat): (r: seq<int>)
    ensures |r| == n
    ensures forall i :: 0 <= i < n ==> r[i] == i
  {
    seq(n, i => i)
  }

  /** Every stored position, best inner product first, earlier rows first
      among equal scores. */
  function Ranked(ix: FlatIndex, q: Vector): seq<int> {
    Ranking.SortDesc(Positions(|ix.rows|), ScoreKey(ix.rows, q))
  }

  /** Exhaustive search of a flat index: `k` slots, filled with the best
      rows and padded with label -1 when the index holds fewer than `k`. */
  function FlatSearch(ix: FlatIndex, q: Vector, k: nat): (hits: seq<Hit>)
    ensures |hits| == k
  {
    var ranked := Ranked(ix, q);
    seq(k, j requires 0 <= j < k =>
      if j < |ranked| then Hit(ranked[j], Score(ix.rows, q, ranked[j])) else Hit(-1, PadScore))
  }

  /** The loop of `search`: hits whose label is not a position of `meta`
      are skipped, the others become `(meta[idx], score)` in order. */
  function KeepInRange(hits: seq<Hit>, meta: seq<ChunkMeta>): (r: seq<(ChunkMeta, real)>)
    ensures |r| <= |hits|
  {
    if hits == [] then []
    else
      var h := hits[|hits| - 1];
      KeepInRange(hits[..|hits| - 1], meta)
      + (if 0 <= h.idx < |meta| then [(meta[h.idx], h.score)] else [])
  }

  /** The conditions under which `index.add` accepts the rows: `np.array` of
      an empty list has no axis 1 for the norm, and FAISS rejects rows whose
      width is not the index dimension. */
  predicate AddAccepted(ix: FlatIndex, vectors: seq<Vector>) {
    |vectors| > 0 && forall i :: 0 <= i < |vectors| ==> |vectors[i]| == ix.d
  }

  class SimpleVectorStore {
    const dim: nat
    var index: FlatIndex
    var metadata: seq<ChunkMeta>
    /** The contents of `index_path` and `meta_path` (None: no such file). */
    ghost var indexFile: Option<FlatIndex>
    ghost var metaFile: Option<seq<ChunkMeta>>

    /** Entry `i` of the index belongs to entry `i` of the metadata. */
    predicate Aligned()
      reads this
    {
      |index.rows| == |metadata|
    }

    /** `__init__` and `_load`: each part is read from its file when the file
        exists; otherwise the index is a fresh flat index of dimension `dim`
        and the metadata is empty. */
    constructor (dim: nat, indexFile: Option<FlatIndex>, metaFile: Option<seq<ChunkMeta>>)
      ensures this.dim == dim
      ensures index == (if indexFile.Some? then indexFile.value else FlatIndex(dim, []))
      ensures metadata == metaFile.GetOr([])
      ensures this.indexFile == indexFile && this.metaFile == metaFile
      ensures indexFile.None? && metaFile.None? ==> index == FlatIndex(dim, []) && metadata == [] && Aligned()
    {
      this.dim := dim;
      if indexFile.Some? {
        index := indexFile.value;
      } else {
        index := FlatIndex(dim, []);
      }
      if metaFile.Some? {
        metadata := metaFile.value;
      } else {
        metadata := [];
      }
      this.indexFile := indexFile;
      this.metaFile := metaFile;
    }

    /** `add`: normalise the rows, append them to the index, extend the
        metadata, then `_save` both parts together. A rejected call raises
        before anything is changed. */
    method Add(vectors: seq<Vector>, metadatas: seq<ChunkMeta>, norm: Vector -> NonNegReal) returns (ok: bool)
      modifies this
      ensures ok <==> AddAccepted(old(index), vectors)
      ensures ok ==> index == FlatIndex(old(index.d), old(index.rows) + NormalizeRows(vectors, norm))
      ensures ok ==> metadata == old(metadata) + metadatas
      ensures ok ==> indexFile == Some(index) && metaFile == Some(metadata)
      ensures !ok ==> index == old(index) && metadata == old(metadata)
      ensures !ok ==> indexFile == old(indexFile) && metaFile == old(metaFile)
      ensures ok && old(Aligned()) && |vectors| == |metadatas| ==> Aligned()
    {
      if !AddAccepted(index, vectors) {
        return false;
      }
      var vecs := NormalizeRows(vectors, norm);
      index := FlatIndex(index.d, index.rows + vecs);
      metadata := metadata + metadatas;
      indexFile := Some(index);
      metaFile := Some(metadata);
      ok := true;
    }

    /** `search`: normalise the query, ask the index for `topK` hits and keep
        those whose label is a position of the metadata list. FAISS raises on
        a query of the wrong width and on `topK < 1`. */
    method Search(queryVec: Vector, topK: int, norm: Vector -> NonNegReal)
      returns (ok: bool, results: seq<(ChunkMeta, real)>)
      ensures ok <==> |queryVec| == index.d && topK > 0
      ensures ok ==> results == KeepInRange(FlatSearch(index, NormalizeQuery(queryVec, norm), topK), metadata)
      ensures !ok ==> results == []
      ensures |results| <= if topK > 0 then topK else 0
    {
      if |queryVec| != index.d || topK <= 0 {
        return false, [];
      }
      var q := NormalizeQuery(queryVec, norm);
      var hits := FlatSearch(index, q, topK);
      results := [];
      var i := 0;
      while i < |hits|
        invariant 0 <= i <= |hits|
        invariant results == KeepInRange(hits[..i], metadata)
      {
        var h := hits[i];
        assert hits[..i + 1][..i] == hits[..i];
        i := i + 1;
        if h.idx < 0 || h.idx >= |metadata| {
          continue;
        }
        results := results + [(metadata[h.idx], h.score)];
      }
      assert hits[..|hits|] == hits;
      ok := true;
    }
  }

  // ---------------------------------------------------------------------
  // Properties of the flat search and of the filtering loop
  // ---------------------------------------------------------------------

  /** `r` lists every position of `rows` exactly once, best score first. */
  ghost predicate IsRanking(r: seq<int>, rows: seq<Vector>, q: Vector) {
    && |r| == |rows|
    && (forall x :: x in r <==> 0 <= x < |rows|)
    && (forall i, j :: 0 <= i < j < |r| ==> r[i] != r[j])
    && (forall i, j :: 0 <= i < j < |r| ==> Score(rows, q, r[i]) >= Score(rows, q, r[j]))
  }

  lemma PositionsOnce(n: nat, x: int)
    ensures multiset(Positions(n))[x] <= 1
  {
    if n > 0 {
      assert Positions(n) == Positions(n - 1) + [n - 1];
      PositionsOnce(n - 1, x);
      if x == n - 1 {
        assert x !in Positions(n - 1);
      }
    }
  }

  lemma RepeatCountsTwice(s: seq<int>, i: nat, j: nat)
    requires i < j < |s| && s[i] == s[j]
    ensures multiset(s)[s[i]] >= 2
  {
    assert s == s[..j] + [s[j]] + s[j + 1..];
    assert s[..j][i] == s[i];
    assert s[i] in multiset(s[..j]);
  }

  /** The ranking lists every stored position exactly once, scores descending. */
  lemma RankedSpec(ix: FlatIndex, q: Vector)
    ensures IsRanking(Ranked(ix, q), ix.rows, q)
  {
    var n := |ix.rows|;
    var p := Positions(n);
    var r := Ranked(ix, q);
    Ranking.SortDescSpec(p, ScoreKey(ix.rows, q));
    assert multiset(r) == multiset(p);
    forall x ensures x in p <==> 0 <= x < n {
      if 0 <= x < n { assert p[x] == x; }
    }
    forall i, j | 0 <= i < j < |r| ensures r[i] != r[j] {
      if r[i] == r[j] {
        RepeatCountsTwice(r, i, j);
        PositionsOnce(n, r[i]);
        assert false;
      }
    }
  }

  /** The first `min(k, n)` slots hold the ranking in order, with
      non-increasing scores; the rest are padding with label -1. */
  lemma FlatSearchSlots(ix: FlatIndex, q: Vector, k: nat)
    ensures var hits := FlatSearch(ix, q, k); var r := Ranked(ix, q);
      && |r| == |ix.rows|
      && (forall j :: 0 <= j < k && j < |r| ==>
            0 <= r[j] < |ix.rows| && hits[j] == Hit(r[j], Score(ix.rows, q, r[j])))
      && (forall j :: 0 <= j < k && j >= |r| ==> hits[j].idx == -1)
      && (forall i, j :: 0 <= i < j < k && j < |r| ==> hits[i].score >= hits[j].score)
  {
    var r := Ranked(ix, q);
    RankedSpec(ix, q);
    forall j | 0 <= j < |r| ensures 0 <= r[j] < |ix.rows| {
      assert r[j] in r;
    }
  }

  /** Top-k: a stored row that is not among the returned labels scores no
      higher than any returned row, and returned scores never increase. */
  lemma {:induction false} FlatSearchIsTopK(ix: FlatIndex, q: Vector, k: nat)
    ensures var hits := FlatSearch(ix, q, k);
      && (forall j :: 0 <= j < k && j < |ix.rows| ==> 0 <= hits[j].idx < |ix.rows|)
      && (forall i, j :: 0 <= i < j < k && j < |ix.rows| ==> hits[i].score >= hits[j].score)
      && (forall x, j :: (0 <= x < |ix.rows| && 0 <= j < k && j < |ix.rows|
                          && (forall m :: 0 <= m < k ==> hits[m].idx != x))
                         ==> Score(ix.rows, q, x) <= hits[j].score)
  {
    var hits := FlatSearch(ix, q, k);
    var r := Ranked(ix, q);
    RankedSpec(ix, q);
    FlatSearchSlots(ix, q, k);
    forall j | 0 <= j < k && j < |ix.rows| ensures 0 <= hits[j].idx < |ix.rows| {
      assert r[j] in r;
    }
    forall x, j | 0 <= x < |ix.rows| && 0 <= j < k && j < |ix.rows|
      && (forall m :: 0 <= m < k ==> hits[m].idx != x)
      ensures Score(ix.rows, q, x) <= hits[j].score
    {
      assert x in r;
      var p :| 0 <= p < |r| && r[p] == x;
      assert j < p;
    }
  }

  lemma {:induction false} KeepInRangeAppend(a: seq<Hit>, b: seq<Hit>, meta: seq<ChunkMeta>)
    ensures KeepInRange(a + b, meta) == KeepInRange(a, meta) + KeepInRange(b, meta)
  {
    if b == [] {
      assert a + b == a;
    } else {
      assert (a + b)[..|a + b| - 1] == a + b[..|b| - 1];
      KeepInRangeAppend(a, b[..|b| - 1], meta);
    }
  }

  /** Every result comes from a hit whose label is a position of the
      metadata list: no result ever stands for a negative or too-large index. */
  lemma {:induction false} ResultsComeFromValidHits(hits: seq<Hit>, meta: seq<ChunkMeta>)
    ensures forall r :: r in KeepInRange(hits, meta) ==>
      exists j :: 0 <= j < |hits| && 0 <= hits[j].idx < |meta| && r == (meta[hits[j].idx], hits[j].score)
  {
    if hits != [] {
      var init := hits[..|hits| - 1];
      var last := hits[|hits| - 1];
      ResultsComeFromValidHits(init, meta);
      forall r | r in KeepInRange(hits, meta)
        ensures exists j :: 0 <= j < |hits| && 0 <= hits[j].idx < |meta| && r == (meta[hits[j].idx], hits[j].score)
      {
        if r in KeepInRange(init, meta) {
          var j :| 0 <= j < |init| && 0 <= init[j].idx < |meta| && r == (meta[init[j].idx], init[j].score);
          assert hits[j] == init[j];
        } else {
          assert 0 <= last.idx < |meta| && r == (meta[last.idx], last.score);
        }
      }
    }
  }

  /** When every label is in range nothing is dropped: result `j` is hit `j`. */
  lemma {:induction false} KeepInRangeAllValid(hits: seq<Hit>, meta: seq<ChunkMeta>)
    requires forall j :: 0 <= j < |hits| ==> 0 <= hits[j].idx < |meta|
    ensures |KeepInRange(hits, meta)| == |hits|
    ensures forall j :: 0 <= j < |hits| ==> KeepInRange(hits, meta)[j] == (meta[hits[j].idx], hits[j].score)
  {
    if hits != [] {
      var init := hits[..|hits| - 1];
      var last := hits[|hits| - 1];
      KeepInRangeAllValid(init, meta);
      assert KeepInRange(hits, meta) == KeepInRange(init, meta) + [(meta[last.idx], last.score)];
      forall j | 0 <= j < |hits| ensures KeepInRange(hits, meta)[j] == (meta[hits[j].idx], hits[j].score) {
        if j < |init| {
          assert hits[j] == init[j];
        }
      }
    }
  }

  /** Labels that are all out of range contribute nothing. */
  lemma {:induction false} KeepInRangeNoneValid(hits: seq<Hit>, meta: seq<ChunkMeta>)
    requires forall j :: 0 <= j < |hits| ==> hits[j].idx < 0
    ensures KeepInRange(hits, meta) == []
  {
    if hits != [] {
      KeepInRangeNoneValid(hits[..|hits| - 1], meta);
    }
  }

  /** Searching a store with no metadata returns no results. */
  lemma {:induction false} SearchEmptyStore(hits: seq<Hit>)
    ensures KeepInRange(hits, []) == []
  {
    if hits != [] {
      SearchEmptyStore(hits[..|hits| - 1]);
    }
  }

  /** Hits valid up to `m` and padding after it: exactly the first `m`
      survive the filter, in order. */
  lemma KeepInRangePrefix(hits: seq<Hit>, meta: seq<ChunkMeta>, m: nat)
    requires m <= |hits|
    requires forall j :: 0 <= j < m ==> 0 <= hits[j].idx < |meta|
    requires forall j :: m <= j < |hits| ==> hits[j].idx < 0
    ensures |KeepInRange(hits, meta)| == m
    ensures forall j :: 0 <= j < m ==> KeepInRange(hits, meta)[j] == (meta[hits[j].idx], hits[j].score)
  {
    var valid, pads := hits[..m], hits[m..];
    assert hits == valid + pads;
    forall j | 0 <= j < |valid| ensures 0 <= valid[j].idx < |meta| {
      assert valid[j] == hits[j];
    }
    forall j | 0 <= j < |pads| ensures pads[j].idx < 0 {
      assert pads[j] == hits[m + j];
    }
    KeepInRangeAppend(valid, pads, meta);
    KeepInRangeAllValid(valid, meta);
    KeepInRangeNoneValid(pads, meta);
    forall j | 0 <= j < m ensures KeepInRange(hits, meta)[j] == (meta[hits[j].idx], hits[j].score) {
      assert valid[j] == hits[j];
    }
  }

  /** On an aligned store, a search for `k` slots returns exactly
      `min(k, n)` results for `n` stored entries: the metadata of the best
      rows in ranking order, with non-increasing scores. */
  lemma SearchAligned(ix: FlatIndex, meta: seq<ChunkMeta>, q: Vector, k: nat)
    requires |ix.rows| == |meta|
    ensures var res := KeepInRange(FlatSearch(ix, q, k), meta); var r := Ranked(ix, q);
      && |r| == |meta|
      && |res| == (if k < |meta| then k else |meta|)
      && (forall j :: 0 <= j < |res| ==> 0 <= r[j] < |meta| && res[j].0 == meta[r[j]])
      && (forall i, j :: 0 <= i < j < |res| ==> res[i].1 >= res[j].1)
  {
    var hits := FlatSearch(ix, q, k);
    var m := if k < |meta| then k else |meta|;
    FlatSearchSlots(ix, q, k);
    KeepInRangePrefix(hits, meta, m);
  }
}
