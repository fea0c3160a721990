/** `SanskritVectorStore`: embeds the chunks (or reads their embeddings from a
    cache file), holds them in a flat L2 index, and turns the index's
    nearest-neighbour rows into retrieval records. The embedding model and the
    index search are supplied from outside as functions. */
module VectorStore {
  import opened Results
  import opened DocumentLoader
  import opened Paths

  const EMBEDDING_MODEL: string := "sentence-transformers/paraphrase-multilingual-MiniLM-L12-v2"

  /** The MiniLM embedding dimension the index is created with. */
  const DIMENSION: nat := 384

  /** `str(e)` of the ValueError `search` raises before `build_index`. */
  const NOT_BUILT: string := "Index not built. Call build_index() first."

  /** `str(e)` of the IndexError of `self.chunks[idx]` out of range. */
  const INDEX_OUT_OF_RANGE: string := "list index out of range"

  /** `str(e)` of the bare assertion with which FAISS's `add` rejects vectors
      whose width is not the index's dimension. */
  const WRONG_WIDTH: string := ""

  /** The start of `str(e)` of the ValueError with which NumPy refuses to
      turn vectors of different lengths into one float32 matrix. */
  const RAGGED: string := "setting an array element with a sequence."

  /** `str(e)` of the ZeroDivisionError of `1 / (1 + float(dist))` at distance -1. */
  const DIVISION_BY_ZERO: string := "float division by zero"

  type Vector = seq<real>

  /** A loaded `SentenceTransformer`, known by the name it was loaded from. */
  datatype Embedder = Embedder(name: string)

  /** A `faiss.IndexFlatL2`: its dimension and the vectors added to it, in order. */
  datatype FlatIndex = FlatIndex(dimension: nat, vectors: seq<Vector>)

  /** One `(idx, dist)` pair of the row the index returns. The index pads the
      row with `idx == -1` when it holds fewer than `k` vectors. */
  datatype Hit = Hit(idx: int, distance: real)

  /** One search result: the chunk's content, its metadata (the document's
      fields and the chunk's id, as the chunk carries them), the distance,
      and the similarity score. */
  datatype Retrieved = Retrieved(content: string, metadata: Metadata, chunkId: nat,
                                 distance: real, similarityScore: real)

  // ---------------------------------------------------------------------------
  // Scores

  /** `1 / (1 + float(dist))`, which raises at distance -1. */
  function Similarity(distance: real): (s: Result<real>)
    ensures s.Ok? <==> distance != -1.0
    ensures s.Ok? ==> s.value * (1.0 + distance) == 1.0
  {
    if 1.0 + distance == 0.0 then Err(DIVISION_BY_ZERO) else Ok(1.0 / (1.0 + distance))
  }

  /** A non-negative distance has a score in (0, 1], and 1 only at distance 0. */
  lemma SimilarityRange(distance: real)
    requires distance >= 0.0
    ensures Similarity(distance).Ok?
    ensures 0.0 < Similarity(distance).value <= 1.0
    ensures Similarity(distance).value == 1.0 <==> distance == 0.0
  {
    var s := 1.0 / (1.0 + distance);
    assert s + s * distance == 1.0;
    if distance > 0.0 {
      assert s * distance > 0.0;
    }
  }

  /** Among non-negative distances, the score strictly decreases as the
      distance grows, so ranking by score is ranking by distance reversed. */
  lemma SimilarityOrder(d1: real, d2: real)
    requires 0.0 <= d1 && 0.0 <= d2
    ensures Similarity(d1).Ok? && Similarity(d2).Ok?
    ensures d1 < d2 <==> Similarity(d1).value > Similarity(d2).value
  {
    var s1, s2 := 1.0 / (1.0 + d1), 1.0 / (1.0 + d2);
    assert s1 * (1.0 + d1) == 1.0 && s2 * (1.0 + d2) == 1.0;
    assert s1 * s2 * (1.0 + d2) == s1;
    assert s1 * s2 * (1.0 + d1) == s2;
    assert s1 - s2 == (s1 * s2) * (d2 - d1);
    assert s1 * s2 > 0.0;
    if d1 < d2 {
      assert (s1 * s2) * (d2 - d1) > 0.0;
    } else {
      assert (s1 * s2) * (d1 - d2) >= 0.0;
    }
  }

  // ---------------------------------------------------------------------------
  // Result assembly

  /** `self.chunks[idx]` with Python's negative indexing; `None` is IndexError. */
  function ChunkAt(chunks: seq<Chunk>, idx: int): Option<Chunk> {
    if 0 <= idx < |chunks| then Some(chunks[idx])
    else if -|chunks| <= idx < 0 then Some(chunks[|chunks| + idx])
    else None
  }

  /** The record for one admitted pair. */
  function Record(chunks: seq<Chunk>, h: Hit): Result<Retrieved> {
    match ChunkAt(chunks, h.idx)
    case None => Err(INDEX_OUT_OF_RANGE)
    case Some(c) =>
      match Similarity(h.distance)
      case Err(e) => Err(e)
      case Ok(score) => Ok(Retrieved(c.content, c.metadata, c.chunkId, h.distance, score))
  }

  /** The pairs `search` turns into records: those with `idx < len(self.chunks)`. */
  function Admitted(chunks: seq<Chunk>, hits: seq<Hit>): seq<Hit> {
    if hits == [] then []
    else
      var h := hits[|hits| - 1];
      Admitted(chunks, hits[..|hits| - 1]) + (if h.idx < |chunks| then [h] else [])
  }

  /** The loop of `search` over the row: one record per admitted pair, in row
      order; the first pair that raises makes the whole search raise. */
  function Assemble(chunks: seq<Chunk>, hits: seq<Hit>): Result<seq<Retrieved>> {
    if hits == [] then Ok([])
    else
      match Assemble(chunks, hits[..|hits| - 1])
      case Err(e) => Err(e)
      case Ok(rs) =>
        var h := hits[|hits| - 1];
        if h.idx < |chunks| then
          match Record(chunks, h)
          case Err(e) => Err(e)
          case Ok(r) => Ok(rs + [r])
        else Ok(rs)
  }

  lemma {:induction false} AdmittedBound(chunks: seq<Chunk>, hits: seq<Hit>)
    ensures |Admitted(chunks, hits)| <= |hits|
    ensures forall h :: h in Admitted(chunks, hits) ==> h in hits && h.idx < |chunks|
  {
    if hits != [] {
      AdmittedBound(chunks, hits[..|hits| - 1]);
    }
  }

  /** Once a pair raises, the rest of the row is not looked at. */
  lemma {:induction false} AssembleErrStops(chunks: seq<Chunk>, hits: seq<Hit>, i: nat)
    requires i <= |hits| && Assemble(chunks, hits[..i]).Err?
    ensures Assemble(chunks, hits) == Assemble(chunks, hits[..i])
  {
    if i < |hits| {
      var init := hits[..|hits| - 1];
      assert init[..i] == hits[..i];
      AssembleErrStops(chunks, init, i);
    } else {
      assert hits[..i] == hits;
    }
  }

  /** `search` succeeds exactly when every admitted pair gives a record, and
      then it returns those records in row order, one per admitted pair. */
  lemma {:induction false} AssembleSpec(chunks: seq<Chunk>, hits: seq<Hit>)
    ensures Assemble(chunks, hits).Ok? <==> (forall h :: h in Admitted(chunks, hits) ==> Record(chunks, h).Ok?)
    ensures var adm := Admitted(chunks, hits);
      Assemble(chunks, hits).Ok? ==>
        |Assemble(chunks, hits).value| == |adm|
        && forall j :: 0 <= j < |adm| ==> Record(chunks, adm[j]) == Ok(Assemble(chunks, hits).value[j])
  {
    if hits != [] {
      var init, h := hits[..|hits| - 1], hits[|hits| - 1];
      AssembleSpec(chunks, init);
      var adm0 := Admitted(chunks, init);
      var adm := Admitted(chunks, hits);
      if h.idx < |chunks| {
        assert adm == adm0 + [h];
        assert forall j :: 0 <= j < |adm0| ==> adm[j] == adm0[j];
        if Assemble(chunks, init).Err? {
          var g :| g in adm0 && !Record(chunks, g).Ok?;
          assert g in adm;
        } else {
          assert adm[|adm0|] == h;
        }
      } else {
        assert adm == adm0;
        assert Assemble(chunks, hits) == Assemble(chunks, init);
      }
    }
  }

  /** At most one record per pair of the row, however many chunks there
      are (SearchedBound turns this into a bound by `k`). */
  lemma AssembleBound(chunks: seq<Chunk>, hits: seq<Hit>)
    requires Assemble(chunks, hits).Ok?
    ensures |Assemble(chunks, hits).value| <= |hits|
  {
    AssembleSpec(chunks, hits);
    AdmittedBound(chunks, hits);
  }

  /** Each record carries its chunk's content and metadata, the pair's
      distance, and the score `1 / (1 + distance)`. */
  lemma RecordSpec(chunks: seq<Chunk>, h: Hit)
    requires 0 <= h.idx < |chunks| && h.distance >= 0.0
    ensures Record(chunks, h).Ok?
    ensures var r := Record(chunks, h).value;
      r.content == chunks[h.idx].content && r.metadata == chunks[h.idx].metadata
      && r.chunkId == chunks[h.idx].chunkId
      && r.distance == h.distance && r.similarityScore * (1.0 + h.distance) == 1.0
      && 0.0 < r.similarityScore <= 1.0
  {
    SimilarityRange(h.distance);
  }

  /** The padding index -1 passes the `idx < len(self.chunks)` filter and
      selects the last chunk; with no chunk at all it raises IndexError. */
  lemma PaddingSelectsLast(chunks: seq<Chunk>, d: real)
    requires d >= 0.0
    ensures chunks != [] ==>
      Record(chunks, Hit(-1, d)).Ok?
      && Record(chunks, Hit(-1, d)).value.content == chunks[|chunks| - 1].content
    ensures chunks == [] ==> Assemble(chunks, [Hit(-1, d)]) == Err(INDEX_OUT_OF_RANGE)
  {
    SimilarityRange(d);
    assert [Hit(-1, d)][..0] == [];
  }

  /** A row whose pairs are all genuine positions of the chunk list, with
      non-negative distances, gives one record per pair with a score in (0, 1]. */
  lemma GenuineRow(chunks: seq<Chunk>, hits: seq<Hit>)
    requires forall j :: 0 <= j < |hits| ==> 0 <= hits[j].idx < |chunks| && hits[j].distance >= 0.0
    ensures Assemble(chunks, hits).Ok? && |Assemble(chunks, hits).value| == |hits|
    ensures forall j :: 0 <= j < |hits| ==>
      Assemble(chunks, hits).value[j].content == chunks[hits[j].idx].content
      && 0.0 < Assemble(chunks, hits).value[j].similarityScore <= 1.0
  {
    AdmitsAll(chunks, hits);
    forall j | 0 <= j < |hits| ensures Record(chunks, hits[j]).Ok? {
      RecordSpec(chunks, hits[j]);
    }
    AssembleSpec(chunks, hits);
    forall j | 0 <= j < |hits|
      ensures Assemble(chunks, hits).value[j].content == chunks[hits[j].idx].content
      ensures 0.0 < Assemble(chunks, hits).value[j].similarityScore <= 1.0
    {
      RecordSpec(chunks, hits[j]);
    }
  }

  lemma {:induction false} AdmitsAll(chunks: seq<Chunk>, hits: seq<Hit>)
    requires forall j :: 0 <= j < |hits| ==> hits[j].idx < |chunks|
    ensures Admitted(chunks, hits) == hits
  {
    if hits != [] {
      AdmitsAll(chunks, hits[..|hits| - 1]);
    }
  }

  // ---------------------------------------------------------------------------
  // Building: the cache branch

  /** `cache_path` is truthy: given and not empty. */
  predicate UsesCache(cachePath: Option<string>) {
    cachePath.Some? && cachePath.value != ""
  }

  /** The embeddings `build_index` indexes and the cache files afterwards: read
      from an existing cache file, or computed by the model and, when a cache
      path is given, written to it. */
  function CachedEmbeddings(model: Embedder, texts: seq<string>, cachePath: Option<string>,
                            files: map<string, seq<Vector>>,
                            encode: (Embedder, seq<string>) -> seq<Vector>)
    : (c: Result<(seq<Vector>, map<string, seq<Vector>>)>)
    ensures c.Err? <==> UsesCache(cachePath) && cachePath.value !in files && !HasDirectory(cachePath.value)
    ensures c.Err? ==> c.error == NO_SUCH_DIRECTORY
    ensures c.Ok? ==> forall p :: p in files ==> p in c.value.1 && c.value.1[p] == files[p]
    ensures c.Ok? && UsesCache(cachePath) ==>
      c.value.1.Keys == files.Keys + {cachePath.value} && c.value.1[cachePath.value] == c.value.0
    ensures c.Ok? && !UsesCache(cachePath) ==> c.value.1 == files && c.value.0 == encode(model, texts)
    ensures c.Ok? && UsesCache(cachePath) && cachePath.value !in files ==> c.value.0 == encode(model, texts)
    ensures UsesCache(cachePath) && cachePath.value in files ==> c == Ok((files[cachePath.value], files))
  {
    if UsesCache(cachePath) && cachePath.value in files then Ok((files[cachePath.value], files))
    else
      var embeddings := encode(model, texts);
      if !UsesCache(cachePath) then Ok((embeddings, files))
      else if !HasDirectory(cachePath.value) then Err(NO_SUCH_DIRECTORY)
      else Ok((embeddings, files[cachePath.value := embeddings]))
  }

  /** All vectors have the same length, as `np.array(...).astype('float32')`
      demands of a list of vectors. */
  predicate Rectangular(embeddings: seq<Vector>) {
    forall i, j :: 0 <= i < |embeddings| && 0 <= j < |embeddings| ==> |embeddings[i]| == |embeddings[j]|
  }

  /** Every vector has the index's dimension, as `add` demands. */
  predicate Conforms(embeddings: seq<Vector>, dimension: nat) {
    forall v :: v in embeddings ==> |v| == dimension
  }

  /** What `build_index` returns, the cache files and the index it leaves.
      When the embeddings could not be had, the exception and everything as
      it was. Vectors of different lengths make the conversion to a matrix
      raise before the index is touched. Otherwise the index is replaced by a
      new empty one before `add`, so vectors of the wrong width raise and
      leave that empty index; vectors of the right width fill it. The cache
      written on the way stays in every case. */
  function Indexed(dimension: nat, oldIndex: Option<FlatIndex>, files: map<string, seq<Vector>>,
                   cached: Result<(seq<Vector>, map<string, seq<Vector>>)>)
    : (Result<()>, map<string, seq<Vector>>, Option<FlatIndex>)
  {
    match cached
    case Err(e) => (Err(e), files, oldIndex)
    case Ok((embeddings, files')) =>
      if !Rectangular(embeddings) then (Err(RAGGED), files', oldIndex)
      else if Conforms(embeddings, dimension) then (Ok(()), files', Some(FlatIndex(dimension, embeddings)))
      else (Err(WRONG_WIDTH), files', Some(FlatIndex(dimension, [])))
  }

  /** A build succeeds exactly when the embeddings could be had and all have
      the index's width; then the index holds exactly them. A build that got
      its embeddings keeps the cache it wrote whatever happens next. Ragged
      vectors raise and keep the old index; vectors of one length but the
      wrong width raise and leave a new empty index. */
  lemma IndexedSpec(dimension: nat, oldIndex: Option<FlatIndex>, files: map<string, seq<Vector>>,
                    cached: Result<(seq<Vector>, map<string, seq<Vector>>)>)
    ensures var (r, files', index) := Indexed(dimension, oldIndex, files, cached);
      && (r.Ok? <==> cached.Ok? && Conforms(cached.value.0, dimension))
      && (r.Ok? ==> index == Some(FlatIndex(dimension, cached.value.0)))
      && (cached.Ok? ==> files' == cached.value.1)
      && (cached.Ok? && !Rectangular(cached.value.0) ==> r == Err(RAGGED) && index == oldIndex)
      && (cached.Ok? && Rectangular(cached.value.0) ==> index.Some? && index.value.dimension == dimension)
      && (cached.Ok? && Rectangular(cached.value.0) && r.Err? ==>
            r.error == WRONG_WIDTH && index.value.vectors == [])
      && (cached.Err? ==> r == Err(cached.error) && files' == files && index == oldIndex)
  {
  }

  /** A build that wrote or read the cache leaves it so that the next build
      with the same path reads back exactly the same embeddings and writes
      nothing, whatever chunks it is given and whatever the model would
      compute: the cache is keyed by path only. */
  lemma CacheRoundTrip(model: Embedder, texts: seq<string>, path: string,
                       files: map<string, seq<Vector>>,
                       encode: (Embedder, seq<string>) -> seq<Vector>,
                       model': Embedder, texts': seq<string>,
                       encode': (Embedder, seq<string>) -> seq<Vector>)
    requires path != ""
    requires CachedEmbeddings(model, texts, Some(path), files, encode).Ok?
    ensures var (e, f) := CachedEmbeddings(model, texts, Some(path), files, encode).value;
      CachedEmbeddings(model', texts', Some(path), f, encode') == Ok((e, f))
  {
  }

  /** Without a cache path the model computes the embeddings and no file changes. */
  lemma NoCache(model: Embedder, texts: seq<string>, cachePath: Option<string>,
                files: map<string, seq<Vector>>,
                encode: (Embedder, seq<string>) -> seq<Vector>)
    requires !UsesCache(cachePath)
    ensures CachedEmbeddings(model, texts, cachePath, files, encode) == Ok((encode(model, texts), files))
  {
  }

  /** `d` is the record of one of the chunks: its content, metadata and id,
      scored `1 / (1 + distance)`. */
  predicate RecordOf(chunks: seq<Chunk>, d: Retrieved) {
    (exists c :: c in chunks && c.content == d.content && c.metadata == d.metadata && c.chunkId == d.chunkId)
    && d.similarityScore * (1.0 + d.distance) == 1.0
  }

  /** Every record `search` assembles is the record of one of the chunks. */
  lemma {:induction false} AssembleRecords(chunks: seq<Chunk>, hits: seq<Hit>)
    requires Assemble(chunks, hits).Ok?
    ensures forall d :: d in Assemble(chunks, hits).value ==> RecordOf(chunks, d)
  {
    if hits != [] {
      var h := hits[|hits| - 1];
      AssembleRecords(chunks, hits[..|hits| - 1]);
      if h.idx < |chunks| {
        var c := ChunkAt(chunks, h.idx).value;
        assert c in chunks;
        assert RecordOf(chunks, Record(chunks, h).value);
      }
    }
  }

  /** What `search` returns once an index exists: the index's own error, or
      the assembled row it gives for the embedded query, where every record
      is the record of one of the chunks. */
  function Searched(index: FlatIndex, chunks: seq<Chunk>, model: Embedder, query: string, k: int,
                    encode: (Embedder, seq<string>) -> seq<Vector>,
                    nearest: (FlatIndex, seq<Vector>, int) -> Result<seq<Hit>>): (r: Result<seq<Retrieved>>)
    ensures nearest(index, encode(model, [query]), k).Err? ==>
      r == Err(nearest(index, encode(model, [query]), k).error)
    ensures r.Ok? ==> forall d :: d in r.value ==> RecordOf(chunks, d)
  {
    match nearest(index, encode(model, [query]), k)
    case Err(e) => Err(e)
    case Ok(hits) =>
      if Assemble(chunks, hits).Ok? then AssembleRecords(chunks, hits); Assemble(chunks, hits)
      else Assemble(chunks, hits)
  }

  /** FAISS returns a row of exactly `k` pairs; given that, a search
      returns at most `k` records. */
  lemma SearchedBound(index: FlatIndex, chunks: seq<Chunk>, model: Embedder, query: string, k: int,
                      encode: (Embedder, seq<string>) -> seq<Vector>,
                      nearest: (FlatIndex, seq<Vector>, int) -> Result<seq<Hit>>)
    requires var row := nearest(index, encode(model, [query]), k); row.Ok? ==> |row.value| == k
    requires Searched(index, chunks, model, query, k, encode, nearest).Ok?
    ensures |Searched(index, chunks, model, query, k, encode, nearest).value| <= k
  {
    AssembleBound(chunks, nearest(index, encode(model, [query]), k).value);
  }

  /** The model `_load_model` leaves: the one already loaded, or a new one. */
  function LoadedModel(model: Option<Embedder>, modelName: string): (m: Embedder)
    ensures model.Some? ==> m == model.value
    ensures model.None? ==> m.name == modelName
  {
    if model.Some? then model.value else Embedder(modelName)
  }

  class SanskritVectorStore {
    const modelName: string
    const dimension: nat
    var model: Option<Embedder>
    var index: Option<FlatIndex>
    var chunks: seq<Chunk>

    constructor (modelName: string)
      ensures this.modelName == modelName && dimension == DIMENSION
      ensures model == None && index == None && chunks == []
    {
      this.modelName := modelName;
      dimension := DIMENSION;
      model := None;
      index := None;
      chunks := [];
    }

    /** `_load_model`: constructs the model only when none is loaded, so a
        second call changes nothing. */
    method LoadModel()
      modifies this`model
      ensures model == Some(LoadedModel(old(model), modelName))
      ensures old(model).Some? ==> model == old(model)
    {
      if model.None? {
        model := Some(Embedder(modelName));
      }
    }

    /** `build_index`: stores the chunks as given, then indexes the cached or
        computed embeddings. Nothing compares their number with the number of
        chunks. A cache write to a path without a directory raises after the
        chunks were stored, leaving the index as it was. Embeddings of
        different lengths raise in the conversion to a matrix, also leaving
        the index as it was; embeddings of one wrong width raise in `add`,
        after the index was replaced by an empty one. */
    method BuildIndex(newChunks: seq<Chunk>, cachePath: Option<string>,
                      files: map<string, seq<Vector>>,
                      encode: (Embedder, seq<string>) -> seq<Vector>)
      returns (r: Result<()>, cache: map<string, seq<Vector>>)
      modifies this`model, this`index, this`chunks
      ensures model == Some(LoadedModel(old(model), modelName))
      ensures chunks == newChunks
      ensures (r, cache, index) == Indexed(dimension, old(index), files,
                                           CachedEmbeddings(model.value, DocumentLoader.Contents(newChunks), cachePath, files, encode))
    {
      LoadModel();
      chunks := newChunks;
      var texts := DocumentLoader.Contents(newChunks);
      var embeddings: seq<Vector>;
      var files' := files;
      if UsesCache(cachePath) && cachePath.value in files {
        embeddings := files[cachePath.value];
      } else {
        embeddings := encode(model.value, texts);
        if UsesCache(cachePath) {
          if !HasDirectory(cachePath.value) {
            return Err(NO_SUCH_DIRECTORY), files;
          }
          files' := files[cachePath.value := embeddings];
        }
      }
      cache := files';
      if !Rectangular(embeddings) {
        return Err(RAGGED), cache;
      }
      index := Some(FlatIndex(dimension, []));
      if !Conforms(embeddings, dimension) {
        return Err(WRONG_WIDTH), cache;
      }
      index := Some(FlatIndex(dimension, embeddings));
      r := Ok(());
    }

    /** The loop of `search` over the index's row, for the current chunks. */
    method AssembleResults(hits: seq<Hit>) returns (r: Result<seq<Retrieved>>)
      ensures r == Assemble(chunks, hits)
    {
      var results: seq<Retrieved> := [];
      var i := 0;
      while i < |hits|
        invariant 0 <= i <= |hits|
        invariant Assemble(chunks, hits[..i]) == Ok(results)
      {
        assert hits[..i + 1][..i] == hits[..i];
        var h := hits[i];
        if h.idx < |chunks| {
          var chunk: Chunk;
          if 0 <= h.idx {
            chunk := chunks[h.idx];
          } else if -|chunks| <= h.idx {
            chunk := chunks[|chunks| + h.idx];
          } else {
            AssembleErrStops(chunks, hits, i + 1);
            return Err(INDEX_OUT_OF_RANGE);
          }
          if 1.0 + h.distance == 0.0 {
            AssembleErrStops(chunks, hits, i + 1);
            return Err(DIVISION_BY_ZERO);
          }
          results := results + [Retrieved(chunk.content, chunk.metadata, chunk.chunkId,
                                          h.distance, 1.0 / (1.0 + h.distance))];
        }
        i := i + 1;
      }
      assert hits[..i] == hits;
      r := Ok(results);
    }

    /** `search`: raises ValueError before any index is built; otherwise loads
        the model, embeds the query, asks the index for its row of `k` pairs,
        and assembles the results. */
    method Search(query: string, k: int,
                  encode: (Embedder, seq<string>) -> seq<Vector>,
                  nearest: (FlatIndex, seq<Vector>, int) -> Result<seq<Hit>>)
      returns (r: Result<seq<Retrieved>>)
      modifies this`model
      ensures index.None? ==> r == Err(NOT_BUILT) && model == old(model)
      ensures index.Some? ==> model == Some(LoadedModel(old(model), modelName))
      ensures index.Some? ==> r == Searched(index.value, chunks, model.value, query, k, encode, nearest)
    {
      if index.None? {
        return Err(NOT_BUILT);
      }
      LoadModel();
      var queryEmbedding := encode(model.value, [query]);
      var row := nearest(index.value, queryEmbedding, k);
      if row.Err? {
        return Err(row.error);
      }
      r := AssembleResults(row.value);
    }
  }
}
