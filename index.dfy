/** `index_data` (index.py): a destructive rebuild of the vector collection.
    The Qdrant client is modelled as an object holding the named collections; its
    search side is not part of this model. Reading the embedded-chunks file is
    outside the model (the chunks arrive as a value). */
module Index {
  import opened Chunks
  import opened Batching

  const COLLECTION_NAME: string := "invoices"
  const DIM: nat := 384
  const UPSERT_BATCH_SIZE: nat := 100

  datatype Distance = Cosine | Euclid | Dot | Manhattan

  /** The payload copied from a chunk. */
  datatype Payload = Payload(text: string, source: string, page: nat, chunkId: string)

  datatype Point = Point(id: nat, vector: Vector, payload: Payload)

  /** A collection: its vector size, its metric and its points by id. */
  datatype Collection = Collection(size: nat, distance: Distance, points: map<nat, Point>)

  /** Upserting a batch: each point replaces whatever had its id, later ones last. */
  function UpsertAll(points: map<nat, Point>, batch: seq<Point>): map<nat, Point>
    decreases |batch|
  {
    if batch == [] then points
    else UpsertAll(points[batch[0].id := batch[0]], batch[1..])
  }

  /** After an upsert the ids present are the old ones and the batch's. */
  lemma {:induction false} UpsertAllKeys(points: map<nat, Point>, batch: seq<Point>)
    ensures UpsertAll(points, batch).Keys == points.Keys + (set p | p in batch :: p.id)
    decreases |batch|
  {
    if batch != [] {
      var rest := batch[1..];
      UpsertAllKeys(points[batch[0].id := batch[0]], rest);
      assert batch == [batch[0]] + rest;
      assert (set p | p in batch :: p.id) == {batch[0].id} + (set p | p in rest :: p.id);
    }
  }

  /** The client side of the vector store: the collections it holds by name. */
  class VectorStore {
    var collections: map<string, Collection>
    /** The batch of every upsert call so far, in call order. */
    ghost var upserts: seq<seq<Point>>

    constructor (existing: map<string, Collection>)
      ensures collections == existing && upserts == []
    {
      collections := existing;
      upserts := [];
    }

    /** `get_collection`, which raises for a missing collection, as a test. */
    method HasCollection(name: string) returns (present: bool)
      ensures present <==> name in collections
    {
      present := name in collections;
    }

    method DeleteCollection(name: string)
      modifies this
      ensures collections == old(collections) - {name}
      ensures upserts == old(upserts)
    {
      collections := collections - {name};
    }

    /** A new, empty collection; the name must be free. */
    method CreateCollection(name: string, size: nat, distance: Distance)
      requires name !in collections
      modifies this
      ensures collections == old(collections)[name := Collection(size, distance, map[])]
      ensures upserts == old(upserts)
    {
      collections := collections[name := Collection(size, distance, map[])];
    }

    method Upsert(name: string, batch: seq<Point>)
      requires name in collections
      modifies this
      ensures collections == old(collections)[name := old(collections)[name].(points := UpsertAll(old(collections)[name].points, batch))]
      ensures upserts == old(upserts) + [batch]
    {
      var c := collections[name];
      collections := collections[name := c.(points := UpsertAll(c.points, batch))];
      upserts := upserts + [batch];
    }
  }

  /** The `PointStruct` built for the chunk at position `idx`. */
  function PointOf(idx: nat, chunk: Chunk): Point
    requires chunk.embedding.Some?
  {
    Point(idx, chunk.embedding.value,
          Payload(chunk.text, chunk.metadata.source, chunk.metadata.page, chunk.metadata.chunkId))
  }

  predicate AllEmbedded(chunks: seq<Chunk>) {
    forall i :: 0 <= i < |chunks| ==> chunks[i].embedding.Some?
  }

  function PointsOf(chunks: seq<Chunk>): seq<Point>
    requires AllEmbedded(chunks)
  {
    seq(|chunks|, i requires 0 <= i < |chunks| => PointOf(i, chunks[i]))
  }

  /** `points`, or the position of the first chunk without an `embedding` key
      (the `KeyError` that stops the function). */
  datatype PointsResult = Points(points: seq<Point>) | MissingEmbedding(position: nat)

  /** The point-construction loop: point `idx` has id `idx`, the chunk's embedding as
      vector and its text, source, page and chunk id as payload. */
  method BuildPoints(chunks: seq<Chunk>) returns (r: PointsResult)
    ensures r.Points? <==> AllEmbedded(chunks)
    ensures r.Points? ==> |r.points| == |chunks|
    ensures r.Points? ==> forall i :: 0 <= i < |chunks| ==>
              (r.points[i].id == i && chunks[i].embedding == Some(r.points[i].vector) &&
               r.points[i].payload == Payload(chunks[i].text, chunks[i].metadata.source,
                                              chunks[i].metadata.page, chunks[i].metadata.chunkId))
    ensures r.Points? ==> r.points == PointsOf(chunks)
    ensures r.MissingEmbedding? ==> r.position < |chunks|
    ensures r.MissingEmbedding? ==> (chunks[r.position].embedding.None? && AllEmbedded(chunks[..r.position]))
  {
    var points: seq<Point> := [];
    var idx := 0;
    while idx < |chunks|
      invariant 0 <= idx <= |chunks| && |points| == idx
      invariant AllEmbedded(chunks[..idx])
      invariant forall i :: 0 <= i < idx ==> chunks[i].embedding.Some? && points[i] == PointOf(i, chunks[i])
    {
      var chunk := chunks[idx];
      if chunk.embedding.None? {
        return MissingEmbedding(idx);
      }
      points := points + [PointOf(idx, chunk)];
      assert chunks[..idx + 1] == chunks[..idx] + [chunk];
      idx := idx + 1;
    }
    assert chunks[..idx] == chunks;
    assert points == PointsOf(chunks);
    r := Points(points);
  }

  /** The dense id map `{i: points[i]}`. */
  function DenseMap(points: seq<Point>): map<nat, Point> {
    map i: nat | i < |points| :: points[i]
  }

  /** The collection holds ids `0 .. N-1` and nothing else, so exactly `N` points. */
  lemma {:induction false} DenseMapSize(points: seq<Point>)
    ensures forall k: nat :: k in DenseMap(points) <==> k < |points|
    ensures |DenseMap(points)| == |points|
  {
    if points != [] {
      var init := points[..|points| - 1];
      DenseMapSize(init);
      assert DenseMap(points).Keys == DenseMap(init).Keys + {|points| - 1};
    }
  }

  predicate IdsArePositions(points: seq<Point>) {
    forall i :: 0 <= i < |points| ==> points[i].id == i
  }

  /** Upserting the slice `points[i:j]` onto the first `i` points gives the first `j`. */
  lemma {:induction false} UpsertSlice(points: seq<Point>, i: nat, j: nat)
    requires IdsArePositions(points) && i <= j <= |points|
    ensures UpsertAll(DenseMap(points[..i]), points[i..j]) == DenseMap(points[..j])
    decreases j - i
  {
    if i < j {
      assert DenseMap(points[..i])[points[i].id := points[i]] == DenseMap(points[..i + 1]);
      assert points[i..j][1..] == points[i + 1..j];
      UpsertSlice(points, i + 1, j);
    }
  }

  /** The collection after `index_data` on `chunks`, from the collections before:
      the named collection is replaced by one with dimension 384 and the cosine metric,
      holding point `i` under id `i` for every chunk, or left empty when a chunk has
      no embedding. Other collections are untouched. */
  function Rebuilt(before: map<string, Collection>, chunks: seq<Chunk>): map<string, Collection> {
    before[COLLECTION_NAME := Collection(DIM, Cosine,
      if AllEmbedded(chunks) then DenseMap(PointsOf(chunks)) else map[])]
  }

  /** Rebuilding twice leaves what rebuilding once leaves: nothing is duplicated. */
  lemma RebuildIdempotent(before: map<string, Collection>, chunks: seq<Chunk>)
    ensures Rebuilt(Rebuilt(before, chunks), chunks) == Rebuilt(before, chunks)
    ensures COLLECTION_NAME in Rebuilt(before, chunks)
    ensures AllEmbedded(chunks) ==> |Rebuilt(before, chunks)[COLLECTION_NAME].points| == |chunks|
  {
    if AllEmbedded(chunks) {
      DenseMapSize(PointsOf(chunks));
    }
  }

  /** The collections with the named one holding exactly `points`. */
  function Filled(before: map<string, Collection>, points: seq<Point>): map<string, Collection> {
    before[COLLECTION_NAME := Collection(DIM, Cosine, DenseMap(points))]
  }

  /** Filling the freshly emptied collection with the chunks' points is the rebuild. */
  lemma FilledIsRebuilt(before: map<string, Collection>, chunks: seq<Chunk>)
    requires AllEmbedded(chunks)
    ensures Filled(before[COLLECTION_NAME := Collection(DIM, Cosine, map[])], PointsOf(chunks))
              == Rebuilt(before, chunks)
  {
  }

  /** One iteration of the upsert loop adds the next batch to the stored points. */
  lemma UpsertStep(before: map<string, Collection>, points: seq<Point>, i: nat, end: nat)
    requires IdsArePositions(points) && i <= end <= |points|
    ensures var now := Filled(before, points[..i]);
      now[COLLECTION_NAME := now[COLLECTION_NAME].(points := UpsertAll(now[COLLECTION_NAME].points, points[i..end]))]
        == Filled(before, points[..end])
  {
    UpsertSlice(points, i, end);
  }

  /** One iteration of the upsert loop visits one more batch. */
  lemma BatchStep(points: seq<Point>, i: nat)
    requires WholeBatches(i, UPSERT_BATCH_SIZE) && i < |points|
    ensures |Batches(points[..i], UPSERT_BATCH_SIZE)| == i / UPSERT_BATCH_SIZE
    ensures |Batches(points[..Min(i + UPSERT_BATCH_SIZE, |points|)], UPSERT_BATCH_SIZE)|
              == |Batches(points[..i], UPSERT_BATCH_SIZE)| + 1
    ensures i + UPSERT_BATCH_SIZE < |points| ==> WholeBatches(i + UPSERT_BATCH_SIZE, UPSERT_BATCH_SIZE)
    ensures Batches(points[..Min(i + UPSERT_BATCH_SIZE, |points|)], UPSERT_BATCH_SIZE)
              == Batches(points[..i], UPSERT_BATCH_SIZE) + [points[i..Min(i + UPSERT_BATCH_SIZE, |points|)]]
  {
    WholeBatchesCount(points, i, UPSERT_BATCH_SIZE);
    BatchesExtend(points, i, UPSERT_BATCH_SIZE);
  }

  datatype Outcome = Indexed(count: nat) | Failed(missingEmbeddingAt: nat)

  /** The upsert loop: consecutive batches of 100 points into the freshly created
      collection. `progress` holds the (batch number, batch total) pair of each
      progress message. The store's trace records that the upsert calls sent exactly
      the consecutive batches, in order. */
  method UpsertInBatches(store: VectorStore, points: seq<Point>)
    returns (progress: seq<(nat, int)>)
    requires IdsArePositions(points)
    requires COLLECTION_NAME in store.collections
    requires store.collections[COLLECTION_NAME] == Collection(DIM, Cosine, map[])
    modifies store
    ensures store.collections == Filled(old(store.collections), points)
    ensures |progress| == |Batches(points, UPSERT_BATCH_SIZE)|
    ensures forall j :: 0 <= j < |progress| ==> progress[j] == (j + 1, |Batches(points, UPSERT_BATCH_SIZE)|)
    ensures store.upserts == old(store.upserts) + Batches(points, UPSERT_BATCH_SIZE)
  {
    progress := [];
    var n := |points|;
    var total := (n - 1) / UPSERT_BATCH_SIZE + 1;
    BatchCount(points, UPSERT_BATCH_SIZE);
    assert DenseMap(points[..0]) == map[];
    assert store.collections == Filled(old(store.collections), points[..0]);
    var i := 0;
    while i < n
      invariant 0 <= i <= n && (i < n ==> WholeBatches(i, UPSERT_BATCH_SIZE))
      invariant store.collections == Filled(old(store.collections), points[..i])
      invariant store.upserts == old(store.upserts) + Batches(points[..i], UPSERT_BATCH_SIZE)
      invariant |progress| == |Batches(points[..i], UPSERT_BATCH_SIZE)|
      invariant forall j :: 0 <= j < |progress| ==> progress[j] == (j + 1, total)
    {
      var end := Min(i + UPSERT_BATCH_SIZE, n);
      UpsertStep(old(store.collections), points, i, end);
      BatchStep(points, i);
      store.Upsert(COLLECTION_NAME, points[i..end]);
      progress := progress + [(i / UPSERT_BATCH_SIZE + 1, total)];
      i := end;
    }
    assert points[..n] == points;
  }

  /** `index_data`: drop the collection if it exists, create it empty with dimension
      384 and the cosine metric, build the points, and upsert them in batches. */
  method IndexData(store: VectorStore, chunks: seq<Chunk>)
    returns (outcome: Outcome, progress: seq<(nat, int)>)
    modifies store
    ensures store.collections == Rebuilt(old(store.collections), chunks)
    ensures outcome.Indexed? <==> AllEmbedded(chunks)
    ensures outcome.Indexed? ==> outcome.count == |chunks|
    ensures outcome.Indexed? ==> store.upserts == old(store.upserts) + Batches(PointsOf(chunks), UPSERT_BATCH_SIZE)
    ensures outcome.Failed? ==> store.upserts == old(store.upserts)
    ensures outcome.Indexed? ==> |progress| == |Batches(PointsOf(chunks), UPSERT_BATCH_SIZE)|
    ensures outcome.Indexed? ==> forall j :: 0 <= j < |progress| ==>
              progress[j] == (j + 1, |Batches(PointsOf(chunks), UPSERT_BATCH_SIZE)|)
    ensures outcome.Failed? ==> outcome.missingEmbeddingAt < |chunks|
    ensures outcome.Failed? ==> (chunks[outcome.missingEmbeddingAt].embedding.None? &&
                                 AllEmbedded(chunks[..outcome.missingEmbeddingAt]))
  {
    progress := [];
    var present := store.HasCollection(COLLECTION_NAME);
    if present {
      store.DeleteCollection(COLLECTION_NAME);
    }
    store.CreateCollection(COLLECTION_NAME, DIM, Cosine);
    var built := BuildPoints(chunks);
    if built.MissingEmbedding? {
      outcome := Failed(built.position);
      return;
    }
    var points := built.points;
    progress := UpsertInBatches(store, points);
    FilledIsRebuilt(old(store.collections), chunks);
    outcome := Indexed(|points|);
  }

  /** Running `index_data` twice on the same chunks leaves the same collections as
      running it once. */
  method RebuildTwice(store: VectorStore, chunks: seq<Chunk>)
    modifies store
    ensures store.collections == Rebuilt(old(store.collections), chunks)
  {
    var _, _ := IndexData(store, chunks);
    var _, _ := IndexData(store, chunks);
    RebuildIdempotent(old(store.collections), chunks);
  }
}
