/** `load_chunks` and `embed_data` (embed.py). The SentenceTransformer encoder is a
    function parameter taking a batch of texts to a list of vectors; reading and
    writing the JSON files is outside the model (the files arrive as values). */
module Embed {
  import opened Chunks
  import opened Batching

  const BATCH_SIZE: nat := 64

  /** One `*_chunks.json` file of the cleaned-chunks directory. */
  datatype ChunkFile = ChunkFile(name: string, chunks: seq<Chunk>)

  /** Python's `<=` on strings: lexicographic by code point, a prefix first. */
  predicate NameLe(a: string, b: string) {
    a == [] || (b != [] && (a[0] < b[0] || (a[0] == b[0] && NameLe(a[1..], b[1..]))))
  }

  lemma {:induction false} NameLeTotal(a: string, b: string)
    ensures NameLe(a, b) || NameLe(b, a)
  {
    if a != [] && b != [] && a[0] == b[0] {
      NameLeTotal(a[1..], b[1..]);
    }
  }

  lemma {:induction false} NameLeTransitive(a: string, b: string, c: string)
    requires NameLe(a, b) && NameLe(b, c)
    ensures NameLe(a, c)
  {
    if a != [] && b != [] && c != [] && a[0] == b[0] == c[0] {
      NameLeTransitive(a[1..], b[1..], c[1..]);
    }
  }

  predicate SortedByName(files: seq<ChunkFile>) {
    forall i, j :: 0 <= i < j < |files| ==> NameLe(files[i].name, files[j].name)
  }

  /** Places `f` before the first file whose name is not smaller. */
  function Insert(f: ChunkFile, files: seq<ChunkFile>): (r: seq<ChunkFile>)
    ensures multiset(r) == multiset(files) + multiset{f}
  {
    if files == [] then [f]
    else if NameLe(f.name, files[0].name) then [f] + files
    else
      assert files == [files[0]] + files[1..];
      [files[0]] + Insert(f, files[1..])
  }

  /** Inserting into a sorted list keeps it sorted. */
  lemma {:induction false} InsertSorted(f: ChunkFile, files: seq<ChunkFile>)
    requires SortedByName(files)
    ensures SortedByName(Insert(f, files))
  {
    if files == [] {
    } else if NameLe(f.name, files[0].name) {
      InsertFront(f, files);
    } else {
      var tail := files[1..];
      assert SortedByName(tail) by {
        forall i, j | 0 <= i < j < |tail| ensures NameLe(tail[i].name, tail[j].name) {
          assert tail[i] == files[i + 1] && tail[j] == files[j + 1];
        }
      }
      InsertSorted(f, tail);
      NameLeTotal(f.name, files[0].name);
      assert files == [files[0]] + tail;
      InsertBehind(files[0], f, tail, Insert(f, tail));
    }
  }

  lemma InsertFront(f: ChunkFile, files: seq<ChunkFile>)
    requires SortedByName(files) && files != [] && NameLe(f.name, files[0].name)
    ensures SortedByName([f] + files)
  {
    var r := [f] + files;
    forall i, j | 0 <= i < j < |r| ensures NameLe(r[i].name, r[j].name) {
      assert r[j] == files[j - 1];
      if i == 0 {
        if j > 1 {
          NameLeTransitive(f.name, files[0].name, files[j - 1].name);
        }
      } else {
        assert r[i] == files[i - 1];
      }
    }
  }

  lemma InsertBehind(first: ChunkFile, f: ChunkFile, tail: seq<ChunkFile>, rest: seq<ChunkFile>)
    requires SortedByName([first] + tail) && SortedByName(rest) && NameLe(first.name, f.name)
    requires multiset(rest) == multiset(tail) + multiset{f}
    ensures SortedByName([first] + rest)
  {
    var r := [first] + rest;
    var s := [first] + tail;
    forall i, j | 0 <= i < j < |r| ensures NameLe(r[i].name, r[j].name) {
      if i == 0 {
        var g := rest[j - 1];
        assert r[0] == first && r[j] == g && g in multiset(rest);
        if g != f {
          assert g in multiset(tail);
          var k :| 0 <= k < |tail| && tail[k] == g;
          assert s[0] == first && s[k + 1] == g;
          assert NameLe(s[0].name, s[k + 1].name);
        }
      } else {
        assert r[i] == rest[i - 1] && r[j] == rest[j - 1];
      }
    }
  }

  /** `sorted(...)` of the listed chunk files, by name. */
  function SortByName(files: seq<ChunkFile>): (r: seq<ChunkFile>)
    ensures multiset(r) == multiset(files)
    ensures SortedByName(r)
  {
    if files == [] then []
    else
      assert files == [files[0]] + files[1..];
      InsertSorted(files[0], SortByName(files[1..]));
      Insert(files[0], SortByName(files[1..]))
  }

  /** The chunk list of each file, in the files' order. */
  function FileChunks(files: seq<ChunkFile>): seq<seq<Chunk>> {
    if files == [] then [] else FileChunks(files[..|files| - 1]) + [files[|files| - 1].chunks]
  }

  /** `load_chunks`: each file's chunk list, in sorted file-name order, concatenated. */
  method LoadChunks(files: seq<ChunkFile>) returns (all: seq<Chunk>)
    ensures all == Flatten(FileChunks(SortByName(files)))
  {
    var sorted := SortByName(files);
    all := [];
    var i := 0;
    while i < |sorted|
      invariant 0 <= i <= |sorted|
      invariant all == Flatten(FileChunks(sorted[..i]))
    {
      assert sorted[..i + 1][..i] == sorted[..i];
      FlattenAppend(FileChunks(sorted[..i]), [sorted[i].chunks]);
      assert Flatten([sorted[i].chunks]) == sorted[i].chunks;
      all := all + sorted[i].chunks;
      i := i + 1;
    }
    assert sorted[..i] == sorted;
  }

  /** `texts = [chunk["text"] for chunk in chunks]`. */
  function Texts(chunks: seq<Chunk>): (r: seq<string>)
    ensures |r| == |chunks|
    ensures forall i :: 0 <= i < |r| ==> r[i] == chunks[i].text
  {
    seq(|chunks|, i requires 0 <= i < |chunks| => chunks[i].text)
  }

  /** What the batch loop accumulates: the encoder's output for each batch, concatenated. */
  function EncodeBatches(batches: seq<seq<string>>, encode: seq<string> -> seq<Vector>): seq<Vector> {
    if batches == [] then [] else encode(batches[0]) + EncodeBatches(batches[1..], encode)
  }

  lemma {:induction false} EncodeBatchesSnoc(batches: seq<seq<string>>, b: seq<string>, encode: seq<string> -> seq<Vector>)
    ensures EncodeBatches(batches + [b], encode) == EncodeBatches(batches, encode) + encode(b)
  {
    if batches == [] {
      assert [b][1..] == [];
      assert batches + [b] == [b];
    } else {
      assert (batches + [b])[1..] == batches[1..] + [b];
      EncodeBatchesSnoc(batches[1..], b, encode);
    }
  }

  /** The batch loop of `embed_data`. `progress` holds the pair (batch number, batch
      total) of each progress message, in order: one per batch, numbered from 1, and
      every total, `(len(texts) - 1) // 64 + 1`, equal to the number of batches. */
  method EmbedTexts(texts: seq<string>, encode: seq<string> -> seq<Vector>)
    returns (embeddings: seq<Vector>, progress: seq<(nat, int)>)
    ensures embeddings == EncodeBatches(Batches(texts, BATCH_SIZE), encode)
    ensures |progress| == |Batches(texts, BATCH_SIZE)|
    ensures forall j :: 0 <= j < |progress| ==> progress[j] == (j + 1, |Batches(texts, BATCH_SIZE)|)
  {
    embeddings := [];
    progress := [];
    var total := (|texts| - 1) / BATCH_SIZE + 1;
    BatchCount(texts, BATCH_SIZE);
    var i := 0;
    while i < |texts|
      invariant 0 <= i <= |texts| && (i < |texts| ==> WholeBatches(i, BATCH_SIZE))
      invariant embeddings == EncodeBatches(Batches(texts[..i], BATCH_SIZE), encode)
      invariant |progress| == |Batches(texts[..i], BATCH_SIZE)|
      invariant forall j :: 0 <= j < |progress| ==> progress[j] == (j + 1, total)
    {
      var end := Min(i + BATCH_SIZE, |texts|);
      var batch := texts[i..end];
      EncodeStep(texts, i, BATCH_SIZE, encode);
      progress := progress + [(i / BATCH_SIZE + 1, total)];
      embeddings := embeddings + encode(batch);
      i := end;
    }
    assert texts[..i] == texts;
  }

  /** One iteration of the batch loop: it encodes the next slice, which is batch
      number `i // size + 1`. */
  lemma EncodeStep(texts: seq<string>, i: nat, size: nat, encode: seq<string> -> seq<Vector>)
    requires size > 0 && WholeBatches(i, size) && i < |texts|
    ensures var e := Min(i + size, |texts|);
            && EncodeBatches(Batches(texts[..e], size), encode)
               == EncodeBatches(Batches(texts[..i], size), encode) + encode(texts[i..e])
            && |Batches(texts[..e], size)| == |Batches(texts[..i], size)| + 1
            && |Batches(texts[..i], size)| == i / size
            && (e < |texts| ==> WholeBatches(e, size))
  {
    var e := Min(i + size, |texts|);
    WholeBatchesCount(texts, i, size);
    BatchesExtend(texts, i, size);
    EncodeBatchesSnoc(Batches(texts[..i], size), texts[i..e], encode);
  }

  function EncodeEach(texts: seq<string>, encodeOne: string -> Vector): (r: seq<Vector>)
    ensures |r| == |texts|
  {
    seq(|texts|, i requires 0 <= i < |texts| => encodeOne(texts[i]))
  }

  /** The encoder treats each text on its own, whatever batch it comes in. */
  ghost predicate PerItem(encode: seq<string> -> seq<Vector>, encodeOne: string -> Vector) {
    forall b: seq<string> :: |encode(b)| == |b| &&
      forall j :: 0 <= j < |b| ==> encode(b)[j] == encodeOne(b[j])
  }

  lemma EncodeOneBatch(b: seq<string>, encode: seq<string> -> seq<Vector>, encodeOne: string -> Vector)
    requires PerItem(encode, encodeOne)
    ensures encode(b) == EncodeEach(b, encodeOne)
  {
    assert |encode(b)| == |b| && forall j :: 0 <= j < |b| ==> encode(b)[j] == encodeOne(b[j]);
  }

  lemma EncodeEachAppend(a: seq<string>, b: seq<string>, encodeOne: string -> Vector)
    ensures EncodeEach(a + b, encodeOne) == EncodeEach(a, encodeOne) + EncodeEach(b, encodeOne)
  {
  }

  /** Encoding batch by batch is encoding the concatenated batches item by item. */
  lemma {:induction false} EncodeBatchesEach(batches: seq<seq<string>>, encode: seq<string> -> seq<Vector>,
                                             encodeOne: string -> Vector)
    requires PerItem(encode, encodeOne)
    ensures EncodeBatches(batches, encode) == EncodeEach(Flatten(batches), encodeOne)
  {
    if batches != [] {
      EncodeBatchesEach(batches[1..], encode, encodeOne);
      EncodeOneBatch(batches[0], encode, encodeOne);
      EncodeEachAppend(batches[0], Flatten(batches[1..]), encodeOne);
    }
  }

  /** With such an encoder, batching does not disturb order: output `i` is the
      embedding of input `i`, for every batch size. */
  lemma BatchingPreservesOrder(texts: seq<string>, size: nat,
                               encode: seq<string> -> seq<Vector>, encodeOne: string -> Vector)
    requires size > 0 && PerItem(encode, encodeOne)
    ensures EncodeBatches(Batches(texts, size), encode) == EncodeEach(texts, encodeOne)
  {
    EncodeBatchesEach(Batches(texts, size), encode, encodeOne);
    FlattenBatches(texts, size);
  }

  lemma EmptyTexts(texts: seq<string>, encode: seq<string> -> seq<Vector>)
    requires texts == []
    ensures Batches(texts, BATCH_SIZE) == []
    ensures EncodeBatches(Batches(texts, BATCH_SIZE), encode) == []
  {
  }

  /** `for chunk, embedding in zip(chunks, all_embeddings): chunk["embedding"] = embedding`. */
  function Attach(chunks: seq<Chunk>, embeddings: seq<Vector>): (r: seq<Chunk>)
    ensures |r| == |chunks|
    ensures forall i :: 0 <= i < |r| ==> r[i].text == chunks[i].text && r[i].metadata == chunks[i].metadata
    ensures forall i :: 0 <= i < |r| ==>
              r[i].embedding == (if i < |embeddings| then Some(embeddings[i]) else chunks[i].embedding)
  {
    seq(|chunks|, i requires 0 <= i < |chunks| =>
      if i < |embeddings| then chunks[i].(embedding := Some(embeddings[i])) else chunks[i])
  }

  /** The zip loop, updating the chunk list in place. */
  method AttachInPlace(chunks: array<Chunk>, embeddings: seq<Vector>)
    modifies chunks
    ensures chunks[..] == Attach(old(chunks[..]), embeddings)
  {
    var i := 0;
    while i < chunks.Length && i < |embeddings|
      invariant 0 <= i <= chunks.Length && i <= |embeddings|
      invariant forall k :: 0 <= k < i ==> chunks[k] == old(chunks[k]).(embedding := Some(embeddings[k]))
      invariant forall k :: i <= k < chunks.Length ==> chunks[k] == old(chunks[k])
    {
      chunks[i] := chunks[i].(embedding := Some(embeddings[i]));
      i := i + 1;
    }
  }

  /** After `embed_data`, chunk `i` carries the embedding of its own text, and its
      text and metadata are unchanged. */
  lemma EmbeddingsLineUp(chunks: seq<Chunk>, encode: seq<string> -> seq<Vector>, encodeOne: string -> Vector)
    requires PerItem(encode, encodeOne)
    ensures var r := Attach(chunks, EncodeBatches(Batches(Texts(chunks), BATCH_SIZE), encode));
            forall i :: 0 <= i < |r| ==>
              r[i] == Chunk(chunks[i].text, chunks[i].metadata, Some(encodeOne(chunks[i].text)))
  {
    BatchingPreservesOrder(Texts(chunks), BATCH_SIZE, encode, encodeOne);
  }

  /** `embed_data`: load, encode in batches, attach; the result is what gets saved. */
  method EmbedData(files: seq<ChunkFile>, encode: seq<string> -> seq<Vector>)
    returns (chunks: array<Chunk>, progress: seq<(nat, int)>)
    ensures fresh(chunks)
    ensures var loaded := Flatten(FileChunks(SortByName(files)));
            chunks[..] == Attach(loaded, EncodeBatches(Batches(Texts(loaded), BATCH_SIZE), encode))
    ensures var batches := Batches(Texts(Flatten(FileChunks(SortByName(files)))), BATCH_SIZE);
            |progress| == |batches| &&
            forall j :: 0 <= j < |progress| ==> progress[j] == (j + 1, |batches|)
  {
    var loaded := LoadChunks(files);
    chunks := new Chunk[|loaded|](i requires 0 <= i < |loaded| => loaded[i]);
    assert chunks[..] == loaded;
    var texts := Texts(loaded);
    var embeddings;
    embeddings, progress := EmbedTexts(texts, encode);
    AttachInPlace(chunks, embeddings);
  }
}
