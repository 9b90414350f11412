# A verified model of an interview-preparation RAG pipeline's data-shaping glue

The repository is a retrieval-augmented question-answering assistant for interview preparation over a corpus of PDF documents. It has five stages:

- `ingest.py` extracts the text of each page. It takes the digital text, or the OCR text when the digital text is too short, and cuts each page into chunk records with provenance metadata and a `chunk_id`.
- `data_cleaning.py` normalises the chunk texts and drops the ones that become too short.
- `embed.py` loads all cleaned chunks, encodes their texts in batches of 64 and attaches the vectors.
- `index.py` rebuilds the `invoices` vector collection from scratch and upserts one point per chunk, in batches of 100.
- `generate_answer` in `generation_pipeline.py` turns retrieved chunks into a prompt context and a deduplicated source list. Its `top_k` argument defaults to 5, the constant `Generation.TOP_K`.

This project models the deterministic sequence and string logic of those stages in Dafny and proves the stages' properties. The libraries the code calls are parameters of the model:

- the LangChain text splitter: `split: string -> seq<string>`;
- NLTK's tokenizer: `tokenize`;
- NLTK's stop-word set: `stopWords`;
- the SentenceTransformer encoder: `encode: seq<string> -> seq<Vector>`;
- the retriever: `retrieve`;
- the LLM chain: `chain`.

The Qdrant client appears as a class holding its collections as a map.

Modules:

- `Text` (text.dfy) holds shared string operations:
  - Python's `str.strip()`, using the exact `str.isspace()` set;
  - `sep.join`;
  - `str.split` on one character;
  - f-string rendering of a non-negative integer;
  - reading back a trailing number.
- `Batching` (batching.dfy) is the `for i in range(0, n, size): xs[i:i+size]` pattern shared by the embedder and the indexer.
- `Chunks` (chunks.dfy) holds the chunk record passed between stages.
- `Ingest`, `DataCleaning`, `Embed`, `Index` and `Generation` each model one source file.

The loops of the source are methods with loop invariants, proved against specification functions. The specification functions' own properties are lemmas. `AttachInPlace` updates an `array` in place, as the source updates each chunk dictionary. `VectorStore` is a class whose methods change its `collections` field. The progress messages the embedder and the indexer log are modelled as the sequence of (batch number, batch total) pairs they print.

## Model

| member | source | states |
|---|---|---|
| Text.StripSlice | ingest.py:60 | `strip()` returns the slice left after removing leading and trailing whitespace only. Its result is empty exactly when the input is all whitespace. |
| Batching.Batches | embed.py:32-33 | Every batch is non-empty and holds at most `size` items, and every batch but the last holds exactly `size`. |
| Batching.FlattenBatches | embed.py:32-33 | The consecutive batches concatenate back to the input: every item lands in exactly one batch, in order. |
| Batching.BatchSlice | index.py:57-58 | Batch `j` is the clamped slice `s[j*size : j*size+size]`. |
| Batching.BatchCount | embed.py:34 | The number of loop iterations equals the logged total `(n-1)//size+1`, and is 0 when `n` is 0. |
| Batching.WholeBatchesCount | embed.py:34 | At a loop position `i` the loop has run `i//size` batches, the logged batch number minus one. |
| Ingest.BlankDigitalUsesOcr | ingest.py:54-63 | A page whose digital content is missing or all whitespace gets its OCR text. |
| Ingest.MergePages | ingest.py:58-63 | `merged_pages` has `min(#digital, #ocr)` entries, numbered 1, 2, …. Each entry has the OCR text exactly when the stripped digital text is shorter than 20 characters, otherwise the digital text. |
| Ingest.FullText | ingest.py:66 | The full text holds every page text and one newline between neighbours. It is empty for no pages and is the page's own text for one page. |
| Ingest.FullTextSnoc | ingest.py:66 | Each further page appends a newline and its text, so pages appear in page order. |
| Ingest.StemOfPdf | ingest.py:82 | `Path("x.pdf").stem` is `x` for a non-empty `x`. |
| Ingest.ChunkIdParts | ingest.py:82 | The id `{stem}_p{page}_c{idx}` starts with the stem and ends with exactly the digits of the index. |
| Ingest.ChunkIdInjective | ingest.py:82 | `{stem}_p{page}_c{idx}` determines the stem, the page and the index, so two different triples never get the same id. |
| Ingest.BuildChunkRecords | ingest.py:73-84 | The nested record loop produces the records of the pages in page order, then split order. |
| Ingest.RecordCount | ingest.py:73-84 | There are as many records as split pieces over all pages, so a page that splits into nothing adds no record. |
| Ingest.RecordsProvenance | ingest.py:74-84 | Every record is piece `j` of some page `k`. Its text is that piece, `source` is the file name, `page` is the page number and `chunk_id` is built with `j` as index. |
| Ingest.RecordsComplete | ingest.py:74-84 | Conversely, every piece of every page has its record. |
| Ingest.ChunkIdsDistinct | ingest.py:74-82 | Within one document, all `chunk_id`s are pairwise distinct. |
| Ingest.ChunkIdsDistinctAcrossDocuments | ingest.py:49-82 | Two PDFs `b1.pdf` and `b2.pdf` with different, non-empty base names never share a `chunk_id`. |
| Ingest.DotPdfCollision | ingest.py:49-82 | The globbed file `.pdf` has stem `.pdf`, the same as `.pdf.pdf`, so those two files' records get the same `chunk_id`s. |
| Ingest.ExtractDocument | ingest.py:54-84 | One document's full text and records are those of its merged pages, and its ids are distinct. |
| DataCleaning.Lower | data_cleaning.py:33 | Lower-casing keeps the length, turns each of `A`-`Z` into the same letter in lower case, leaves no `A`-`Z` and changes nothing else. |
| DataCleaning.CollapseNonAscii | data_cleaning.py:34 | The non-ASCII substitution leaves only ASCII and never lengthens the text. |
| DataCleaning.CollapseAsciiPrefix | data_cleaning.py:34 | ASCII text passes through the substitution unchanged. |
| DataCleaning.CollapseRun | data_cleaning.py:34 | A maximal run of non-ASCII characters becomes exactly one space. |
| DataCleaning.AllowList | data_cleaning.py:35 | The allow-list substitution keeps the length, keeps allowed characters and turns each disallowed character into one space. |
| DataCleaning.NormalizeChars | data_cleaning.py:33-35 | After the first three steps only lower-case letters, digits, ASCII whitespace and `. # / @ ( ) , : ; - + % &` remain. |
| DataCleaning.NormalizeIdempotent | data_cleaning.py:33-35 | The first three steps together are idempotent. |
| DataCleaning.RemoveStopWords | data_cleaning.py:37 | No surviving token is a stop word. Every other token survives as often as it occurred, and the survivors keep their relative order. |
| DataCleaning.CleanTextLength | data_cleaning.py:24-38 | `clean_text` joins the surviving tokens with single spaces: its length is their total length plus one per gap. |
| DataCleaning.CleanTextTokens | data_cleaning.py:36-38 | The cleaned text is the surviving tokens joined by single spaces: splitting it on spaces gives them back. This holds when there is at least one token and none contains a space. |
| DataCleaning.CleanChunks | data_cleaning.py:57-64 | The output is never longer than the input, and every output chunk passes the length gate. |
| DataCleaning.CleanChunksMembers | data_cleaning.py:58-64 | A chunk's cleaned record is kept if and only if its stripped cleaned text is longer than 20 characters. Every output record comes from an input chunk with its metadata unchanged. |
| DataCleaning.CleanChunksInOrder | data_cleaning.py:57-64 | Kept chunks keep their relative order: the output is a subsequence of the cleaned inputs. |
| DataCleaning.CleanData | data_cleaning.py:57-64 | The keep/drop loop produces exactly the filtered list. |
| Embed.NameLeTotal | embed.py:16 | Python string order is total. |
| Embed.NameLeTransitive | embed.py:16 | Python string order is transitive. |
| Embed.InsertSorted | embed.py:16 | Inserting a file into a name-sorted list keeps it sorted. |
| Embed.SortByName | embed.py:16 | `sorted` returns a permutation of the files, ordered by name. |
| Embed.LoadChunks | embed.py:13-21 | `load_chunks` returns the concatenation of each file's chunks, in sorted file-name order. |
| Embed.Texts | embed.py:29 | `texts[i]` is the text of chunk `i`. |
| Embed.EmbedTexts | embed.py:31-36 | The batch loop returns the concatenation of the encoder's output for the batches of 64, in order. It logs (batch number, total) pairs 1…total, and the total equals the number of iterations. |
| Embed.BatchingPreservesOrder | embed.py:32-36 | For an encoder that encodes each text on its own, the batched result has one vector per text, and vector `i` is the encoding of text `i`. |
| Embed.EncodeBatchesEach | embed.py:32-36 | For an encoder that encodes each text on its own, encoding batch by batch and concatenating equals encoding every text of the concatenated batches. |
| Embed.EmptyTexts | embed.py:32 | No texts give no batches and no embeddings. |
| Embed.Attach | embed.py:39-40 | The zip keeps the chunk count and every chunk's text and metadata. Chunk `i` gets embedding `i` when there is one; past the end of the shorter list the chunk is unchanged. |
| Embed.AttachInPlace | embed.py:39-40 | The in-place loop leaves the array equal to the zipped list. |
| Embed.EmbeddingsLineUp | embed.py:29-40 | Chunk `i` receives the embedding of its own text, and its other keys are unchanged. |
| Embed.EmbedData | embed.py:23-40 | `embed_data` returns a fresh list: the loaded chunks, each with its embedding attached. It logs (batch number, total) pairs 1…total, one per batch of 64. |
| Index.UpsertAllKeys | index.py:59 | After an upsert the ids present are the old ones plus the batch's. |
| Index.VectorStore.HasCollection | index.py:27-28 | The existence probe answers whether the collection exists. |
| Index.VectorStore.DeleteCollection | index.py:30 | Deleting removes only that collection. |
| Index.VectorStore.CreateCollection | index.py:35-38 | Creation adds an empty collection with the given size and metric. The name must be free. |
| Index.VectorStore.Upsert | index.py:59 | Upsert changes only the named collection's points, and the store's trace of upsert calls gains this batch. |
| Index.BuildPoints | index.py:41-53 | Point `idx` has id `idx` and the chunk's embedding as its vector. Its payload copies `text`, `source`, `page` and `chunk_id`. The first chunk without an embedding is reported, as the `KeyError` would be. |
| Index.DenseMapSize | index.py:42-44 | The dense id map holds exactly the ids 0..N-1, so N points with no gaps. |
| Index.UpsertSlice | index.py:56-59 | Upserting the next consecutive slice onto the first `i` points gives the first `j`. |
| Index.UpsertInBatches | index.py:55-60 | The batched upsert loop fills the fresh collection with exactly the dense map. The store's trace of upsert calls grows by exactly the consecutive batches of 100 points, in order, so every point is sent once. It logs (batch number, total) pairs whose total is the number of iterations. |
| Index.IndexData | index.py:14-62 | `index_data` leaves the collection dropped and recreated, with dimension 384, the cosine metric and id `i` ↦ point `i`, and leaves other collections untouched. It succeeds exactly when every chunk has an embedding; otherwise the collection stays empty. The upsert calls are the batches of 100 points, in order, and there are none when an embedding is missing. |
| Index.RebuildIdempotent | index.py:27-59 | Rebuilding twice gives the same collections as rebuilding once. When every chunk has an embedding the collection holds exactly N points. |
| Index.RebuildTwice | index.py:27-59 | Calling `index_data` twice leaves the state that one call leaves. |
| Generation.Block | generation_pipeline.py:150 | A context block is the `[Source: s, Page: p]` header line followed by the chunk text. |
| Generation.Context | generation_pipeline.py:149-152 | The context is empty exactly when nothing was retrieved. |
| Generation.ContextSingle | generation_pipeline.py:149-152 | The context of one chunk is its block. |
| Generation.ContextSnoc | generation_pipeline.py:149-152 | Each further chunk appends a blank line and its block, so blocks appear in retrieval order. |
| Generation.ContextLength | generation_pipeline.py:149-152 | The context holds every block and one `\n\n` between neighbours. |
| Generation.Sources | generation_pipeline.py:158-161 | Every retrieved chunk's `source (Page p)` label is a source, and every source is some chunk's label. The source set is never larger than the retrieval list. |
| Generation.LabelInjective | generation_pipeline.py:159 | Equal labels mean equal source and page. |
| Generation.SourcesCount | generation_pipeline.py:158-161 | The source list has exactly one entry per distinct (source, page) pair. |
| Generation.Prompt | generation_pipeline.py:119-130 | The prompt starts with the template's fixed head and ends with its `Answer:` tail, and its length is the template's plus the context's and the question's. |
| Generation.PromptSlots | generation_pipeline.py:119-132 | The prompt is the template's head, the context, the `Question:` middle, the question and the `Answer:` tail, in that order, so both slots read back. |
| Generation.GenerateAnswer | generation_pipeline.py:134-167 | `retrieved_chunks` is the retrieval list unchanged. The answer is the chain applied to the filled-in prompt. The sources are exactly the retrieved labels, and there are no more of them than chunks. |
| Generation.NothingRetrieved | generation_pipeline.py:146-167 | An empty retrieval gives an empty context slot, no sources and no chunks. |

## Left out

- PDF loading, page rendering and OCR (ingest.py:15-32, 51-56) are foreign libraries. The digital and OCR page lists are inputs.
- The text splitter, `word_tokenize`, the stop-word corpus and `nltk.download` are foreign library code. They are parameters.
- The SentenceTransformer encoder is foreign code, and vectors are opaque values with no floating-point reasoning.
- The retriever (retrieve.py) and Qdrant's similarity ranking are foreign code, so there is no claim about which chunks come back or in what order. The LLM and its chat template and pipeline settings (generation_pipeline.py:15-117) are also foreign.
- All file, directory and JSON I/O is left out; stages pass values instead. This covers globbing, reading, writing, `mkdir` and JSON round-trips between stages.
- The wording of log messages is left out. Only the logged batch numbers and totals are modelled.
- logger.py, model_handler.py, main.py and streamlit_app.py are not part of this model. They are UI, logging configuration and model loading.
- Two loops over files are not modelled as loops: the PDF loop of `extract_and_save` (ingest.py:49) and the two file loops of `clean_data` (data_cleaning.py:42, 52). `Ingest.ExtractDocument` is one PDF and `DataCleaning.CleanData` is one chunk file. Full-text file cleaning (data_cleaning.py:42-49) is `CleanText` applied to each file. The file loop of `load_chunks` is modelled as the loop of `Embed.LoadChunks`.
- DataCleaning.Lower: models `str.lower()` on ASCII letters only. Python also lower-cases non-ASCII letters, and a few of them become ASCII, for example KELVIN SIGN to `k`. Those characters would then survive the non-ASCII substitution. The model turns them into a space instead.
- Generation.GenerateAnswer: `sources` is `list(set(...))`, whose order is hash order. It is modelled as a set, so the list's order is not captured.
- Embed.BatchingPreservesOrder: the per-position property is stated for an encoder that encodes each text independently. The model does not assume anything about how the real model batches.
- Ingest.ChunkIdsDistinctAcrossDocuments: holds only for names with a non-empty base before `.pdf`. The glob also matches a file named `.pdf`, whose stem is the whole name, and `Ingest.DotPdfCollision` shows it shares every id with `.pdf.pdf`.
- Generation.GenerateAnswer: `chain` is a function, but the real pipeline samples (`do_sample=True`, temperature 0.3), so two calls may answer differently. `chain` stands for the answer of this one call, and no lemma compares two calls.
- Index.IndexData: the store does not check that vectors have dimension 384. The store's own errors are not modelled: a failing delete swallowed by the bare `except`, and Qdrant rejecting a vector of the wrong size.
- Index.IndexData: chunk records always have `text` and `metadata`, so only a missing `embedding` can raise `KeyError`.
- The allow-list pattern's `A-Z` range can never match after lower-casing. It is kept in `DataCleaning.Allowed` as written, and it does not change the result.
