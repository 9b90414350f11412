/** The records that flow between the pipeline stages (the JSON chunk files). */
module Chunks {

  datatype Option<T> = None | Some(value: T)

  /** An embedding; its coordinates are opaque to the pipeline. */
  type Vector = seq<real>

  /** The provenance of a chunk: file name, 1-based page, and the join key `chunk_id`. */
  datatype Metadata = Metadata(source: string, page: nat, chunkId: string)

  /** A chunk dictionary: `text`, `metadata`, and the `embedding` key once the embedder
      has added it. */
  datatype Chunk = Chunk(text: string, metadata: Metadata, embedding: Option<Vector>)
}
