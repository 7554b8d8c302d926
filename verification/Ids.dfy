/** Identifiers shared by chunking, indexing and retrieval. */
module Ids {

  /** A chunk id is the hash of a string; equal hashes mean equal strings. */
  datatype ChunkId = Sha256(text: string)
}
