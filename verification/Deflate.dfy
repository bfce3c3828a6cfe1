/** The compression library, seen from outside: any codec that inflates what it
    deflated and does not expand it beyond the ceiling the reader allows. */
module Deflate {
  import opened Wrappers
  import opened Raster

  datatype Codec = Codec(deflate: seq<byte> -> seq<byte>, inflate: seq<byte> -> Option<seq<byte>>)

  ghost predicate Lossless(codec: Codec) {
    && (forall b: seq<byte> {:trigger codec.deflate(b)} ::
          codec.inflate(codec.deflate(b)) == Some(b) && |codec.deflate(b)| <= 2 * |b| + 4096)
  }

  /** There are such codecs: storing the bytes is one. */
  function Storing(): Codec { Codec(b => b, b => Some(b)) }

  lemma StoringIsLossless()
    ensures Lossless(Storing())
  {
  }
}
