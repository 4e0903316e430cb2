/** The codec as its callers see it. */
module Lz4 {
  import opened Bytes
  import opened Lz4Format
  import opened Lz4Compress
  import opened Lz4Decode
  import opened Lz4Decompress
  import opened Lz4RoundTrip

  /** Compressing and then decompressing into a buffer of at least the source's size, exactly
      that size included, gives the source back; whatever the hash, the acceleration and the
      capacity for the block, provided the compressor reports success. */
  method CompressAndDecompress(src: seq<byte>, block: array<byte>, dst: array<byte>, hash: Hash, acceleration: int)
    returns (size: nat, decoded: int)
    requires block != dst && dst.Length >= |src|
    modifies block, dst
    ensures size > 0 ==> decoded == |src| && dst[..decoded] == src
    ensures |src| <= MAX_INPUT_SIZE && block.Length >= CompressBound(|src|) ==> size > 0
  {
    decoded := 0;
    size := CompressFast(src, block, hash, acceleration);
    if size > 0 {
      RoundTrip(block[..size], src, dst.Length);
      decoded := Decompress(block[..size], dst);
    }
  }
}
