/** Constants and helper types shared by every module; the limits are those the wire package pins. */
module Wire {

  datatype Option<+T> = None | Some(value: T)

  const MAX_SAFE_INTEGER: nat := 0x1F_FFFF_FFFF_FFFF
  const BOOTSTRAP_FRAME_BYTES: nat := 0x1_0000
  const V1_FRAME_BYTES: nat := 0x10_0000
  const AGGREGATE_ITEM_BYTES: nat := 0x400_0000
  const FRAGMENT_CHUNK_BYTES: nat := 0x8_0000
  const MAX_CHUNKS: nat := 128
  const V1_JSON_DEPTH: nat := 64

  /** The limits in the units they are given in; a whole item is cut into at most so many chunks. */
  lemma Limits()
    ensures MAX_SAFE_INTEGER + 1 == 8 * 1024 * 1024 * 1024 * 1024 * 1024
    ensures BOOTSTRAP_FRAME_BYTES == 64 * 1024 && V1_FRAME_BYTES == 1024 * 1024 && FRAGMENT_CHUNK_BYTES == 512 * 1024
    ensures AGGREGATE_ITEM_BYTES == 64 * 1024 * 1024 == MAX_CHUNKS * FRAGMENT_CHUNK_BYTES
  {}

  /** A Go string or byte slice: one character per byte, in the range 0..255. */
  type Bytes = string

  function Min(a: int, b: int): int { if a <= b then a else b }

  function Max(a: int, b: int): int { if a <= b then b else a }
}
