/** Bytes and the little-endian 32-bit words that both allocators and the
    file system keep in raw memory. */
module Bytes {

  type byte = x: int | 0 <= x < 256

  const WORD_LIMIT: int := 0x1_0000_0000

  /** The word stored at bytes o .. o+3 of m. */
  function Word(m: seq<byte>, o: nat): (w: nat)
    requires o + 4 <= |m|
    ensures w < WORD_LIMIT
  {
    m[o] as int + 0x100 * (m[o + 1] as int) + 0x1_0000 * (m[o + 2] as int) + 0x100_0000 * (m[o + 3] as int)
  }

  /** The four bytes of w, least significant first. */
  function WordBytes(w: nat): (b: seq<byte>)
    requires w < WORD_LIMIT
    ensures |b| == 4 && Word(b, 0) == w
  {
    [w % 0x100, w / 0x100 % 0x100, w / 0x100 / 0x100 % 0x100, w / 0x100 / 0x100 / 0x100]
  }

  /** m with the bytes b copied over position o: memcpy into a buffer. */
  function Splice(m: seq<byte>, o: nat, b: seq<byte>): (r: seq<byte>)
    requires o + |b| <= |m|
    ensures |r| == |m|
    ensures forall k :: 0 <= k < |m| ==> r[k] == if o <= k < o + |b| then b[k - o] else m[k]
  {
    m[..o] + b + m[o + |b|..]
  }
}
