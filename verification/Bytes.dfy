/** Bytes, in-place copies and page-wise addresses, shared by the memory, the heap,
    the file system and the serializer. */
module Bytes {

  type byte = b: int | 0 <= b < 256
  type u32 = x: int | 0 <= x < 0x1_0000_0000
  type i32 = x: int | -0x8000_0000 <= x < 0x8000_0000

  /** `memcpy(dst + off, src, |src|)`, seen as a value. */
  function Overlay(dst: seq<byte>, off: nat, src: seq<byte>): (r: seq<byte>)
    requires off + |src| <= |dst|
    ensures |r| == |dst|
    ensures forall k :: 0 <= k < |r| ==>
      r[k] == if off <= k < off + |src| then src[k - off] else dst[k]
  {
    dst[..off] + src + dst[off + |src|..]
  }

  /** A page number and an offset inside the page are the quotient and the
      remainder of the flat address. */
  lemma PageOfAddress(size: int, page: int, off: int)
    requires 0 <= off < size
    ensures (page * size + off) / size == page && (page * size + off) % size == off
  {
    var q, r := (page * size + off) / size, (page * size + off) % size;
    assert q * size + r == page * size + off;
    if q < page {
      LaterPageStartsAfter(q, page, size);
    } else if page < q {
      LaterPageStartsAfter(page, q, size);
    }
  }

  lemma LaterPageStartsAfter(p: int, q: int, size: int)
    requires p < q && size >= 0
    ensures p * size + size <= q * size
    decreases q - p
  {
    assert q * size == (q - 1) * size + size;
    if p < q - 1 {
      LaterPageStartsAfter(p, q - 1, size);
    }
  }

  /** Four bytes, least significant first. */
  function EncodeU32(x: u32): (r: seq<byte>)
    ensures |r| == 4
  {
    [x % 256, x / 256 % 256, x / 65536 % 256, x / 16777216]
  }

  function DecodeU32(b: seq<byte>): u32
    requires |b| == 4
  {
    var b0: int, b1: int, b2: int, b3: int := b[0], b[1], b[2], b[3];
    b0 + 256 * b1 + 65536 * b2 + 16777216 * b3
  }

  /** Two's complement in four bytes. */
  function EncodeI32(x: i32): (r: seq<byte>)
    ensures |r| == 4
  {
    EncodeU32(if x < 0 then x + 0x1_0000_0000 else x)
  }

  function DecodeI32(b: seq<byte>): i32
    requires |b| == 4
  {
    var u := DecodeU32(b);
    if u >= 0x8000_0000 then u - 0x1_0000_0000 else u
  }

  lemma U32RoundTrip(x: u32)
    ensures DecodeU32(EncodeU32(x)) == x
  {
    var a := x / 256;
    var b := a / 256;
    assert x / 65536 == b;
    assert x / 16777216 == b / 256;
  }

  lemma I32RoundTrip(x: i32)
    ensures DecodeI32(EncodeI32(x)) == x
  {
    U32RoundTrip(if x < 0 then x + 0x1_0000_0000 else x);
  }
}
