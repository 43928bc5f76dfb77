/** Little-endian field decoders over a sector buffer (thinfat.h).
    The source builds each value as `b0 | b1 << 8 | ...`; the shifted bytes occupy
    disjoint bits, so the bitwise or is the sum written below. */
module Bytes {
  import opened Common

  function ReadU8(p: seq<u8>, o: nat): u8
    requires o < |p|
  {
    p[o]
  }

  function ReadU16(p: seq<u8>, o: nat): u16
    requires o + 2 <= |p|
  {
    p[o] + (p[o + 1] as int) * 0x100
  }

  function ReadU24(p: seq<u8>, o: nat): u32
    requires o + 3 <= |p|
  {
    p[o] + (p[o + 1] as int) * 0x100 + (p[o + 2] as int) * 0x1_0000
  }

  function ReadU32(p: seq<u8>, o: nat): u32
    requires o + 4 <= |p|
  {
    p[o] + (p[o + 1] as int) * 0x100 + (p[o + 2] as int) * 0x1_0000 + (p[o + 3] as int) * 0x100_0000
  }

  /** Each decoder stays inside its width. */
  lemma DecoderBounds(p: seq<u8>, o: nat)
    requires o + 4 <= |p|
    ensures ReadU16(p, o) < 0x1_0000
    ensures ReadU24(p, o) < 0x100_0000
    ensures ReadU32(p, o) < 0x1_0000_0000
  {
  }

  /** The narrower decoders are the wider one reduced modulo their range. */
  lemma NarrowerDecoders(p: seq<u8>, o: nat)
    requires o + 4 <= |p|
    ensures ReadU24(p, o) == ReadU32(p, o) % 0x100_0000
    ensures ReadU16(p, o) == ReadU32(p, o) % 0x1_0000
    ensures ReadU8(p, o) == ReadU16(p, o) % 0x100
  {
    var b0, b1, b2, b3: int := p[o], p[o + 1], p[o + 2], p[o + 3];
    var lo24 := b0 + b1 * 0x100 + b2 * 0x1_0000;
    assert ReadU32(p, o) == lo24 + b3 * 0x100_0000;
    var lo16 := b0 + b1 * 0x100;
    assert ReadU32(p, o) == lo16 + (b2 + b3 * 0x100) * 0x1_0000;
  }

  /** A decoder looks only at its own bytes: two buffers that agree on
      `o .. o+3` decode the same values there, whatever else they hold. */
  lemma DecodersAreLocal(p: seq<u8>, q: seq<u8>, o: nat)
    requires o + 4 <= |p| && o + 4 <= |q|
    requires p[o..o + 4] == q[o..o + 4]
    ensures ReadU8(p, o) == ReadU8(q, o)
    ensures ReadU16(p, o) == ReadU16(q, o)
    ensures ReadU24(p, o) == ReadU24(q, o)
    ensures ReadU32(p, o) == ReadU32(q, o)
  {
    assert p[o] == p[o..o + 4][0] && p[o + 1] == p[o..o + 4][1];
    assert p[o + 2] == p[o..o + 4][2] && p[o + 3] == p[o..o + 4][3];
    assert q[o] == q[o..o + 4][0] && q[o + 1] == q[o..o + 4][1];
    assert q[o + 2] == q[o..o + 4][2] && q[o + 3] == q[o..o + 4][3];
  }

  /** The little-endian byte image of a number: the reference the decoders invert. */
  function LittleEndian(x: nat, width: nat): (r: seq<u8>)
    ensures |r| == width
  {
    if width == 0 then [] else [x % 0x100] + LittleEndian(x / 0x100, width - 1)
  }

  /** Decoding the little-endian image of a 32-bit value gives the value back. */
  lemma DecodeEncodeU32(x: u32)
    ensures ReadU32(LittleEndian(x, 4), 0) == x
    ensures ReadU16(LittleEndian(x, 4), 0) == x % 0x1_0000
  {
    var x1 := x / 0x100;
    var x2 := x1 / 0x100;
    var x3 := x2 / 0x100;
    assert LittleEndian(x, 4) == [x % 0x100, x1 % 0x100, x2 % 0x100, x3 % 0x100] by {
      assert LittleEndian(x3, 1) == [x3 % 0x100] + LittleEndian(x3 / 0x100, 0);
      assert LittleEndian(x2, 2) == [x2 % 0x100] + LittleEndian(x3, 1);
      assert LittleEndian(x1, 3) == [x1 % 0x100] + LittleEndian(x2, 2);
    }
  }

  /** Decoding the little-endian image of a 16-bit value gives the value back. */
  lemma DecodeEncodeU16(x: u16)
    ensures ReadU16(LittleEndian(x, 2), 0) == x
  {
    var x1 := x / 0x100;
    assert LittleEndian(x1, 1) == [x1 % 0x100] + LittleEndian(x1 / 0x100, 0);
    assert LittleEndian(x, 2) == [x % 0x100, x1 % 0x100];
  }

  /** Every four bytes are the little-endian image of the value decoded from them:
      the decoder is one-to-one on four-byte windows. */
  lemma EncodeDecodeU32(p: seq<u8>, o: nat)
    requires o + 4 <= |p|
    ensures LittleEndian(ReadU32(p, o), 4) == p[o..o + 4]
  {
    var b0, b1, b2, b3: int := p[o], p[o + 1], p[o + 2], p[o + 3];
    var x := ReadU32(p, o);
    assert x == b0 + (b1 + (b2 + b3 * 0x100) * 0x100) * 0x100;
    var x1 := x / 0x100;
    var x2 := x1 / 0x100;
    var x3 := x2 / 0x100;
    assert x % 0x100 == b0 && x1 == b1 + (b2 + b3 * 0x100) * 0x100;
    assert x1 % 0x100 == b1 && x2 == b2 + b3 * 0x100;
    assert x2 % 0x100 == b2 && x3 == b3;
    assert LittleEndian(x3, 1) == [x3 % 0x100] + LittleEndian(x3 / 0x100, 0);
    assert LittleEndian(x2, 2) == [x2 % 0x100] + LittleEndian(x3, 1);
    assert LittleEndian(x1, 3) == [x1 % 0x100] + LittleEndian(x2, 2);
    assert LittleEndian(x, 4) == [b0, b1, b2, b3];
  }
}
