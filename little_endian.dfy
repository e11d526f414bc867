/** Little-endian byte layout of the fixed-width PLAIN values: int32 and
    float32 take 4 bytes, int64 and float64 take 8, least significant byte
    first. Signed values are two's complement; floating-point values are
    carried as their raw IEEE-754 bit patterns. */
module LittleEndian {

  /** One byte as the page stream delivers it. */
  type Byte = b: int | 0 <= b < 256

  /** Java `int` and `long`. */
  type Int32 = x: int | -0x8000_0000 <= x < 0x8000_0000
  type Int64 = x: int | -0x8000_0000_0000_0000 <= x < 0x8000_0000_0000_0000

  /** Raw 32- and 64-bit patterns (the bits of a `float` / `double`). */
  type Bits32 = u: int | 0 <= u < 0x1_0000_0000
  type Bits64 = u: int | 0 <= u < 0x1_0000_0000_0000_0000

  const TWO32: nat := 0x1_0000_0000
  const TWO64: nat := 0x1_0000_0000_0000_0000

  function Pow256(n: nat): (r: nat)
    ensures r > 0
  {
    if n == 0 then 1 else 256 * Pow256(n - 1)
  }

  lemma Pow256Widths()
    ensures Pow256(4) == TWO32 && Pow256(8) == TWO64
  {
  }

  /** The unsigned number whose base-256 digits are `bs`, least significant first. */
  function Unsigned(bs: seq<Byte>): (r: nat)
    ensures r < Pow256(|bs|)
  {
    if |bs| == 0 then 0 else bs[0] + 256 * Unsigned(bs[1..])
  }

  /** The `n` base-256 digits of `v`, least significant first. */
  function UnsignedBytes(v: nat, n: nat): (r: seq<Byte>)
    requires v < Pow256(n)
    ensures |r| == n
  {
    if n == 0 then [] else [v % 256] + UnsignedBytes(v / 256, n - 1)
  }

  lemma DigitSplit(b: Byte, d: nat)
    ensures (b + 256 * d) % 256 == b && (b + 256 * d) / 256 == d
  {
  }

  /** Writing `v` on `n` bytes and reading them back gives `v`. */
  lemma {:induction false} UnsignedOfBytes(v: nat, n: nat)
    requires v < Pow256(n)
    ensures Unsigned(UnsignedBytes(v, n)) == v
  {
    if n > 0 {
      var rest := UnsignedBytes(v / 256, n - 1);
      assert UnsignedBytes(v, n)[1..] == rest;
      UnsignedOfBytes(v / 256, n - 1);
    }
  }

  /** Reading `bs` and writing the number back on as many bytes gives `bs`. */
  lemma {:induction false} BytesOfUnsigned(bs: seq<Byte>)
    ensures UnsignedBytes(Unsigned(bs), |bs|) == bs
  {
    if |bs| > 0 {
      var d := Unsigned(bs[1..]);
      DigitSplit(bs[0], d);
      BytesOfUnsigned(bs[1..]);
      assert bs == [bs[0]] + bs[1..];
    }
  }

  /** Two's complement reading of a 32-bit pattern, and its inverse. */
  function Signed32(u: Bits32): Int32
  {
    if u < 0x8000_0000 then u else u - TWO32
  }

  function Pattern32(x: Int32): Bits32
  {
    if x < 0 then x + TWO32 else x
  }

  function Signed64(u: Bits64): Int64
  {
    if u < 0x8000_0000_0000_0000 then u else u - TWO64
  }

  function Pattern64(x: Int64): Bits64
  {
    if x < 0 then x + TWO64 else x
  }

  /** The raw bit pattern stored in 4 / 8 little-endian bytes. */
  function RawBits32(bs: seq<Byte>): (u: Bits32)
    requires |bs| == 4
  {
    Pow256Widths();
    Unsigned(bs)
  }

  function RawBits64(bs: seq<Byte>): (u: Bits64)
    requires |bs| == 8
  {
    Pow256Widths();
    Unsigned(bs)
  }

  /** Decoding of a PLAIN int32 / int64 value. */
  function DecodeLE32(bs: seq<Byte>): (r: Int32)
    requires |bs| == 4
    ensures Pattern32(r) == RawBits32(bs)
  {
    Signed32(RawBits32(bs))
  }

  function DecodeLE64(bs: seq<Byte>): (r: Int64)
    requires |bs| == 8
    ensures Pattern64(r) == RawBits64(bs)
  {
    Signed64(RawBits64(bs))
  }

  /** Encoders the decoders above invert. */
  function EncodeBits32(u: Bits32): (r: seq<Byte>)
    ensures |r| == 4
  {
    Pow256Widths();
    UnsignedBytes(u, 4)
  }

  function EncodeBits64(u: Bits64): (r: seq<Byte>)
    ensures |r| == 8
  {
    Pow256Widths();
    UnsignedBytes(u, 8)
  }

  function EncodeLE32(x: Int32): (r: seq<Byte>)
    ensures |r| == 4
  {
    EncodeBits32(Pattern32(x))
  }

  function EncodeLE64(x: Int64): (r: seq<Byte>)
    ensures |r| == 8
  {
    EncodeBits64(Pattern64(x))
  }

  /** The 4-byte formula a little-endian stream computes. */
  lemma RawBits32Formula(bs: seq<Byte>)
    requires |bs| == 4
    ensures RawBits32(bs) == bs[0] as int + 0x100 * bs[1] as int + 0x1_0000 * bs[2] as int + 0x100_0000 * bs[3] as int
  {
    assert Unsigned(bs[3..]) == bs[3] as int + 256 * Unsigned(bs[4..]);
    assert Unsigned(bs[2..]) == bs[2] as int + 256 * Unsigned(bs[3..]);
    assert Unsigned(bs[1..]) == bs[1] as int + 256 * Unsigned(bs[2..]);
  }

  lemma RawBits64Formula(bs: seq<Byte>)
    requires |bs| == 8
    ensures RawBits64(bs) == bs[0] as int + 0x100 * bs[1] as int + 0x1_0000 * bs[2] as int + 0x100_0000 * bs[3] as int
                             + 0x1_0000_0000 * bs[4] as int + 0x100_0000_0000 * bs[5] as int
                             + 0x1_0000_0000_0000 * bs[6] as int + 0x100_0000_0000_0000 * bs[7] as int
  {
    assert Unsigned(bs[7..]) == bs[7] as int + 256 * Unsigned(bs[8..]);
    assert Unsigned(bs[6..]) == bs[6] as int + 256 * Unsigned(bs[7..]);
    assert Unsigned(bs[5..]) == bs[5] as int + 256 * Unsigned(bs[6..]);
    assert Unsigned(bs[4..]) == bs[4] as int + 256 * Unsigned(bs[5..]);
    assert Unsigned(bs[3..]) == bs[3] as int + 256 * Unsigned(bs[4..]);
    assert Unsigned(bs[2..]) == bs[2] as int + 256 * Unsigned(bs[3..]);
    assert Unsigned(bs[1..]) == bs[1] as int + 256 * Unsigned(bs[2..]);
  }

  /** The sign of a decoded value is the top bit of its last byte. */
  lemma DecodeLE32Sign(bs: seq<Byte>)
    requires |bs| == 4
    ensures DecodeLE32(bs) < 0 <==> bs[3] >= 0x80
  {
    RawBits32Formula(bs);
  }

  lemma DecodeLE64Sign(bs: seq<Byte>)
    requires |bs| == 8
    ensures DecodeLE64(bs) < 0 <==> bs[7] >= 0x80
  {
    RawBits64Formula(bs);
  }

  /** A float read is the bit pattern of the int read over the same bytes
      (`Float.intBitsToFloat(readInt())`), and likewise for doubles. */
  lemma RawBitsArePatterns(b4: seq<Byte>, b8: seq<Byte>)
    requires |b4| == 4 && |b8| == 8
    ensures RawBits32(b4) == Pattern32(DecodeLE32(b4))
    ensures RawBits64(b8) == Pattern64(DecodeLE64(b8))
  {
  }

  /** Round trips, both directions: the codecs are inverse bijections. */
  lemma DecodeEncodeBits(u: Bits32, v: Bits64)
    ensures RawBits32(EncodeBits32(u)) == u
    ensures RawBits64(EncodeBits64(v)) == v
  {
    Pow256Widths();
    UnsignedOfBytes(u, 4);
    UnsignedOfBytes(v, 8);
  }

  lemma EncodeDecodeBits(b4: seq<Byte>, b8: seq<Byte>)
    requires |b4| == 4 && |b8| == 8
    ensures EncodeBits32(RawBits32(b4)) == b4
    ensures EncodeBits64(RawBits64(b8)) == b8
  {
    BytesOfUnsigned(b4);
    BytesOfUnsigned(b8);
  }

  lemma DecodeEncodeLE32(x: Int32)
    ensures DecodeLE32(EncodeLE32(x)) == x
  {
    DecodeEncodeBits(Pattern32(x), 0);
  }

  lemma EncodeDecodeLE32(bs: seq<Byte>)
    requires |bs| == 4
    ensures EncodeLE32(DecodeLE32(bs)) == bs
  {
    EncodeDecodeBits(bs, [0, 0, 0, 0, 0, 0, 0, 0]);
  }

  lemma DecodeEncodeLE64(x: Int64)
    ensures DecodeLE64(EncodeLE64(x)) == x
  {
    DecodeEncodeBits(0, Pattern64(x));
  }

  lemma EncodeDecodeLE64(bs: seq<Byte>)
    requires |bs| == 8
    ensures EncodeLE64(DecodeLE64(bs)) == bs
  {
    EncodeDecodeBits([0, 0, 0, 0], bs);
  }

  /** Concrete layouts: -1 is four 0xFF bytes, 1 and 2147483647 as PLAIN
      writes them, and the 64-bit extremes. */
  lemma Int32Examples()
    ensures DecodeLE32([0xFF, 0xFF, 0xFF, 0xFF]) == -1
    ensures EncodeLE32(1) == [0x01, 0x00, 0x00, 0x00]
    ensures EncodeLE32(-1) == [0xFF, 0xFF, 0xFF, 0xFF]
    ensures EncodeLE32(2147483647) == [0xFF, 0xFF, 0xFF, 0x7F]
    ensures DecodeLE32([0x00, 0x00, 0x00, 0x80]) == -2147483648
  {
  }

  lemma Int64Examples()
    ensures DecodeLE64([0xFF, 0xFF, 0xFF, 0xFF, 0xFF, 0xFF, 0xFF, 0xFF]) == -1
    ensures DecodeLE64([0xFF, 0xFF, 0xFF, 0xFF, 0xFF, 0xFF, 0xFF, 0x7F]) == 0x7FFF_FFFF_FFFF_FFFF
    ensures DecodeLE64([0x00, 0x00, 0x00, 0x00, 0x00, 0x00, 0x00, 0x80]) == -0x8000_0000_0000_0000
  {
    RawBits64Formula([0xFF, 0xFF, 0xFF, 0xFF, 0xFF, 0xFF, 0xFF, 0xFF]);
    RawBits64Formula([0xFF, 0xFF, 0xFF, 0xFF, 0xFF, 0xFF, 0xFF, 0x7F]);
    RawBits64Formula([0x00, 0x00, 0x00, 0x00, 0x00, 0x00, 0x00, 0x80]);
  }
}
