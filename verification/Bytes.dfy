/** Bytes and the fixed-width little-endian encoding of machine integers. */
module Bytes {
  import opened Results

  type byte = x: int | 0 <= x < 256

  /** One more than the largest value of a width. */
  function Limit(width: nat): (limit: nat)
    ensures limit > 0
  {
    if width == 0 then 1 else 256 * Limit(width - 1)
  }

  function LittleEndian(value: nat, width: nat): (bytes: seq<byte>)
    ensures |bytes| == width
  {
    if width == 0 then [] else [value % 256] + LittleEndian(value / 256, width - 1)
  }

  function FromLittleEndian(bytes: seq<byte>): nat {
    if bytes == [] then 0 else bytes[0] + 256 * FromLittleEndian(bytes[1..])
  }

  /** Decoding inverts encoding for every value of the width. */
  lemma {:induction false} LittleEndianRoundTrip(value: nat, width: nat)
    requires value < Limit(width)
    ensures FromLittleEndian(LittleEndian(value, width)) == value
  {
    if width > 0 {
      LittleEndianRoundTrip(value / 256, width - 1);
      assert LittleEndian(value, width)[1..] == LittleEndian(value / 256, width - 1);
    }
  }

  /** Encoding inverts decoding, and every decoded value is one of the width. */
  lemma {:induction false} LittleEndianExact(bytes: seq<byte>)
    ensures FromLittleEndian(bytes) < Limit(|bytes|)
    ensures LittleEndian(FromLittleEndian(bytes), |bytes|) == bytes
  {
    if bytes != [] {
      LittleEndianExact(bytes[1..]);
      assert bytes == [bytes[0]] + bytes[1..];
    }
  }

  lemma Limits()
    ensures Limit(1) == 256 && Limit(2) == 0x1_0000 && Limit(4) == U32_MAX + 1
    ensures Limit(8) == U64_MAX + 1 && Limit(16) == U128_MAX + 1
  {
    assert Limit(0) == 1;
    assert Limit(1) == 256;
    assert Limit(2) == 0x1_0000;
    assert Limit(3) == 0x100_0000;
    assert Limit(4) == 0x1_0000_0000;
    assert Limit(5) == 0x100_0000_0000;
    assert Limit(6) == 0x1_0000_0000_0000;
    assert Limit(7) == 0x100_0000_0000_0000;
    assert Limit(8) == 0x1_0000_0000_0000_0000;
    assert Limit(9) == 256 * Limit(8);
    assert Limit(10) == 256 * Limit(9);
    assert Limit(11) == 256 * Limit(10);
    assert Limit(12) == 256 * Limit(11);
    assert Limit(13) == 256 * Limit(12);
    assert Limit(14) == 256 * Limit(13);
    assert Limit(15) == 256 * Limit(14);
    assert Limit(16) == 256 * Limit(15);
  }

  /** Two's complement of a signed 64-bit value. */
  function Unsigned64(x: int): (u: int)
    requires FitsI64(x)
    ensures FitsU64(u)
  {
    if x >= 0 then x else x + U64_MAX + 1
  }

  function Signed64(u: int): (x: int)
    requires FitsU64(u)
    ensures FitsI64(x) && Unsigned64(x) == u
  {
    if u <= I64_MAX then u else u - U64_MAX - 1
  }

  lemma SignedRoundTrip(x: int)
    requires FitsI64(x)
    ensures Signed64(Unsigned64(x)) == x
  {
  }
}
