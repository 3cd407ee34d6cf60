/** Octets and the big-endian integers that TPM wire formats are built from. */
module Bytes {

  type byte = x: int | 0 <= x < 256

  /** The number of values a `width`-byte unsigned integer can take. */
  function Pow256(width: nat): (p: nat)
    ensures p >= 1
  {
    if width == 0 then 1 else 256 * Pow256(width - 1)
  }

  const U16_COUNT: nat := 0x1_0000
  const U32_COUNT: nat := 0x1_0000_0000

  type u32 = x: nat | x < U32_COUNT

  lemma Pow256Values()
    ensures Pow256(1) == 256 && Pow256(2) == U16_COUNT && Pow256(4) == U32_COUNT
    ensures Pow256(8) == U32_COUNT * U32_COUNT
  {
    assert Pow256(1) == 256 && Pow256(2) == 0x1_0000 && Pow256(3) == 0x100_0000;
    assert Pow256(4) == U32_COUNT && Pow256(5) == 256 * U32_COUNT;
    assert Pow256(6) == 0x1_0000 * U32_COUNT && Pow256(7) == 0x100_0000 * U32_COUNT;
  }

  /** The `width` low-order bytes of `n`, most significant first. */
  function BigEndian(width: nat, n: nat): (bs: seq<byte>)
    ensures |bs| == width
  {
    if width == 0 then [] else BigEndian(width - 1, n / 256) + [n % 256]
  }

  function FromBigEndian(bs: seq<byte>): nat {
    if bs == [] then 0 else 256 * FromBigEndian(bs[..|bs| - 1]) + bs[|bs| - 1]
  }

  lemma {:induction false} FromBigEndianBound(bs: seq<byte>)
    ensures FromBigEndian(bs) < Pow256(|bs|)
  {
    if bs != [] {
      FromBigEndianBound(bs[..|bs| - 1]);
    }
  }

  /** Reading back a written integer gives it again, if it fits. */
  lemma {:induction false} BigEndianRoundTrip(width: nat, n: nat)
    requires n < Pow256(width)
    ensures FromBigEndian(BigEndian(width, n)) == n
  {
    if width != 0 {
      BigEndianRoundTrip(width - 1, n / 256);
      var bs := BigEndian(width, n);
      assert bs[..|bs| - 1] == BigEndian(width - 1, n / 256);
    }
  }

  /** Writing back a read integer reproduces the bytes. */
  lemma {:induction false} FromBigEndianRoundTrip(bs: seq<byte>)
    ensures BigEndian(|bs|, FromBigEndian(bs)) == bs
  {
    if bs != [] {
      FromBigEndianRoundTrip(bs[..|bs| - 1]);
      assert bs == bs[..|bs| - 1] + [bs[|bs| - 1]];
    }
  }

  function Zeros(n: nat): (bs: seq<byte>)
    ensures |bs| == n
  {
    seq(n, _ => 0)
  }

  /** The least significant byte comes last. */
  lemma LowByte(width: nat, n: nat)
    ensures BigEndian(width + 1, n) == BigEndian(width, n / 256) + [n % 256]
  {
  }

  lemma BigEndianTwo(n: nat)
    requires n < U16_COUNT
    ensures BigEndian(2, n) == [n / 256, n % 256]
  {
    assert BigEndian(1, n / 256) == [n / 256 % 256];
  }

  lemma BigEndianFour(n: nat)
    requires n < U32_COUNT
    ensures BigEndian(4, n) == [n / 0x100_0000, n / 0x1_0000 % 256, n / 256 % 256, n % 256]
  {
    assert BigEndian(1, n / 0x100_0000) == [n / 0x100_0000 % 256];
    assert BigEndian(2, n / 0x1_0000) == [n / 0x100_0000, n / 0x1_0000 % 256];
    assert BigEndian(3, n / 256) == [n / 0x100_0000, n / 0x1_0000 % 256, n / 256 % 256];
  }

  /** The fewest bytes that hold a number of bits. */
  function BytesFor(bits: nat): (n: nat)
    ensures bits <= 8 * n < bits + 8
  {
    (bits + 7) / 8
  }
}
