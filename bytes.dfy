/**
 * Bytes and the fixed-width integers of the platform: the `(int)` cast of a 64-bit
 * offset, and the 8-byte little-endian two's-complement form of a 64-bit value.
 */
module Bytes {
  newtype byte = b: int | 0 <= b < 256

  const TwoTo31: int := 0x8000_0000
  const TwoTo63: int := 0x8000_0000_0000_0000
  const TwoTo64: int := 0x1_0000_0000_0000_0000

  /** The unchecked conversion of an integer to a signed 32-bit `int`: two's-complement
      wrap-around. */
  function Int32(x: int): (r: int)
    ensures -TwoTo31 <= r < TwoTo31
    ensures -TwoTo31 <= x < TwoTo31 ==> r == x
  {
    (x + TwoTo31) % (2 * TwoTo31) - TwoTo31
  }

  /** The cast keeps the low 32 bits: the result differs from the input by a multiple
      of 2^32, so it is the one value in the `int` range congruent to the input. */
  lemma Int32Wraps(x: int, y: int)
    ensures (Int32(x) - x) % (2 * TwoTo31) == 0
    ensures -TwoTo31 <= y < TwoTo31 && (y - x) % (2 * TwoTo31) == 0 ==> Int32(x) == y
  {
    var q := (x + TwoTo31) / (2 * TwoTo31);
    assert x + TwoTo31 == q * (2 * TwoTo31) + (Int32(x) + TwoTo31);
    assert Int32(x) - x == -q * (2 * TwoTo31);
    if -TwoTo31 <= y < TwoTo31 && (y - x) % (2 * TwoTo31) == 0 {
      var e := (y - x) / (2 * TwoTo31);
      assert y - x == e * (2 * TwoTo31);
      assert y - Int32(x) == (e + q) * (2 * TwoTo31);
      SmallMultipleIsZero(e + q, 2 * TwoTo31);
    }
  }

  /** The only multiple of a positive `m` strictly between `-m` and `m` is zero. */
  lemma SmallMultipleIsZero(d: int, m: int)
    requires m > 0 && -m < d * m < m
    ensures d == 0
  {
  }

  /** The unchecked conversion of an integer to a signed 64-bit `long`. */
  function Int64(x: int): (r: int)
    ensures -TwoTo63 <= r < TwoTo63
    ensures -TwoTo63 <= x < TwoTo63 ==> r == x
  {
    (x + TwoTo63) % TwoTo64 - TwoTo63
  }

  function Pow256(n: nat): (r: nat)
    ensures r > 0
  {
    if n == 0 then 1 else 256 * Pow256(n - 1)
  }

  lemma Pow256Eight()
    ensures Pow256(8) == TwoTo64
  {
    assert Pow256(1) == 256;
    assert Pow256(2) == 0x1_0000;
    assert Pow256(3) == 0x100_0000;
    assert Pow256(4) == 0x1_0000_0000;
    assert Pow256(5) == 0x100_0000_0000;
    assert Pow256(6) == 0x1_0000_0000_0000;
    assert Pow256(7) == 0x100_0000_0000_0000;
  }

  /** The `n` low-order bytes of `u`, least significant first. */
  function LE(u: nat, n: nat): (r: seq<byte>)
    ensures |r| == n
  {
    if n == 0 then [] else [(u % 256) as byte] + LE(u / 256, n - 1)
  }

  /** The unsigned number whose little-endian bytes are `bs`. */
  function FromLE(bs: seq<byte>): (r: nat)
    ensures r < Pow256(|bs|)
  {
    if |bs| == 0 then 0 else bs[0] as nat + 256 * FromLE(bs[1..])
  }

  lemma {:induction false} FromLEOfLE(u: nat, n: nat)
    requires u < Pow256(n)
    ensures FromLE(LE(u, n)) == u
  {
    if n > 0 {
      FromLEOfLE(u / 256, n - 1);
      assert LE(u, n)[1..] == LE(u / 256, n - 1);
    }
  }

  lemma {:induction false} LEOfFromLE(bs: seq<byte>)
    ensures LE(FromLE(bs), |bs|) == bs
  {
    if |bs| > 0 {
      LEOfFromLE(bs[1..]);
      var u := FromLE(bs);
      assert u % 256 == bs[0] as int;
      assert u / 256 == FromLE(bs[1..]);
      assert LE(u, |bs|) == [bs[0]] + bs[1..];
    }
  }

  /** `BitConverter.GetBytes(long)` on a little-endian machine: the 8 bytes of the
      two's-complement form of `v`, least significant first. A value outside the
      64-bit range is the wrapped value the platform's `long` arithmetic would hold. */
  function EncodeLong(v: int): (r: seq<byte>)
    ensures |r| == 8
  {
    LE(v % TwoTo64, 8)
  }

  /** The signed 64-bit value stored in 8 little-endian bytes. */
  function DecodeLong(bs: seq<byte>): (r: int)
    requires |bs| == 8
    ensures -TwoTo63 <= r < TwoTo63
  {
    Pow256Eight();
    var u := FromLE(bs);
    if u < TwoTo63 then u else u - TwoTo64
  }

  /** Reading back an encoded value gives that value wrapped to 64 bits. */
  lemma DecodeEncodeLong(v: int)
    ensures DecodeLong(EncodeLong(v)) == Int64(v)
  {
    Pow256Eight();
    FromLEOfLE(v % TwoTo64, 8);
    Int64OfMod(v);
  }

  /** The 64-bit wrap of `v` read off its remainder modulo 2^64. */
  lemma Int64OfMod(v: int)
    ensures Int64(v) == if v % TwoTo64 < TwoTo63 then v % TwoTo64 else v % TwoTo64 - TwoTo64
  {
    var q := v % TwoTo64;
    var k := v / TwoTo64;
    assert v == k * TwoTo64 + q;
    if q < TwoTo63 {
      assert v + TwoTo63 == k * TwoTo64 + (q + TwoTo63);
      assert (v + TwoTo63) % TwoTo64 == q + TwoTo63;
    } else {
      assert v + TwoTo63 == (k + 1) * TwoTo64 + (q - TwoTo63);
      assert (v + TwoTo63) % TwoTo64 == q - TwoTo63;
    }
  }

  /** Every 8 bytes are the encoding of the value they hold. */
  lemma EncodeDecodeLong(bs: seq<byte>)
    requires |bs| == 8
    ensures EncodeLong(DecodeLong(bs)) == bs
  {
    Pow256Eight();
    LEOfFromLE(bs);
    var u := FromLE(bs);
    assert DecodeLong(bs) % TwoTo64 == u;
  }

  /** A value and its 64-bit wrap have the same encoding. */
  lemma EncodeLongWraps(v: int)
    ensures EncodeLong(Int64(v)) == EncodeLong(v)
  {
    Int64Mod(v);
  }

  lemma Int64Mod(v: int)
    ensures Int64(v) % TwoTo64 == v % TwoTo64
  {
    var q := v % TwoTo64;
    var k := v / TwoTo64;
    assert v == k * TwoTo64 + q;
    assert v + TwoTo63 == k * TwoTo64 + (q + TwoTo63);
    if q < TwoTo63 {
      assert (v + TwoTo63) % TwoTo64 == q + TwoTo63;
    } else {
      assert v + TwoTo63 == (k + 1) * TwoTo64 + (q - TwoTo63);
      assert (v + TwoTo63) % TwoTo64 == q - TwoTo63;
    }
  }

  /** Two values have the same encoding exactly when they agree as 64-bit values. */
  lemma EncodeLongInjective(v: int, w: int)
    ensures EncodeLong(v) == EncodeLong(w) <==> Int64(v) == Int64(w)
  {
    DecodeEncodeLong(v);
    DecodeEncodeLong(w);
    EncodeLongWraps(v);
    EncodeLongWraps(w);
  }
}
