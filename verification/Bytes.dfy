/** Octets, fixed-width integers and the big-endian blobs of the ZRTP cache. */
module Bytes {

  datatype Option<+T> = None | Some(value: T) {
    function GetOr(default: T): T { if None? then default else value }
  }

  predicate NoDup<T(==)>(xs: seq<T>) { forall i, j | 0 <= i < j < |xs| :: xs[i] != xs[j] }

  type byte = x: int | 0 <= x < 256
  type Blob = seq<byte>

  const TWO_32: int := 0x1_0000_0000
  const TWO_63: int := 0x8000_0000_0000_0000
  const TWO_64: int := 0x1_0000_0000_0000_0000

  type uint32 = x: int | 0 <= x < TWO_32
  type int64 = x: int | -TWO_63 <= x < TWO_63

  /** 256 to the power `k`. */
  function Pow256(k: nat): (p: nat)
    ensures p > 0
  {
    if k == 0 then 1 else 256 * Pow256(k - 1)
  }

  /** The `k` low-order octets of `n`, most significant first. */
  function BigEndian(n: nat, k: nat): (b: Blob)
    ensures |b| == k
    decreases k
  {
    if k == 0 then [] else BigEndian(n / 256, k - 1) + [n % 256]
  }

  /** The number a big-endian blob denotes. */
  function FromBigEndian(b: Blob): (n: nat)
    ensures n < Pow256(|b|)
  {
    if b == [] then 0 else 256 * FromBigEndian(b[..|b| - 1]) + b[|b| - 1]
  }

  /** Writing then reading is the identity on the numbers that fit. */
  lemma {:induction false} BigEndianRoundTrip(n: nat, k: nat)
    requires n < Pow256(k)
    ensures FromBigEndian(BigEndian(n, k)) == n
    decreases k
  {
    if k > 0 {
      BigEndianRoundTrip(n / 256, k - 1);
      assert BigEndian(n, k)[..k - 1] == BigEndian(n / 256, k - 1);
    }
  }

  /** Reading then writing is the identity on blobs, so the encoding loses nothing. */
  lemma {:induction false} FromBigEndianRoundTrip(b: Blob)
    ensures BigEndian(FromBigEndian(b), |b|) == b
  {
    if b != [] {
      FromBigEndianRoundTrip(b[..|b| - 1]);
      assert b == b[..|b| - 1] + [b[|b| - 1]];
    }
  }

  lemma Pow256Values()
    ensures Pow256(4) == TWO_32
    ensures Pow256(8) == TWO_64
  {
    assert Pow256(2) == 0x1_0000;
    assert Pow256(4) == TWO_32;
    assert Pow256(6) == 0x1_0000_0000_0000;
  }

  /** A uint32 as the 4-octet blob the cache stores: shifted and masked, most significant octet first. */
  function Be32(n: uint32): (b: Blob)
    ensures |b| == 4
  {
    [n / 0x100_0000 % 256, n / 0x1_0000 % 256, n / 0x100 % 256, n % 256]
  }

  function FromBe32(b: Blob): (n: uint32)
    requires |b| == 4
  {
    var b0: int, b1: int, b2: int, b3: int := b[0], b[1], b[2], b[3];
    b0 * 0x100_0000 + b1 * 0x1_0000 + b2 * 0x100 + b3
  }

  lemma Be32RoundTrip(n: uint32)
    ensures FromBe32(Be32(n)) == n
  {
    assert n / 0x1_0000 == n / 0x100_0000 * 256 + n / 0x1_0000 % 256;
    assert n / 0x100 == n / 0x1_0000 * 256 + n / 0x100 % 256;
  }

  /** An int64 in two's complement, as the cache stores a validity date. */
  function Be64(t: int64): (b: Blob)
    ensures |b| == 8
  {
    BigEndian(if t < 0 then t + TWO_64 else t, 8)
  }

  function FromBe64(b: Blob): (t: int64)
    requires |b| == 8
  {
    Pow256Values();
    var u := FromBigEndian(b);
    if u >= TWO_63 then u - TWO_64 else u
  }

  lemma Be64RoundTrip(t: int64)
    ensures FromBe64(Be64(t)) == t
  {
    Pow256Values();
    BigEndianRoundTrip(if t < 0 then t + TWO_64 else t, 8);
  }
}
