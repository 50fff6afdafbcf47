/** Fixed-width integer encodings over bytes. */
module Bytes {
  import opened Prelude

  type Byte = x: int | 0 <= x < 256

  const TWO_63: nat := 0x8000_0000_0000_0000
  const TWO_64: nat := 0x1_0000_0000_0000_0000
  const I64_MIN: int := -0x8000_0000_0000_0000

  predicate IsI64(i: int) { I64_MIN <= i < TWO_63 }

  function Pow256(width: nat): (p: nat)
    ensures p > 0
  {
    if width == 0 then 1 else 256 * Pow256(width - 1)
  }

  /** The `width` low-order bytes of `n`, most significant first. */
  function BigEndian(n: nat, width: nat): (bs: seq<Byte>)
    ensures |bs| == width
  {
    if width == 0 then [] else BigEndian(n / 256, width - 1) + [n % 256]
  }

  function FromBigEndian(bs: seq<Byte>): nat {
    if bs == [] then 0 else 256 * FromBigEndian(bs[..|bs| - 1]) + bs[|bs| - 1]
  }

  lemma Decompose(u: nat, p: nat)
    requires p > 0
    ensures u == u / p * p + u % p
  {
  }

  lemma DivUnique(u: nat, d: nat, q: nat, r: nat)
    requires u == q * d + r && r < d
    ensures u / d == q && u % d == r
  {
    Decompose(u, d);
    var k := u / d - q;
    assert k * d == r - u % d;
    AwayFromZero(k, d);
  }

  lemma AwayFromZero(k: int, d: int)
    requires d > 0
    ensures k >= 1 ==> k * d >= d
    ensures k <= -1 ==> k * d <= -d
  {
  }

  lemma DivDivides(n: nat, p: nat)
    requires p > 0
    ensures n / 256 / p == n / (256 * p)
  {
    var m := n / 256;
    Decompose(m, p);
    Regroup(m / p, p, m % p, n % 256);
    DivUnique(n, 256 * p, m / p, 256 * (m % p) + n % 256);
  }

  lemma Regroup(q: nat, p: nat, s: nat, r: nat)
    ensures 256 * (q * p + s) + r == q * (256 * p) + (256 * s + r)
  {
  }

  /** The byte `k` places from the right is the one of weight 256 to the `k`. */
  lemma {:induction false} BigEndianExactly(n: nat, width: nat, k: nat)
    requires k < width
    ensures BigEndian(n, width)[width - 1 - k] == n / Pow256(k) % 256
  {
    if k == 0 {
      assert Pow256(0) == 1;
    } else {
      BigEndianExactly(n / 256, width - 1, k - 1);
      DivDivides(n, Pow256(k - 1));
    }
  }

  lemma {:induction false} BigEndianRoundTrip(n: nat, width: nat)
    requires n < Pow256(width)
    ensures FromBigEndian(BigEndian(n, width)) == n
  {
    if width == 0 {
    } else {
      BigEndianRoundTrip(n / 256, width - 1);
      assert BigEndian(n, width)[..width - 1] == BigEndian(n / 256, width - 1);
    }
  }

  /** Reading never leaves the range that the width allows. */
  lemma {:induction false} FromBigEndianBound(bs: seq<Byte>)
    ensures FromBigEndian(bs) < Pow256(|bs|)
  {
    if bs != [] { FromBigEndianBound(bs[..|bs| - 1]); }
  }

  lemma Pow256Values()
    ensures Pow256(0) == 1 && Pow256(1) == 0x100 && Pow256(2) == 0x1_0000 && Pow256(3) == 0x100_0000
    ensures Pow256(4) == 0x1_0000_0000 && Pow256(8) == TWO_64
  {
    assert Pow256(4) == 256 * Pow256(3);
    assert Pow256(5) == 256 * Pow256(4);
    assert Pow256(6) == 256 * Pow256(5);
    assert Pow256(7) == 256 * Pow256(6);
  }

  /** Two's complement of width `width`. */
  function ToUnsigned(i: int, width: nat): (u: int) { if i < 0 then i + Pow256(width) else i }

  function ToSigned(u: nat, width: nat): (i: int) { if 2 * u >= Pow256(width) then u - Pow256(width) else u }

  /** The signed range of the given width. */
  predicate Fits(i: int, width: nat) { 0 <= 2 * i + Pow256(width) < 2 * Pow256(width) }

  function EncodeSigned(i: int, width: nat): (bs: seq<Byte>)
    requires Fits(i, width)
    ensures |bs| == width
  {
    BigEndian(ToUnsigned(i, width), width)
  }

  function DecodeSigned(bs: seq<Byte>): (i: int) { ToSigned(FromBigEndian(bs), |bs|) }

  lemma SignedRoundTrip(i: int, width: nat)
    requires Fits(i, width)
    ensures DecodeSigned(EncodeSigned(i, width)) == i
  {
    BigEndianRoundTrip(ToUnsigned(i, width), width);
  }

  /** `i64::to_be_bytes` and its checked inverse. */
  function EncodeI64(i: int): (bs: seq<Byte>)
    requires IsI64(i)
    ensures |bs| == 8
  {
    BigEndian(if i < 0 then i + TWO_64 else i, 8)
  }

  function DecodeI64(bs: seq<Byte>): Option<int> {
    if |bs| != 8 then None
    else Some(if FromBigEndian(bs) >= TWO_63 then FromBigEndian(bs) - TWO_64 else FromBigEndian(bs))
  }

  lemma I64RoundTrip(i: int)
    requires IsI64(i)
    ensures DecodeI64(EncodeI64(i)) == Some(i)
  {
    Pow256Values();
    BigEndianRoundTrip(if i < 0 then i + TWO_64 else i, 8);
  }

  /** Little-endian is the reverse, as used for counters. */
  function Reverse<T>(s: seq<T>): (r: seq<T>)
    ensures |r| == |s| && forall i :: 0 <= i < |s| ==> r[i] == s[|s| - 1 - i]
  {
    if s == [] then [] else Reverse(s[1..]) + [s[0]]
  }
}
