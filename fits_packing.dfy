/**
 * FITS binary packing: fixed-width unsigned and two's-complement integers written
 * most-significant byte first, and the matching decoders. The 16-, 32- and 64-bit
 * integers are two's complement as in sections 5.2.2 to 5.2.4 of the FITS Standard
 * 4.0. A TINYINT is written as Java's two's-complement byte, which FITS reads as an
 * unsigned 8-bit integer (section 5.2.1) unless a TZERO keyword shifts it.
 */
module FitsPacking {

  type Byte = b: int | 0 <= b < 256

  /** 256^w: the number of distinct values of a w-byte field. */
  function Pow256(w: nat): (p: nat)
    ensures p >= 1
  {
    if w == 0 then 1 else 256 * Pow256(w - 1)
  }

  /** The w-byte big-endian representation of x. */
  function BigEndian(x: nat, w: nat): (r: seq<Byte>)
    requires x < Pow256(w)
    ensures |r| == w
  {
    if w == 0 then [] else BigEndian(x / 256, w - 1) + [x % 256]
  }

  /** The unsigned value of a big-endian byte string. */
  function UnsignedOf(bs: seq<Byte>): (x: nat)
    ensures x < Pow256(|bs|)
  {
    if bs == [] then 0 else UnsignedOf(bs[..|bs| - 1]) * 256 + bs[|bs| - 1]
  }

  /** Reading back a big-endian field gives the value that was written. */
  lemma {:induction false} UnsignedRoundTrip(x: nat, w: nat)
    requires x < Pow256(w)
    ensures UnsignedOf(BigEndian(x, w)) == x
  {
    if w > 0 {
      var r := BigEndian(x, w);
      assert r[..w - 1] == BigEndian(x / 256, w - 1);
      UnsignedRoundTrip(x / 256, w - 1);
    }
  }

  /** Writing the value of a byte string reproduces the byte string. */
  lemma {:induction false} BigEndianOfUnsigned(bs: seq<Byte>)
    ensures BigEndian(UnsignedOf(bs), |bs|) == bs
  {
    if bs != [] {
      var n := |bs|;
      var x := UnsignedOf(bs);
      assert x / 256 == UnsignedOf(bs[..n - 1]) && x % 256 == bs[n - 1];
      BigEndianOfUnsigned(bs[..n - 1]);
      assert bs == bs[..n - 1] + [bs[n - 1]];
    }
  }

  /** Half the values of a w-byte field: 2^(8w - 1). */
  function Half(w: nat): (h: nat)
    requires w >= 1
    ensures h >= 128 && Pow256(w) == 2 * h
  {
    128 * Pow256(w - 1)
  }

  /** The powers the four Java integer widths use. */
  lemma Pow256Values()
    ensures Pow256(1) == 0x100 && Pow256(2) == 0x1_0000 && Pow256(4) == 0x1_0000_0000
    ensures Pow256(8) == 0x1_0000_0000_0000_0000
  {
    assert Pow256(3) == 0x100_0000;
    assert Pow256(5) == 0x100_0000_0000;
    assert Pow256(6) == 0x1_0000_0000_0000;
    assert Pow256(7) == 0x100_0000_0000_0000;
  }

  /** The smallest value of a w-byte signed integer. */
  function SignedMin(w: nat): int
    requires w >= 1
  {
    -(Half(w) as int)
  }

  /** v fits a w-byte signed integer: from SignedMin(w) up to, but not including, Half(w). */
  predicate InSignedRange(v: int, w: nat)
    requires w >= 1
  {
    SignedMin(w) <= v < Half(w)
  }

  /** The unsigned bit pattern of a w-byte two's-complement integer. */
  function TwosComplement(v: int, w: nat): (u: nat)
    requires w >= 1 && InSignedRange(v, w)
    ensures u < Pow256(w)
    ensures v >= 0 ==> u == v
    ensures v < 0 ==> u >= Half(w) && u - Pow256(w) == v
  {
    if v >= 0 then v else v + Pow256(w)
  }

  /** The signed value of a w-byte two's-complement bit pattern. */
  function SignedOf(u: nat, w: nat): (v: int)
    requires w >= 1 && u < Pow256(w)
    ensures InSignedRange(v, w)
  {
    if u < Half(w) then u else u - Pow256(w)
  }

  /** A signed integer packed as FITS does it: two's complement, most-significant byte first. */
  function PackSigned(v: int, w: nat): (r: seq<Byte>)
    requires w >= 1 && InSignedRange(v, w)
    ensures |r| == w
  {
    BigEndian(TwosComplement(v, w), w)
  }

  /** Decoder of a packed signed integer field. */
  function UnpackSigned(bs: seq<Byte>): (v: int)
    requires |bs| >= 1
    ensures InSignedRange(v, |bs|)
  {
    SignedOf(UnsignedOf(bs), |bs|)
  }

  /** Every representable signed integer decodes back to itself. */
  lemma SignedRoundTrip(v: int, w: nat)
    requires w >= 1 && InSignedRange(v, w)
    ensures UnpackSigned(PackSigned(v, w)) == v
  {
    UnsignedRoundTrip(TwosComplement(v, w), w);
  }

  /** The most-significant byte carries the sign: it is at least 0x80 exactly for negatives. */
  lemma SignByte(v: int, w: nat)
    requires w >= 1 && InSignedRange(v, w)
    ensures (PackSigned(v, w)[0] >= 128) <==> v < 0
  {
    TopByte(TwosComplement(v, w), w);
  }

  lemma {:induction false} TopByte(x: nat, w: nat)
    requires w >= 1 && x < Pow256(w)
    ensures (BigEndian(x, w)[0] >= 128) <==> x >= Half(w)
  {
    if w > 1 {
      var h := Half(w - 1);
      assert Half(w) == 256 * h;
      assert x >= 256 * h <==> x / 256 >= h;
      TopByte(x / 256, w - 1);
    }
  }

  /** Multiplying by 256 appends one zero byte to the big-endian pattern. */
  lemma ZeroByte(x: nat, w: nat)
    requires x < Pow256(w)
    ensures x * 256 < Pow256(w + 1)
    ensures BigEndian(x * 256, w + 1) == BigEndian(x, w) + [0]
  {
    assert (x * 256) / 256 == x && (x * 256) % 256 == 0;
  }

  /** n zero bytes. */
  function Zeros(n: nat): (r: seq<Byte>)
    ensures |r| == n && forall k :: 0 <= k < n ==> r[k] == 0
  {
    seq(n, _ => 0)
  }

  /** Zero is w zero bytes, whether read as signed or unsigned. */
  lemma {:induction false} ZeroPattern(w: nat)
    ensures BigEndian(0, w) == Zeros(w)
    ensures w >= 1 ==> PackSigned(0, w) == Zeros(w)
  {
    if w > 0 {
      ZeroPattern(w - 1);
      assert Zeros(w - 1) + [0] == Zeros(w);
    }
  }

  /** The minimum value is 0x80 followed by zero bytes; FITS uses it for null integers. */
  lemma MinimumPattern(w: nat)
    requires w >= 1
    ensures PackSigned(SignedMin(w), w) == [128] + Zeros(w - 1)
  {
    assert TwosComplement(SignedMin(w), w) == Half(w);
    HalfPattern(w);
  }

  lemma {:induction false} HalfPattern(w: nat)
    requires w >= 1
    ensures BigEndian(Half(w), w) == [128] + Zeros(w - 1)
  {
    var u := Half(w);
    if w == 1 {
      assert u == 128;
      assert BigEndian(u, 1) == BigEndian(0, 0) + [128];
    } else {
      var h := Half(w - 1);
      assert u == 256 * h;
      assert u / 256 == h && u % 256 == 0;
      HalfPattern(w - 1);
      assert BigEndian(u, w) == [128] + Zeros(w - 2) + [0];
      assert [128] + Zeros(w - 2) + [0] == [128] + Zeros(w - 1);
    }
  }
}
