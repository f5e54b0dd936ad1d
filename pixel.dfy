/**
 * The arithmetic `ARGB_SetRGB` applies to one pixel before storing it:
 * index wrap-around, brightness division, gamma scaling of green and blue,
 * and the green-red-blue byte order of the pixel buffer.
 */
module Pixel {
  import opened Types

  /** `USE_GAMMA_CORRECTION` is defined as 1. */
  const UseGammaCorrection: bool := true

  /** Gamma coefficients passed to `scale8` for green and blue. */
  const GammaGreen: u8 := 0xB0
  const GammaBlue: u8 := 0xF0

  /**
   * Overflow protection: an index at or past the strip length is reduced by
   * subtracting the largest whole multiple of the length, so it aliases a
   * pixel rather than failing.
   */
  function WrapIndex(i: u16, n: u16): (p: u16)
    requires n > 0
    ensures p < n
    ensures p == i % n
    ensures i < n ==> p == i
  {
    if i >= n then
      WrapStep(i, n);
      var q: u16 := i / n;
      i - q * n
    else
      DivModUnique(i, n, 0, i);
      i
  }

  /** The quotient of a 16-bit index fits 16 bits and the remainder is what is left after subtracting it. */
  lemma WrapStep(i: u16, n: u16)
    requires n > 0
    ensures 0 <= i / n <= i
    ensures i - (i / n) * n == i % n
  {
    DivAntitone(i, 1, n);
  }

  /** Indices one strip length apart address the same pixel; in particular index N aliases index 0. */
  lemma WrapAlias(i: u16, n: u16)
    requires n > 0 && i + n < 0x1_0000
    ensures WrapIndex(i + n, n) == WrapIndex(i, n)
    ensures WrapIndex(n, n) == 0
  {
    var q := i / n;
    assert i + n == (q + 1) * n + i % n;
    DivModUnique(i + n, n, q + 1, i % n);
    DivModUnique(n, n, 1, 0);
  }

  /** Quotient and remainder are the only ones: `x == q * n + r` with `r < n` fixes both. */
  lemma DivModUnique(x: nat, n: nat, q: nat, r: nat)
    requires n > 0 && r < n && x == q * n + r
    ensures x / n == q && x % n == r
  {
    var k, m := x / n, x % n;
    var d := k - q;
    assert d * n == r - m by {
      assert k * n + m == q * n + r;
      assert d * n == k * n - q * n;
    }
    assert d == 0;
  }

  /** The brightness divisor `256 / (brightness + 1)`. */
  function Divisor(brightness: u8): (d: int)
    ensures 1 <= d <= 256
    ensures d == 1 <==> brightness >= 128
    ensures d == 256 <==> brightness == 0
  {
    256 / (brightness + 1)
  }

  /** A channel after brightness scaling: `c /= 256 / (brightness + 1)`. */
  function Dim(c: u8, brightness: u8): (r: u8)
    ensures r <= c
    ensures brightness == 255 ==> r == c
    ensures brightness == 0 ==> r == 0
  {
    DivAntitone(c, 1, Divisor(brightness));
    c / Divisor(brightness)
  }

  /** `scale8`: `(x * scale) >> 8`, computed without overflow in 16 bits. */
  function Scale8(x: u8, scale: u8): (r: u8)
    ensures r <= x
    ensures x > 0 && scale == 0xFF ==> r == x - 1
  {
    Product16Bound(x, scale);
    var wide: u16 := x * scale;
    wide / 0x100
  }

  /** The product of two bytes fits 16 bits and shifted right by 8 never exceeds the first. */
  lemma Product16Bound(x: u8, scale: u8)
    ensures 0 <= x * scale <= 0xFF * 0xFF
    ensures (x * scale) / 0x100 <= x
  {
    assert x * scale <= x * 0xFF;
    assert x * 0xFF <= 0xFF * 0xFF;
  }

  /** One stored pixel: its three bytes in wire order (green, red, blue). */
  datatype Grb = Grb(g: u8, r: u8, b: u8)
  {
    /** The bytes in the order they are stored and transmitted. */
    function Bytes(): (s: seq<u8>)
      ensures |s| == 3 && s[0] == g && s[1] == r && s[2] == b
    {
      [g, r, b]
    }
  }

  /**
   * The triple `ARGB_SetRGB` stores for colour (r, g, b) at a given brightness:
   * every channel is divided by the brightness divisor, then green and blue go
   * through `scale8` when gamma correction is on; red never does.
   */
  function ScalePixel(r: u8, g: u8, b: u8, brightness: u8): (px: Grb)
    ensures px.r == Dim(r, brightness)
    ensures px.g <= Dim(g, brightness) && px.b <= Dim(b, brightness)
    ensures px.r <= r && px.g <= g && px.b <= b
  {
    var r1, g1, b1 := Dim(r, brightness), Dim(g, brightness), Dim(b, brightness);
    if UseGammaCorrection then Grb(Scale8(g1, GammaGreen), r1, Scale8(b1, GammaBlue))
    else Grb(g1, r1, b1)
  }

  /** Black stays black at every brightness. */
  lemma ScaleBlack(brightness: u8)
    ensures ScalePixel(0, 0, 0, brightness) == Grb(0, 0, 0)
  {
  }

  /** Brightness 0 turns every colour fully off, since the divisor is 256. */
  lemma ScaleAtZeroBrightness(r: u8, g: u8, b: u8)
    ensures ScalePixel(r, g, b, 0) == Grb(0, 0, 0)
  {
  }

  /** At full brightness only the gamma curve changes a colour. */
  lemma ScaleAtFullBrightness(r: u8, g: u8, b: u8)
    ensures ScalePixel(r, g, b, 255) == Grb(Scale8(g, GammaGreen), r, Scale8(b, GammaBlue))
  {
  }

  /** If `q * d <= x` then `q` is at most the quotient `x / d`. */
  lemma QuotientAtLeast(x: nat, d: nat, q: nat)
    requires d > 0 && q * d <= x
    ensures q <= x / d
  {
    var k := x / d;
    assert x < (k + 1) * d;
  }

  /** A larger divisor never gives a larger quotient. */
  lemma DivAntitone(x: nat, d1: nat, d2: nat)
    requires 0 < d1 <= d2
    ensures x / d2 <= x / d1
  {
    var q := x / d2;
    assert q * d2 <= x;
    MulMonotone(d1, d2, q);
    QuotientAtLeast(x, d1, q);
  }

  /** Raising the brightness never raises the divisor. */
  lemma DivisorAntitone(b1: u8, b2: u8)
    requires b1 <= b2
    ensures Divisor(b2) <= Divisor(b1)
  {
    DivAntitone(256, b1 + 1, b2 + 1);
  }

  /** Brightness scaling is monotonic: a higher brightness never stores a smaller channel. */
  lemma DimMonotone(c: u8, b1: u8, b2: u8)
    requires b1 <= b2
    ensures Dim(c, b1) <= Dim(c, b2)
  {
    DivisorAntitone(b1, b2);
    DivAntitone(c, Divisor(b2), Divisor(b1));
  }

  /** `scale8` is monotonic in the value it scales. */
  lemma Scale8Monotone(x1: u8, x2: u8, scale: u8)
    requires x1 <= x2
    ensures Scale8(x1, scale) <= Scale8(x2, scale)
  {
    var w1, w2 := x1 * scale, x2 * scale;
    assert w1 <= w2 by {
      MulMonotone(x1, x2, scale);
    }
    assert w1 / 0x100 <= w2 / 0x100;
  }

  /** Multiplying by the same factor keeps the order. */
  lemma MulMonotone(a: nat, b: nat, c: nat)
    requires a <= b
    ensures a * c <= b * c
  {
    var d := b - a;
    assert b * c == a * c + d * c;
  }

  /** Every stored channel is monotonic in brightness, gamma included. */
  lemma ScalePixelMonotone(r: u8, g: u8, b: u8, b1: u8, b2: u8)
    requires b1 <= b2
    ensures ScalePixel(r, g, b, b1).r <= ScalePixel(r, g, b, b2).r
    ensures ScalePixel(r, g, b, b1).g <= ScalePixel(r, g, b, b2).g
    ensures ScalePixel(r, g, b, b1).b <= ScalePixel(r, g, b, b2).b
  {
    DimMonotone(r, b1, b2);
    DimMonotone(g, b1, b2);
    DimMonotone(b, b1, b2);
    Scale8Monotone(Dim(g, b1), Dim(g, b2), GammaGreen);
    Scale8Monotone(Dim(b, b1), Dim(b, b2), GammaBlue);
  }

  /**
   * The pixel buffer after storing `px` at pixel `p`: bytes 3p, 3p+1, 3p+2 hold
   * green, red, blue and every other byte is as before.
   */
  function PutPixel(buf: seq<u8>, p: nat, px: Grb): (res: seq<u8>)
    requires 3 * p + 3 <= |buf|
    ensures |res| == |buf|
    ensures res[3 * p .. 3 * p + 3] == px.Bytes()
    ensures forall k :: 0 <= k < |buf| && (k < 3 * p || 3 * p + 3 <= k) ==> res[k] == buf[k]
  {
    buf[3 * p := px.g][3 * p + 1 := px.r][3 * p + 2 := px.b]
  }

  /** Storing the same pixel twice leaves the buffer as storing it once. */
  lemma PutPixelIdempotent(buf: seq<u8>, p: nat, px: Grb)
    requires 3 * p + 3 <= |buf|
    ensures PutPixel(PutPixel(buf, p, px), p, px) == PutPixel(buf, p, px)
  {
    var once := PutPixel(buf, p, px);
    var twice := PutPixel(once, p, px);
    forall k | 0 <= k < |buf| ensures twice[k] == once[k] {
      if 3 * p <= k < 3 * p + 3 {
        assert twice[k] == twice[3 * p .. 3 * p + 3][k - 3 * p];
        assert once[k] == once[3 * p .. 3 * p + 3][k - 3 * p];
      }
    }
  }

  /** `n` copies of one pixel, as `ARGB_FillRGB` leaves the buffer. */
  function Repeat(px: Grb, n: nat): (res: seq<u8>)
    ensures |res| == 3 * n
  {
    if n == 0 then [] else Repeat(px, n - 1) + px.Bytes()
  }

  /** Every pixel of a repeated buffer holds the same triple. */
  lemma {:induction false} RepeatAt(px: Grb, n: nat, k: nat)
    requires k < 3 * n
    ensures Repeat(px, n)[k] == px.Bytes()[k % 3]
  {
    if k < 3 * (n - 1) {
      RepeatAt(px, n - 1, k);
    }
  }
}
