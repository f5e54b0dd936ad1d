/**
 * What the streaming engine puts on the wire, half buffer by half buffer.
 * Halves are numbered in the order they are staged: halves 0 and 1 are
 * staged by `ARGB_Show`, every later one by a DMA callback when the fill
 * cursor equals its number. Half k carries pixel k while k < N, and zeros
 * for the two reset halves N and N + 1.
 */
module Stream {
  import opened Types
  import opened Encoding

  /** The 24 compare values of pixel `p`: its three stored bytes encoded in order. */
  function PixelSlots(rgb: seq<u8>, p: nat, hi: u8, lo: u8): (s: seq<u32>)
    requires 3 * p + 3 <= |rgb|
    ensures |s| == HalfLen
  {
    EncodeBytes(rgb[3 * p .. 3 * p + 3], hi, lo)
  }

  /**
   * How the refill loop writes a pixel: slot i of its green, red and blue bytes
   * at offsets i, 8 + i and 16 + i of the half.
   */
  lemma PixelSlotsByByte(rgb: seq<u8>, p: nat, hi: u8, lo: u8)
    requires 3 * p + 3 <= |rgb|
    ensures PixelSlots(rgb, p, hi, lo) ==
      EncodeByte(rgb[3 * p], hi, lo) + EncodeByte(rgb[3 * p + 1], hi, lo) + EncodeByte(rgb[3 * p + 2], hi, lo)
  {
    var px := rgb[3 * p .. 3 * p + 3];
    var e0, e1, e2 := EncodeByte(px[0], hi, lo), EncodeByte(px[1], hi, lo), EncodeByte(px[2], hi, lo);
    assert px[1..][1..][1..] == [];
    assert EncodeBytes(px[1..][1..], hi, lo) == e2 + [] == e2;
    assert EncodeBytes(px[1..], hi, lo) == e1 + e2;
    assert EncodeBytes(px, hi, lo) == e0 + (e1 + e2);
    assert e0 + (e1 + e2) == e0 + e1 + e2;
  }

  /**
   * A half written slot by slot as the refill loops do it, slot i of bytes
   * x0, x1, x2 at offsets i, 8 + i and 16 + i, holds the three encoded bytes in order.
   */
  lemma Interleaved(half: seq<u32>, x0: u8, x1: u8, x2: u8, hi: u8, lo: u8)
    requires |half| == HalfLen
    requires forall k :: 0 <= k < 8 ==> half[k] == Slot(x0, k, hi, lo)
    requires forall k :: 0 <= k < 8 ==> half[k + 8] == Slot(x1, k, hi, lo)
    requires forall k :: 0 <= k < 8 ==> half[k + 16] == Slot(x2, k, hi, lo)
    ensures half == EncodeByte(x0, hi, lo) + EncodeByte(x1, hi, lo) + EncodeByte(x2, hi, lo)
  {
    var e0, e1, e2 := EncodeByte(x0, hi, lo), EncodeByte(x1, hi, lo), EncodeByte(x2, hi, lo);
    forall j | 0 <= j < HalfLen
      ensures half[j] == (e0 + e1 + e2)[j]
    {
      if j < 8 {
        assert half[j] == Slot(x0, j, hi, lo);
      } else if j < 16 {
        assert half[(j - 8) + 8] == Slot(x1, j - 8, hi, lo);
      } else {
        assert half[(j - 16) + 16] == Slot(x2, j - 16, hi, lo);
      }
    }
  }

  /** The first six bytes, encoded in one run, are pixels 0 and 1 one after the other. */
  lemma FirstTwoPixels(rgb: seq<u8>, hi: u8, lo: u8)
    requires |rgb| >= 6
    ensures EncodeBytes(rgb[..6], hi, lo) == PixelSlots(rgb, 0, hi, lo) + PixelSlots(rgb, 1, hi, lo)
  {
    assert rgb[..6] == rgb[0..3] + rgb[3..6];
    EncodeBytesAppend(rgb[0..3], rgb[3..6], hi, lo);
  }

  /** `n` zero compare values: the reset (latch) pattern, a constantly low line. */
  function Zeros(n: nat): (s: seq<u32>)
    ensures |s| == n && forall j :: 0 <= j < n ==> s[j] == 0
  {
    seq(n, _ => 0)
  }

  /** A transfer buffer whose two halves are zero is zero throughout. */
  lemma ZeroHalves(buf: seq<u32>)
    requires |buf| == PwmBufLen && buf[..HalfLen] == Zeros(HalfLen) && buf[HalfLen..] == Zeros(HalfLen)
    ensures buf == Zeros(PwmBufLen)
  {
    assert buf == buf[..HalfLen] + buf[HalfLen..];
  }

  /** The content of half number `k` of a frame of `n` pixels. */
  function HalfContent(rgb: seq<u8>, n: nat, k: nat, hi: u8, lo: u8): (s: seq<u32>)
    requires |rgb| == 3 * n && k < n + 2
    ensures |s| == HalfLen
  {
    if k < n then PixelSlots(rgb, k, hi, lo) else Zeros(HalfLen)
  }

  /** Halves 0 .. k - 1 one after another. */
  function Halves(rgb: seq<u8>, n: nat, k: nat, hi: u8, lo: u8): (s: seq<u32>)
    requires |rgb| == 3 * n && k <= n + 2
    ensures |s| == 24 * k
  {
    if k == 0 then [] else Halves(rgb, n, k - 1, hi, lo) + HalfContent(rgb, n, k - 1, hi, lo)
  }

  /**
   * Frame halves 0 .. k - 1, one sequence of compare values each. The same
   * halves as `Halves`, kept one per entry (`FlattenFrame`): a proof device
   * that lets a buffer half be compared with one entry at a time.
   */
  function Frame(rgb: seq<u8>, n: nat, k: nat, hi: u8, lo: u8): (f: seq<seq<u32>>)
    requires |rgb| == 3 * n && k <= n + 2
    ensures |f| == k
  {
    if k == 0 then [] else Frame(rgb, n, k - 1, hi, lo) + [HalfContent(rgb, n, k - 1, hi, lo)]
  }

  /** Entry k of the frame is half number k. */
  lemma {:induction false} FrameAt(rgb: seq<u8>, n: nat, m: nat, k: nat, hi: u8, lo: u8)
    requires |rgb| == 3 * n && k < m <= n + 2
    ensures Frame(rgb, n, m, hi, lo)[k] == HalfContent(rgb, n, k, hi, lo)
  {
    if k < m - 1 {
      FrameAt(rgb, n, m - 1, k, hi, lo);
    }
  }

  /** A run of halves laid end to end. */
  function Flatten(hs: seq<seq<u32>>): (s: seq<u32>)
    ensures hs == [] ==> s == []
  {
    if hs == [] then [] else Flatten(hs[..|hs| - 1]) + hs[|hs| - 1]
  }

  /** Laying out one more half appends it. */
  lemma FlattenStep(hs: seq<seq<u32>>, k: nat)
    requires k < |hs|
    ensures Flatten(hs[..k + 1]) == Flatten(hs[..k]) + hs[k]
  {
    assert hs[..k + 1][..k] == hs[..k];
  }

  /** The first k frame halves laid end to end are the halves staged so far. */
  lemma {:induction false} FlattenFrame(rgb: seq<u8>, n: nat, m: nat, k: nat, hi: u8, lo: u8)
    requires |rgb| == 3 * n && k <= m <= n + 2
    ensures Flatten(Frame(rgb, n, m, hi, lo)[..k]) == Halves(rgb, n, k, hi, lo)
  {
    var f := Frame(rgb, n, m, hi, lo);
    if k == 0 {
      assert f[..0] == [];
    } else {
      FlattenFrame(rgb, n, m, k - 1, hi, lo);
      FlattenStep(f, k - 1);
      FrameAt(rgb, n, m, k - 1, hi, lo);
    }
  }

  /** The first k <= N halves are the byte-by-byte encoding of the first k pixels. */
  lemma {:induction false} HalvesArePixels(rgb: seq<u8>, n: nat, k: nat, hi: u8, lo: u8)
    requires |rgb| == 3 * n && k <= n
    ensures Halves(rgb, n, k, hi, lo) == EncodeBytes(rgb[..3 * k], hi, lo)
  {
    if k == 0 {
      assert rgb[..0] == [];
    } else {
      HalvesArePixels(rgb, n, k - 1, hi, lo);
      HalvesStep(rgb, n, k, hi, lo);
    }
  }

  /** One more half extends the encoded prefix by one pixel. */
  lemma HalvesStep(rgb: seq<u8>, n: nat, k: nat, hi: u8, lo: u8)
    requires |rgb| == 3 * n && 0 < k <= n
    requires Halves(rgb, n, k - 1, hi, lo) == EncodeBytes(rgb[..3 * (k - 1)], hi, lo)
    ensures Halves(rgb, n, k, hi, lo) == EncodeBytes(rgb[..3 * k], hi, lo)
  {
    var p := k - 1;
    PrefixStep(rgb, p, hi, lo);
    assert 3 * p + 3 == 3 * k;
  }

  /** Encoding the first p + 1 pixels is encoding the first p, then pixel p. */
  lemma PrefixStep(rgb: seq<u8>, p: nat, hi: u8, lo: u8)
    requires 3 * p + 3 <= |rgb|
    ensures EncodeBytes(rgb[..3 * p + 3], hi, lo) ==
      EncodeBytes(rgb[..3 * p], hi, lo) + EncodeBytes(rgb[3 * p .. 3 * p + 3], hi, lo)
  {
    assert rgb[..3 * p + 3] == rgb[..3 * p] + rgb[3 * p .. 3 * p + 3];
    EncodeBytesAppend(rgb[..3 * p], rgb[3 * p .. 3 * p + 3], hi, lo);
  }

  /**
   * A whole frame: all N pixels encoded byte by byte, most significant bit
   * first, followed by two halves (48 slots) of zeros.
   */
  lemma FrameIsEncodingThenReset(rgb: seq<u8>, n: nat, hi: u8, lo: u8)
    requires |rgb| == 3 * n
    ensures Halves(rgb, n, n + 2, hi, lo) == EncodeBytes(rgb, hi, lo) + Zeros(PwmBufLen)
  {
    HalvesArePixels(rgb, n, n, hi, lo);
    assert rgb[..3 * n] == rgb;
    assert Zeros(HalfLen) + Zeros(HalfLen) == Zeros(PwmBufLen);
  }

  /**
   * How many frame halves reach the line. The DMA drains the two halves of the
   * transfer buffer alternately, half-complete first, and the complete callback
   * that finds the cursor at N + 2 stops it. Interrupt number j drains frame
   * half j, so the count is even and the last half the cursor reaches, N + 1,
   * is never sent when N is odd.
   */
  function DrainedHalves(n: nat): (d: nat)
    ensures d % 2 == 0 && n + 1 <= d <= n + 2
  {
    if n % 2 == 0 then n + 2 else n + 1
  }

  /**
   * The halves that reach the line: all N pixels encoded, then 48 zero slots of
   * reset when N is even but only 24 when N is odd.
   */
  lemma DrainedFrame(rgb: seq<u8>, n: nat, hi: u8, lo: u8)
    requires |rgb| == 3 * n
    ensures n % 2 == 0 ==> Halves(rgb, n, DrainedHalves(n), hi, lo) == EncodeBytes(rgb, hi, lo) + Zeros(PwmBufLen)
    ensures n % 2 == 1 ==> Halves(rgb, n, DrainedHalves(n), hi, lo) == EncodeBytes(rgb, hi, lo) + Zeros(HalfLen)
  {
    if n % 2 == 0 {
      FrameIsEncodingThenReset(rgb, n, hi, lo);
    } else {
      HalvesArePixels(rgb, n, n, hi, lo);
      assert rgb[..3 * n] == rgb;
    }
  }

  /** A receiver that decodes the data part of the halves sent recovers the pixel buffer exactly. */
  lemma FrameDecodes(rgb: seq<u8>, n: nat, hi: u8, lo: u8)
    requires |rgb| == 3 * n && hi != lo
    ensures 8 * |rgb| <= |Halves(rgb, n, DrainedHalves(n), hi, lo)|
    ensures DecodeBytes(Halves(rgb, n, DrainedHalves(n), hi, lo)[..8 * |rgb|], hi) == rgb
  {
    DrainedFrame(rgb, n, hi, lo);
    var data := EncodeBytes(rgb, hi, lo);
    var reset := if n % 2 == 0 then Zeros(PwmBufLen) else Zeros(HalfLen);
    assert (data + reset)[..8 * |rgb|] == data;
    DecodeEncodeBytes(rgb, hi, lo);
  }

  /** `buf` with half `h` (slots 24h .. 24h + 23) replaced by `content`. */
  function WithHalf(buf: seq<u32>, h: nat, content: seq<u32>): (res: seq<u32>)
    requires |buf| == PwmBufLen && h < 2 && |content| == HalfLen
    ensures |res| == PwmBufLen
    ensures h == 0 ==> res[..HalfLen] == content && res[HalfLen..] == buf[HalfLen..]
    ensures h == 1 ==> res[..HalfLen] == buf[..HalfLen] && res[HalfLen..] == content
  {
    buf[..24 * h] + content + buf[24 * h + HalfLen..]
  }

  /** Slot by slot: replacing half `h` changes exactly the slots of that half. */
  lemma WithHalfAt(buf: seq<u32>, h: nat, content: seq<u32>, res: seq<u32>)
    requires |buf| == PwmBufLen && h < 2 && |content| == HalfLen && |res| == PwmBufLen
    requires forall s :: 0 <= s < PwmBufLen ==>
      res[s] == if 24 * h <= s < 24 * h + HalfLen then content[s - 24 * h] else buf[s]
    ensures res == WithHalf(buf, h, content)
  {
    var base := 24 * h;
    var want := buf[..base] + content + buf[base + HalfLen..];
    assert want == WithHalf(buf, h, content);
    forall s | 0 <= s < PwmBufLen ensures res[s] == want[s] {
      if s < base {
        assert want[s] == buf[..base][s];
      } else if s < base + HalfLen {
        assert want[s] == content[s - base];
      } else {
        assert want[s] == buf[base + HalfLen..][s - base - HalfLen];
      }
    }
  }

  /** The number of the most recent half with parity `h` among halves 0 .. c - 1. */
  function LastHalf(c: nat, h: nat): (k: nat)
    requires c >= 2 && h < 2
    ensures k < c && k % 2 == h && c <= k + 2
  {
    if (c - 1) % 2 == h then c - 1 else c - 2
  }

  /**
   * The transfer buffer `buf` at cursor `c`: each half holds the most recent
   * frame half of its parity among halves 0 .. c - 1.
   */
  ghost predicate StagedBuf(buf: seq<u32>, rgb: seq<u8>, n: nat, c: nat, hi: u8, lo: u8)
    requires |rgb| == 3 * n && |buf| == PwmBufLen && 2 <= c <= n + 2
  {
    buf[..HalfLen] == HalfContent(rgb, n, LastHalf(c, 0), hi, lo) &&
    buf[HalfLen..] == HalfContent(rgb, n, LastHalf(c, 1), hi, lo)
  }

  /**
   * Staging frame half `c` into the buffer half of its own parity, and
   * advancing the cursor, keeps each buffer half the newest of its parity.
   */
  lemma StagedStep(buf: seq<u32>, rgb: seq<u8>, n: nat, c: nat, hi: u8, lo: u8)
    requires |rgb| == 3 * n && |buf| == PwmBufLen && 2 <= c < n + 2
    requires StagedBuf(buf, rgb, n, c, hi, lo)
    ensures StagedBuf(WithHalf(buf, c % 2, HalfContent(rgb, n, c, hi, lo)), rgb, n, c + 1, hi, lo)
  {
    if c % 2 == 0 {
      assert LastHalf(c + 1, 1) == LastHalf(c, 1);
    } else {
      assert LastHalf(c + 1, 0) == LastHalf(c, 0);
    }
  }
}
