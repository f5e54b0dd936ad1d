/**
 * The bit encoder: every pixel byte becomes eight timer compare values, most
 * significant bit first, `PWM_HI` for a set bit and `PWM_LO` for a clear one.
 */
module Encoding {
  import opened Types

  /** Compare values per byte. */
  const SlotsPerByte: nat := 8

  /** `PWM_BUF_LEN`: 3 bytes * 8 bits * 2 pixels. */
  const PwmBufLen: nat := 3 * 8 * 2

  /** One half of the transfer buffer holds exactly one pixel. */
  const HalfLen: nat := 3 * 8

  /** 2 to the power `k`. */
  function Pow2(k: nat): (r: nat)
    ensures r >= 1
  {
    if k == 0 then 1 else 2 * Pow2(k - 1)
  }

  /** `v << i`, with no bits lost: `x` is promoted to `int` before the shift. */
  function Shl(v: nat, i: nat): nat
  {
    if i == 0 then v else 2 * Shl(v, i - 1)
  }

  /** A left shift by `i` places multiplies by 2 to the power `i`. */
  lemma {:induction false} ShlMultiplies(v: nat, i: nat)
    ensures Shl(v, i) == v * Pow2(i)
  {
    if i > 0 {
      ShlMultiplies(v, i - 1);
      assert 2 * (v * Pow2(i - 1)) == v * (2 * Pow2(i - 1));
    }
  }

  /** `v >> k`. */
  function Shr(v: nat, k: nat): nat
  {
    if k == 0 then v else Shr(v, k - 1) / 2
  }

  /** `v & 0x80` for a non-negative value: bit 7 of `v`, in place. */
  function And80(v: nat): (r: nat)
    ensures r == v % 0x100 - v % 0x80
  {
    if (v / 0x80) % 2 == 1 then 0x80 else 0
  }

  /** Bit `k` of `x`, counting from the least significant bit. */
  predicate Bit(x: u8, k: nat)
  {
    Shr(x, k) % 2 == 1
  }

  /** Left shifts of a byte by 1 to 7 places. */
  lemma ShlByte(x: u8)
    ensures Shl(x, 1) == 2 * x && Shl(x, 2) == 4 * x && Shl(x, 3) == 8 * x
    ensures Shl(x, 4) == 16 * x && Shl(x, 5) == 32 * x && Shl(x, 6) == 64 * x && Shl(x, 7) == 128 * x
  {
    assert Shl(x, 1) == 2 * x;
    assert Shl(x, 2) == 4 * x;
    assert Shl(x, 3) == 8 * x;
    assert Shl(x, 4) == 16 * x;
    assert Shl(x, 5) == 32 * x;
    assert Shl(x, 6) == 64 * x;
  }

  /** Right shifts of a byte by 1 to 8 places. */
  lemma ShrByte(x: u8)
    ensures Shr(x, 1) == x / 2 && Shr(x, 2) == x / 4 && Shr(x, 3) == x / 8
    ensures Shr(x, 4) == x / 16 && Shr(x, 5) == x / 32 && Shr(x, 6) == x / 64 && Shr(x, 7) == x / 128
    ensures Shr(x, 8) == 0
  {
    assert Shr(x, 1) == x / 2;
    assert Shr(x, 2) == x / 4;
    assert Shr(x, 3) == x / 8;
    assert Shr(x, 4) == x / 16;
    assert Shr(x, 5) == x / 32;
    assert Shr(x, 6) == x / 64;
    assert Shr(x, 7) == x / 128;
  }

  /**
   * The source's test `((x << i) & 0x80) > 0` on a byte promoted to int is
   * bit 7 - i of the byte: slot `i` carries the bits most significant first.
   */
  lemma ShiftedBit(x: u8, i: nat)
    requires i < 8
    ensures (And80(Shl(x, i)) > 0) == Bit(x, 7 - i)
  {
    ShlByte(x);
    ShrByte(x);
    if i < 4 {
      ShiftedHigh(x, i);
    } else {
      ShiftedLow(x, i);
    }
  }

  /** The slot quotients for the four most significant bits. */
  lemma ShiftedHigh(x: u8, i: nat)
    requires i < 4
    ensures i == 0 ==> x / 0x80 == x / 128
    ensures i == 1 ==> 2 * x / 0x80 == x / 64
    ensures i == 2 ==> 4 * x / 0x80 == x / 32
    ensures i == 3 ==> 8 * x / 0x80 == x / 16
  {
  }

  /** The slot quotients for the four least significant bits. */
  lemma ShiftedLow(x: u8, i: nat)
    requires 4 <= i < 8
    ensures i == 4 ==> 16 * x / 0x80 == x / 8
    ensures i == 5 ==> 32 * x / 0x80 == x / 4
    ensures i == 6 ==> 64 * x / 0x80 == x / 2
    ensures i == 7 ==> 128 * x / 0x80 == x
  {
  }

  /**
   * The compare value for bit position `i` (0 = sent first) of byte `x`:
   * `((x << i) & 0x80) > 0 ? PWM_HI : PWM_LO`.
   */
  function Slot(x: u8, i: nat, hi: u8, lo: u8): (v: u32)
    requires i < 8
    ensures v == (if Bit(x, 7 - i) then hi else lo)
  {
    ShiftedBit(x, i);
    if And80(Shl(x, i)) > 0 then hi else lo
  }

  /** The eight compare values of one byte, in transmission order. */
  function EncodeByte(x: u8, hi: u8, lo: u8): (s: seq<u32>)
    ensures |s| == SlotsPerByte
    ensures forall i :: 0 <= i < 8 ==> s[i] == if Bit(x, 7 - i) then hi else lo
  {
    seq(8, i requires 0 <= i < 8 => Slot(x, i, hi, lo))
  }

  /** The compare values of a run of bytes: each byte's eight slots, one byte after another. */
  function EncodeBytes(bs: seq<u8>, hi: u8, lo: u8): (s: seq<u32>)
    ensures |s| == 8 * |bs|
  {
    if bs == [] then [] else EncodeByte(bs[0], hi, lo) + EncodeBytes(bs[1..], hi, lo)
  }

  /** Slot `8k + i` of an encoded run is `PWM_HI` exactly when bit 7 - i of byte k is set. */
  lemma {:induction false} EncodeBytesAt(bs: seq<u8>, hi: u8, lo: u8, j: nat)
    requires j < 8 * |bs|
    ensures EncodeBytes(bs, hi, lo)[j] == if Bit(bs[j / 8], 7 - j % 8) then hi else lo
  {
    if j >= 8 {
      EncodeBytesAt(bs[1..], hi, lo, j - 8);
    }
  }

  /** Encoding distributes over concatenation, so pixel-by-pixel encoding equals byte-by-byte encoding. */
  lemma {:induction false} EncodeBytesAppend(a: seq<u8>, b: seq<u8>, hi: u8, lo: u8)
    ensures EncodeBytes(a + b, hi, lo) == EncodeBytes(a, hi, lo) + EncodeBytes(b, hi, lo)
  {
    if a != [] {
      assert (a + b)[1..] == a[1..] + b;
      EncodeBytesAppend(a[1..], b, hi, lo);
    } else {
      assert a + b == b;
    }
  }

  /**
   * What a receiver reads from a run of compare values, most significant bit
   * first: a slot equal to the high threshold is a 1, anything else a 0.
   */
  function DecodeBits(s: seq<u32>, hi: u8): (v: nat)
    ensures v < Pow2(|s|)
  {
    if s == [] then 0
    else 2 * DecodeBits(s[..|s| - 1], hi) + (if s[|s| - 1] == hi then 1 else 0)
  }

  /** The first `k` slots of a byte decode to its top `k` bits. */
  lemma {:induction false} DecodeBytePrefix(x: u8, hi: u8, lo: u8, k: nat)
    requires hi != lo && k <= 8
    ensures DecodeBits(EncodeByte(x, hi, lo)[..k], hi) == Shr(x, 8 - k)
  {
    var s := EncodeByte(x, hi, lo);
    if k == 0 {
      ShrByte(x);
    } else {
      DecodeBytePrefix(x, hi, lo, k - 1);
      assert s[..k][..k - 1] == s[..k - 1];
    }
  }

  /** Decoding the eight slots of a byte gives the byte back whenever the two thresholds differ. */
  lemma DecodeEncodeByte(x: u8, hi: u8, lo: u8)
    requires hi != lo
    ensures DecodeBits(EncodeByte(x, hi, lo), hi) == x
  {
    DecodeBytePrefix(x, hi, lo, 8);
    assert EncodeByte(x, hi, lo)[..8] == EncodeByte(x, hi, lo);
  }

  /** A run of compare values read back eight at a time. */
  function DecodeBytes(s: seq<u32>, hi: u8): (bs: seq<u8>)
    requires |s| % 8 == 0
    ensures 8 * |bs| == |s|
  {
    if s == [] then []
    else
      assert Pow2(8) == 256;
      [DecodeBits(s[..8], hi)] + DecodeBytes(s[8..], hi)
  }

  /** The encoder loses nothing: decoding an encoded run gives the bytes back. */
  lemma {:induction false} DecodeEncodeBytes(bs: seq<u8>, hi: u8, lo: u8)
    requires hi != lo
    ensures DecodeBytes(EncodeBytes(bs, hi, lo), hi) == bs
  {
    if bs != [] {
      var s := EncodeBytes(bs, hi, lo);
      assert s[..8] == EncodeByte(bs[0], hi, lo);
      assert s[8..] == EncodeBytes(bs[1..], hi, lo);
      DecodeEncodeByte(bs[0], hi, lo);
      DecodeEncodeBytes(bs[1..], hi, lo);
    }
  }
}
