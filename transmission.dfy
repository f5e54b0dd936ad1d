/**
 * One whole frame as the hardware drives it: `ARGB_Show`, then the DMA raises
 * half-complete and complete alternately until the strip is READY again.
 * The hardware drains the transfer buffer half by half in the order the halves
 * were refilled, provided every refill finishes before its half is read again;
 * that timing assumption is what lets the callbacks run here one after another.
 */
module Transmission {
  import opened Types
  import opened Encoding
  import opened Stream
  import opened Argb

  /**
   * Shows one frame of an idle strip and runs the interrupts to the end. `wire`
   * is every half the DMA sends, in order: the whole pixel buffer encoded most
   * significant bit first, then the reset, which is two zero halves for an even
   * number of pixels but a single one for an odd number, because the transfer
   * stops before the zeros staged at cursor N + 1 are sent. The callbacks
   * refill exactly N halves between them.
   */
  method ShowFrame(strip: Strip) returns (status: State, wire: seq<u32>, refills: nat)
    requires strip.Valid() && strip.bufCounter == 0
    modifies strip`state, strip`bufCounter, strip.pwm
    ensures strip.Valid() && strip.state == Ready && strip.bufCounter == 0
    ensures strip.pwm[..] == Zeros(PwmBufLen)
    ensures status == Ok
    ensures strip.numPixels % 2 == 0 ==>
      wire == EncodeBytes(strip.rgb[..], strip.pwmHi, strip.pwmLo) + Zeros(PwmBufLen)
    ensures strip.numPixels % 2 == 1 ==>
      wire == EncodeBytes(strip.rgb[..], strip.pwmHi, strip.pwmLo) + Zeros(HalfLen)
    ensures refills == strip.numPixels
  {
    ghost var rgb := strip.rgb[..];
    status := strip.Show(true);
    FirstTwoPixels(rgb, strip.pwmHi, strip.pwmLo);
    assert rgb[..6] == strip.rgb[..6];
    wire, refills := Drain(strip, rgb);
    DrainedFrame(rgb, strip.numPixels, strip.pwmHi, strip.pwmLo);
  }

  /**
   * The interrupts of one frame, from the two halves `ARGB_Show` staged until
   * the strip is READY: half-complete and complete alternate, and each first
   * appends the half the DMA has just sent to `wire`, then runs its callback.
   * `sent` counts the interrupts, which is the number of halves sent; `frame`
   * lists every half of the frame, so that the buffer can be compared with
   * one entry of it.
   */
  method Drain(strip: Strip, ghost rgb: seq<u8>) returns (wire: seq<u32>, refills: nat)
    requires strip.Valid() && strip.rgb[..] == rgb && strip.bufCounter == 2
    requires strip.pwm[..HalfLen] == HalfContent(rgb, strip.numPixels, 0, strip.pwmHi, strip.pwmLo)
    requires strip.pwm[HalfLen..] == HalfContent(rgb, strip.numPixels, 1, strip.pwmHi, strip.pwmLo)
    modifies strip`state, strip`bufCounter, strip.pwm
    ensures strip.Valid() && strip.state == Ready && strip.bufCounter == 0
    ensures strip.pwm[..] == Zeros(PwmBufLen)
    ensures refills == strip.numPixels
    ensures wire == Halves(rgb, strip.numPixels, DrainedHalves(strip.numPixels), strip.pwmHi, strip.pwmLo)
  {
    var n, hi, lo := strip.numPixels, strip.pwmHi, strip.pwmLo;
    ghost var frame := Frame(rgb, n, n + 2, hi, lo);
    FrameAt(rgb, n, n + 2, 0, hi, lo);
    FrameAt(rgb, n, n + 2, 1, hi, lo);
    var sent: nat := 0;
    ghost var rounds := 0;
    wire, refills := [], 0;
    while strip.bufCounter != 0
      invariant strip.Valid() && strip.rgb[..] == rgb
      invariant sent <= n + 2 && wire == Flatten(frame[..sent])
      invariant strip.bufCounter != 0 ==>
        strip.bufCounter == sent + 2 && sent == 2 * rounds && refills == sent &&
        strip.pwm[..HalfLen] == frame[sent] && strip.pwm[HalfLen..] == frame[sent + 1]
      invariant strip.bufCounter == 0 ==> strip.state == Ready && refills == n && sent == DrainedHalves(n)
      invariant strip.bufCounter == 0 ==> strip.pwm[..] == Zeros(PwmBufLen)
      decreases n + 2 - sent
    {
      wire, sent, refills := HalfRound(strip, rgb, frame, wire, sent, refills);
      wire, sent, refills := CpltRound(strip, rgb, frame, wire, sent, refills);
      if strip.bufCounter == 0 {
        LastRound(n, rounds);
      }
      rounds := rounds + 1;
    }
    FlattenFrame(rgb, n, n + 2, sent, hi, lo);
  }

  /**
   * The first interrupt of a round: half-complete sends the first half, which
   * holds frame half `sent`, and its callback refills it unless all N + 2
   * halves are staged. The round records what is sent and counts the refill;
   * `HalfStep` wraps the callback itself. The split only keeps each proof small.
   */
  method HalfRound(strip: Strip, ghost rgb: seq<u8>, ghost frame: seq<seq<u32>>, wire: seq<u32>, sent: nat, refills: nat)
    returns (wire': seq<u32>, sent': nat, refills': nat)
    requires strip.Valid() && strip.rgb[..] == rgb && sent <= strip.numPixels
    requires frame == Frame(rgb, strip.numPixels, strip.numPixels + 2, strip.pwmHi, strip.pwmLo)
    requires strip.bufCounter == sent + 2 && refills == sent && wire == Flatten(frame[..sent])
    requires strip.pwm[..HalfLen] == frame[sent] && strip.pwm[HalfLen..] == frame[sent + 1]
    modifies strip`bufCounter, strip.pwm
    ensures strip.Valid() && strip.rgb[..] == rgb && strip.state == Busy
    ensures sent' == sent + 1 && wire' == Flatten(frame[..sent'])
    ensures strip.bufCounter == if sent' < strip.numPixels + 1 then sent' + 2 else sent' + 1
    ensures refills' + 2 == strip.bufCounter
    ensures strip.pwm[HalfLen..] == frame[sent']
    ensures sent' <= strip.numPixels ==> strip.pwm[..HalfLen] == frame[sent' + 1]
    ensures sent' == strip.numPixels + 1 ==> strip.pwm[..HalfLen] == frame[sent]
  {
    wire', sent' := wire + strip.pwm[..HalfLen], sent + 1;
    FlattenStep(frame, sent);
    refills' := if sent < strip.numPixels then refills + 1 else refills;
    HalfStep(strip, rgb, frame, sent);
  }

  /**
   * The second interrupt of a round: complete sends the second half, which
   * holds frame half `sent`, and its callback either refills it or ends the
   * frame, leaving the transfer buffer all zeros. `CpltStep` wraps the
   * callback itself.
   */
  method CpltRound(strip: Strip, ghost rgb: seq<u8>, ghost frame: seq<seq<u32>>, wire: seq<u32>, sent: nat, refills: nat)
    returns (wire': seq<u32>, sent': nat, refills': nat)
    requires strip.Valid() && strip.rgb[..] == rgb && sent <= strip.numPixels + 1
    requires frame == Frame(rgb, strip.numPixels, strip.numPixels + 2, strip.pwmHi, strip.pwmLo)
    requires strip.bufCounter == if sent < strip.numPixels + 1 then sent + 2 else sent + 1
    requires refills + 2 == strip.bufCounter && wire == Flatten(frame[..sent])
    requires strip.pwm[HalfLen..] == frame[sent]
    requires sent <= strip.numPixels ==> strip.pwm[..HalfLen] == frame[sent + 1]
    requires sent == strip.numPixels + 1 ==> strip.pwm[..HalfLen] == frame[sent - 1]
    modifies strip`bufCounter, strip`state, strip.pwm
    ensures strip.Valid() && strip.rgb[..] == rgb
    ensures sent' == sent + 1 && wire' == Flatten(frame[..sent'])
    ensures strip.bufCounter == 0 <==> strip.numPixels < sent'
    ensures strip.bufCounter != 0 ==>
      strip.bufCounter == sent' + 2 && refills' == sent' &&
      strip.pwm[..HalfLen] == frame[sent'] && strip.pwm[HalfLen..] == frame[sent' + 1]
    ensures strip.bufCounter == 0 ==> strip.state == Ready && refills' == strip.numPixels
    ensures strip.bufCounter == 0 ==> strip.pwm[..] == Zeros(PwmBufLen)
  {
    wire', sent' := wire + strip.pwm[HalfLen..], sent + 1;
    FlattenStep(frame, sent);
    if strip.numPixels <= sent {
      FrameAt(rgb, strip.numPixels, strip.numPixels + 2, strip.numPixels, strip.pwmHi, strip.pwmLo);
      FrameAt(rgb, strip.numPixels, strip.numPixels + 2, strip.numPixels + 1, strip.pwmHi, strip.pwmLo);
    }
    CpltStep(strip, rgb, frame, sent);
    refills' := if strip.bufCounter == 0 then refills else refills + 1;
    if strip.bufCounter == 0 {
      ZeroHalves(strip.pwm[..]);
    }
  }

  /**
   * A half-complete interrupt: the DMA has sent the first half. Unless all
   * N + 2 halves are staged, the callback refills it with frame half
   * `sent + 2`; the second half is untouched.
   */
  method HalfStep(strip: Strip, ghost rgb: seq<u8>, ghost frame: seq<seq<u32>>, sent: nat)
    requires strip.Valid() && strip.rgb[..] == rgb
    requires frame == Frame(rgb, strip.numPixels, strip.numPixels + 2, strip.pwmHi, strip.pwmLo)
    requires strip.bufCounter == sent + 2
    modifies strip`bufCounter, strip.pwm
    ensures strip.Valid() && strip.state == Busy
    ensures strip.bufCounter == if sent < strip.numPixels then sent + 3 else sent + 2
    ensures strip.pwm[HalfLen..] == old(strip.pwm[HalfLen..])
    ensures sent < strip.numPixels ==> strip.pwm[..HalfLen] == frame[sent + 2]
    ensures strip.numPixels <= sent ==> strip.pwm[..HalfLen] == old(strip.pwm[..HalfLen])
  {
    if sent < strip.numPixels {
      FrameAt(rgb, strip.numPixels, strip.numPixels + 2, sent + 2, strip.pwmHi, strip.pwmLo);
    }
    strip.HalfCplt(true);
  }

  /**
   * A complete interrupt: the DMA has sent the second half. The callback
   * refills it with frame half `sent + 2`, or, when the cursor is at N + 2,
   * stops the transfer and leaves the strip READY.
   */
  method CpltStep(strip: Strip, ghost rgb: seq<u8>, ghost frame: seq<seq<u32>>, sent: nat)
    requires strip.Valid() && strip.rgb[..] == rgb
    requires frame == Frame(rgb, strip.numPixels, strip.numPixels + 2, strip.pwmHi, strip.pwmLo)
    requires sent <= strip.numPixels + 1
    requires strip.bufCounter == if sent < strip.numPixels then sent + 2 else strip.numPixels + 2
    modifies strip`bufCounter, strip`state, strip.pwm
    ensures strip.Valid()
    ensures strip.bufCounter == 0 <==> strip.numPixels <= sent
    ensures strip.bufCounter != 0 ==> strip.bufCounter == sent + 3
    ensures strip.bufCounter == 0 ==> strip.state == Ready
    ensures strip.pwm[..HalfLen] == old(strip.pwm[..HalfLen])
    ensures sent < strip.numPixels ==> strip.pwm[HalfLen..] == frame[sent + 2]
    ensures strip.bufCounter == 0 ==> strip.pwm[HalfLen..] == old(strip.pwm[HalfLen..])
  {
    if sent < strip.numPixels {
      FrameAt(rgb, strip.numPixels, strip.numPixels + 2, sent + 2, strip.pwmHi, strip.pwmLo);
    }
    strip.Cplt(true);
  }

  /**
   * The round of interrupts in which the complete callback finds the cursor at
   * N + 2 ends with the last half sent: rounds are pairs of interrupts, so the
   * count of halves sent is even.
   */
  lemma LastRound(n: nat, rounds: nat)
    requires 2 * rounds <= n <= 2 * rounds + 1
    ensures 2 * rounds + 2 == DrainedHalves(n)
  {
  }
}
