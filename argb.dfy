/**
 * The strip driver of ARGB.c: one `ARGB_Strip` record with its pixel buffer,
 * its 48-slot transfer buffer and the state machine that streams a frame
 * through the transfer buffer from the two DMA callbacks.
 */
module Argb {
  import opened Types
  import opened Pixel
  import opened Encoding
  import opened Stream
  import opened Timing

  /** `ARGB_Strip`. The hardware handles, bus number and channel are not modelled. */
  class Strip {
    /** `num_pixels`. */
    const numPixels: u16
    /** `rgb_buf`: three bytes per pixel, green, red, blue. */
    const rgb: array<u8>
    /** `pwm_buf`: the transfer buffer the DMA drains into the compare register. */
    const pwm: array<u32>
    /** `PWM_HI` and `PWM_LO`: the compare values for a 1 bit and a 0 bit. */
    const pwmHi: u8
    const pwmLo: u8

    var brightness: u8
    var state: State
    /** `buf_counter`: the fill cursor, the number of the next half to stage. */
    var bufCounter: u16

    /**
     * The record invariant. The source reads `rgb_buf[0..5]` in `ARGB_Show`, so
     * a strip has at least two pixels, and the cursor, which runs up to N + 2,
     * must fit its 16 bits. A non-zero cursor means a frame is in flight.
     */
    ghost predicate Valid()
      reads this
    {
      2 <= numPixels && numPixels + 2 < 0x1_0000 &&
      rgb.Length == 3 * numPixels && pwm.Length == PwmBufLen &&
      bufCounter <= numPixels + 2 && bufCounter != 1 &&
      (bufCounter != 0 ==> state == Busy) &&
      (state == Busy || state == Ready)
    }

    /**
     * While a frame is in flight with cursor c, each half of the transfer buffer
     * holds the most recent frame half of its parity among halves 0 .. c - 1.
     */
    ghost predicate Staged()
      requires Valid()
      reads this, rgb, pwm
    {
      bufCounter != 0 ==> StagedBuf(pwm[..], rgb[..], numPixels, bufCounter, pwmHi, pwmLo)
    }

    /**
     * A statically allocated, zero-initialised record after `ARGB_Init`: the
     * state is READY and the two thresholds are the ones the timer set-up
     * computed.
     */
    constructor (n: u16, hi: u8, lo: u8, br: u8)
      requires 2 <= n && n + 2 < 0x1_0000
      ensures Valid() && fresh(rgb) && fresh(pwm)
      ensures numPixels == n && pwmHi == hi && pwmLo == lo && brightness == br
      ensures state == Ready && bufCounter == 0
      ensures forall k :: 0 <= k < rgb.Length ==> rgb[k] == 0
      ensures forall k :: 0 <= k < pwm.Length ==> pwm[k] == 0
    {
      numPixels, pwmHi, pwmLo := n, hi, lo;
      rgb := new u8[3 * n](_ => 0);
      pwm := new u32[PwmBufLen](_ => 0);
      brightness := br;
      bufCounter := 0;
      state := Ready;
    }

    /**
     * The integer part of `ARGB_Init`: it computes the timer reload from the bus
     * clock and sets the state to READY unconditionally. Called while a frame is
     * in flight it would break the record invariant, since the cursor stays
     * non-zero while the state claims READY.
     */
    method Init(apbHz: u32) returns (reload: u16)
      requires Valid()
      modifies this`state
      ensures state == Ready && reload == TimerReload(apbHz)
      ensures old(bufCounter) == 0 <==> Valid()
    {
      reload := TimerReload(apbHz);
      state := Ready;
    }

    /** `ARGB_SetBrightness`: only the brightness changes; stored pixels are not rescaled. */
    method SetBrightness(br: u8)
      requires Valid()
      modifies this`brightness
      ensures Valid() && brightness == br && rgb[..] == old(rgb[..])
    {
      brightness := br;
    }

    /** `ARGB_Ready`: the current state, which is always BUSY or READY. */
    function ReadyState(): (s: State)
      requires Valid()
      reads this
      ensures s == Busy || s == Ready
      ensures bufCounter != 0 ==> s == Busy
    {
      state
    }

    /**
     * `ARGB_SetRGB`: pixel `i mod N` receives the brightness- and gamma-scaled
     * colour in green, red, blue order; no other byte or field changes.
     */
    method SetRGB(i: u16, r: u8, g: u8, b: u8)
      requires Valid()
      modifies rgb
      ensures Valid()
      ensures rgb[..] == PutPixel(old(rgb[..]), WrapIndex(i, numPixels), ScalePixel(r, g, b, brightness))
    {
      var p := WrapIndex(i, numPixels);
      var px := ScalePixel(r, g, b, brightness);
      StorePixel(p, px);
    }

    /** The three byte stores that end `ARGB_SetRGB`, at an index already wrapped. */
    method StorePixel(p: u16, px: Grb)
      requires Valid() && p < numPixels
      modifies rgb
      ensures rgb[..] == PutPixel(old(rgb[..]), p, px)
    {
      rgb[3 * p] := px.g;
      rgb[3 * p + 1] := px.r;
      rgb[3 * p + 2] := px.b;
    }

    /** `ARGB_FillRGB`: every pixel receives the same scaled triple. */
    method FillRGB(r: u8, g: u8, b: u8)
      requires Valid()
      modifies rgb
      ensures Valid()
      ensures rgb[..] == Repeat(ScalePixel(r, g, b, brightness), numPixels)
    {
      ghost var px := ScalePixel(r, g, b, brightness);
      var i: u16 := 0;
      while i < numPixels
        invariant 0 <= i <= numPixels
        invariant rgb[..3 * i] == Repeat(px, i)
      {
        ghost var before := rgb[..];
        SetRGB(i, r, g, b);
        assert rgb[..3 * i] == before[..3 * i];
        assert rgb[..3 * i + 3] == rgb[..3 * i] + rgb[3 * i .. 3 * i + 3];
        i := i + 1;
      }
      assert rgb[..] == rgb[..3 * numPixels];
    }

    /** `ARGB_Clear`: all 3N bytes of the pixel buffer become 0. */
    method Clear()
      requires Valid()
      modifies rgb
      ensures Valid()
      ensures forall k :: 0 <= k < rgb.Length ==> rgb[k] == 0
    {
      FillRGB(0, 0, 0);
      ScaleBlack(brightness);
      forall k | 0 <= k < rgb.Length
        ensures rgb[k] == 0
      {
        RepeatAt(Grb(0, 0, 0), numPixels, k);
      }
    }

    /**
     * `ARGB_Show`. The state becomes BUSY before anything is checked, so even a
     * rejected call leaves it BUSY. A call is rejected, with both buffers and the
     * cursor untouched, when a frame is in flight or the DMA channel is not
     * ready; otherwise pixels 0 and 1 are encoded into the whole transfer buffer,
     * the transfer is started and the cursor points at half 2.
     */
    method Show(dmaReady: bool) returns (status: State)
      requires Valid()
      modifies this`state, this`bufCounter, pwm
      ensures Valid() && state == Busy
      ensures old(bufCounter) != 0 || !dmaReady ==>
        status == Busy && bufCounter == old(bufCounter) && pwm[..] == old(pwm[..])
      ensures old(bufCounter) == 0 && dmaReady ==>
        status == Ok && bufCounter == 2 && pwm[..] == EncodeBytes(rgb[..6], pwmHi, pwmLo) && Staged()
    {
      state := Busy;
      if bufCounter != 0 || !dmaReady {
        return Busy;
      }
      EncodeFirstTwo();
      // Arming the DMA transfer and starting the timer is one atomic, successful step here.
      bufCounter := 2;
      status := Ok;
      FirstTwoPixels(rgb[..], pwmHi, pwmLo);
      assert rgb[..][..6] == rgb[..6];
      assert pwm[..] == pwm[..HalfLen] + pwm[HalfLen..];
    }

    /**
     * The encode loop of `ARGB_Show`: one pass over the bit positions writes
     * the slots of bytes 0 to 5, so the first half holds pixel 0 and the second
     * half pixel 1.
     */
    method EncodeFirstTwo()
      requires Valid()
      modifies pwm
      ensures pwm[..HalfLen] == PixelSlots(rgb[..], 0, pwmHi, pwmLo)
      ensures pwm[HalfLen..] == PixelSlots(rgb[..], 1, pwmHi, pwmLo)
    {
      var i := 0;
      while i < 8
        invariant 0 <= i <= 8
        invariant forall k :: 0 <= k < i ==> pwm[k] == Slot(rgb[0], k, pwmHi, pwmLo)
        invariant forall k :: 0 <= k < i ==> pwm[k + 8] == Slot(rgb[1], k, pwmHi, pwmLo)
        invariant forall k :: 0 <= k < i ==> pwm[k + 16] == Slot(rgb[2], k, pwmHi, pwmLo)
        invariant forall k :: 0 <= k < i ==> pwm[k + 24] == Slot(rgb[3], k, pwmHi, pwmLo)
        invariant forall k :: 0 <= k < i ==> pwm[k + 32] == Slot(rgb[4], k, pwmHi, pwmLo)
        invariant forall k :: 0 <= k < i ==> pwm[k + 40] == Slot(rgb[5], k, pwmHi, pwmLo)
      {
        EncodeColumn(i);
        i := i + 1;
      }
      PixelSlotsByByte(rgb[..], 0, pwmHi, pwmLo);
      PixelSlotsByByte(rgb[..], 1, pwmHi, pwmLo);
      Interleaved(pwm[..HalfLen], rgb[0], rgb[1], rgb[2], pwmHi, pwmLo);
      Interleaved(pwm[HalfLen..], rgb[3], rgb[4], rgb[5], pwmHi, pwmLo);
    }

    /** One pass of the encode loop of `ARGB_Show`: bit position `i` of bytes 0 to 5. */
    method EncodeColumn(i: nat)
      requires Valid() && i < 8
      modifies pwm
      ensures forall s :: 0 <= s < PwmBufLen && s !in {i, i + 8, i + 16, i + 24, i + 32, i + 40} ==>
        pwm[s] == old(pwm[s])
      ensures pwm[i] == Slot(rgb[0], i, pwmHi, pwmLo) && pwm[i + 8] == Slot(rgb[1], i, pwmHi, pwmLo)
      ensures pwm[i + 16] == Slot(rgb[2], i, pwmHi, pwmLo) && pwm[i + 24] == Slot(rgb[3], i, pwmHi, pwmLo)
      ensures pwm[i + 32] == Slot(rgb[4], i, pwmHi, pwmLo) && pwm[i + 40] == Slot(rgb[5], i, pwmHi, pwmLo)
    {
      pwm[i] := Slot(rgb[0], i, pwmHi, pwmLo);
      pwm[i + 8] := Slot(rgb[1], i, pwmHi, pwmLo);
      pwm[i + 16] := Slot(rgb[2], i, pwmHi, pwmLo);
      pwm[i + 24] := Slot(rgb[3], i, pwmHi, pwmLo);
      pwm[i + 32] := Slot(rgb[4], i, pwmHi, pwmLo);
      pwm[i + 40] := Slot(rgb[5], i, pwmHi, pwmLo);
    }

    /**
     * `ARGB_TIM_DMADelayPulseHalfCplt`: the DMA has drained the first half. It
     * does nothing for foreign handles or an idle cursor. Otherwise, while the
     * cursor is below N + 2, the first half receives frame half number `cursor`
     * (pixel `cursor`, or zeros in the reset phase) and the cursor advances; at
     * N + 2 it does nothing.
     */
    method HalfCplt(ownHandles: bool)
      requires Valid()
      modifies this`bufCounter, pwm
      ensures Valid()
      ensures ownHandles && 0 < old(bufCounter) < numPixels + 2 ==>
        bufCounter == old(bufCounter) + 1 &&
        pwm[..] == WithHalf(old(pwm[..]), 0, HalfContent(rgb[..], numPixels, old(bufCounter), pwmHi, pwmLo))
      ensures !(ownHandles && 0 < old(bufCounter) < numPixels + 2) ==>
        bufCounter == old(bufCounter) && pwm[..] == old(pwm[..])
      ensures old(Staged()) && old(bufCounter) % 2 == 0 ==> Staged()
    {
      if !ownHandles {
        return;
      }
      if bufCounter == 0 {
        return;
      }
      if bufCounter < numPixels + 2 {
        Refill(0);
      }
    }

    /**
     * `ARGB_TIM_DMADelayPulseCplt`: the DMA has drained the second half. Like
     * the half-complete callback but refilling the second half; at cursor
     * N + 2 the frame is over, the transfer is stopped, the cursor returns to 0
     * and the state to READY.
     */
    method Cplt(ownHandles: bool)
      requires Valid()
      modifies this`bufCounter, this`state, pwm
      ensures Valid()
      ensures ownHandles && 0 < old(bufCounter) < numPixels + 2 ==>
        bufCounter == old(bufCounter) + 1 && state == old(state) &&
        pwm[..] == WithHalf(old(pwm[..]), 1, HalfContent(rgb[..], numPixels, old(bufCounter), pwmHi, pwmLo))
      ensures ownHandles && numPixels + 2 <= old(bufCounter) ==>
        bufCounter == 0 && state == Ready && pwm[..] == old(pwm[..])
      ensures !ownHandles || old(bufCounter) == 0 ==>
        bufCounter == old(bufCounter) && state == old(state) && pwm[..] == old(pwm[..])
      ensures old(Staged()) && old(bufCounter) % 2 == 1 ==> Staged()
    {
      if !ownHandles {
        return;
      }
      if bufCounter == 0 {
        return;
      }
      if bufCounter < numPixels + 2 {
        Refill(1);
      } else {
        // Stopping the DMA request, the transfer and the timer is not modelled.
        bufCounter := 0;
        state := Ready;
      }
    }

    /**
     * The branch both callbacks share below cursor N + 2: half `h` receives
     * frame half `cursor` (pixel `cursor`, or zeros in the reset phase) and the
     * cursor advances. When `h` is the parity of the cursor, the staging
     * invariant carries over to the new cursor.
     */
    method Refill(h: nat)
      requires Valid() && h < 2 && 0 < bufCounter < numPixels + 2
      modifies this`bufCounter, pwm
      ensures Valid() && bufCounter == old(bufCounter) + 1
      ensures pwm[..] == WithHalf(old(pwm[..]), h, HalfContent(rgb[..], numPixels, old(bufCounter), pwmHi, pwmLo))
      ensures old(Staged()) && old(bufCounter) % 2 == h ==> Staged()
    {
      ghost var before, wasStaged := pwm[..], Staged();
      if bufCounter < numPixels {
        StagePixel(h, bufCounter);
      } else {
        ZeroHalf(h);
      }
      if wasStaged && bufCounter % 2 == h {
        StagedStep(before, rgb[..], numPixels, bufCounter, pwmHi, pwmLo);
      }
      bufCounter := bufCounter + 1;
    }

    /**
     * The refill loop of the two callbacks: half `h` of the transfer buffer
     * receives the 24 compare values of pixel `p`, the other half is untouched.
     */
    method StagePixel(h: nat, p: u16)
      requires Valid() && h < 2 && p < numPixels
      modifies pwm
      ensures pwm[..] == WithHalf(old(pwm[..]), h, PixelSlots(rgb[..], p, pwmHi, pwmLo))
    {
      var base := 24 * h;
      ghost var g, r, b := rgb[3 * p], rgb[3 * p + 1], rgb[3 * p + 2];
      var i := 0;
      while i < 8
        invariant 0 <= i <= 8
        invariant forall s :: 0 <= s < base || base + HalfLen <= s < PwmBufLen ==> pwm[s] == old(pwm[s])
        invariant forall k :: 0 <= k < i ==> pwm[base + k] == Slot(g, k, pwmHi, pwmLo)
        invariant forall k :: 0 <= k < i ==> pwm[base + k + 8] == Slot(r, k, pwmHi, pwmLo)
        invariant forall k :: 0 <= k < i ==> pwm[base + k + 16] == Slot(b, k, pwmHi, pwmLo)
      {
        StageColumn(base, p, i);
        i := i + 1;
      }
      PixelSlotsByByte(rgb[..], p, pwmHi, pwmLo);
      Interleaved(pwm[base .. base + HalfLen], g, r, b, pwmHi, pwmLo);
      WithHalfAt(old(pwm[..]), h, PixelSlots(rgb[..], p, pwmHi, pwmLo), pwm[..]);
    }

    /** One pass of the refill loop: bit position `i` of the three bytes of pixel `p`, into the half at `base`. */
    method StageColumn(base: nat, p: u16, i: nat)
      requires Valid() && base + HalfLen <= PwmBufLen && p < numPixels && i < 8
      modifies pwm
      ensures forall s :: 0 <= s < PwmBufLen && s != base + i && s != base + i + 8 && s != base + i + 16 ==>
        pwm[s] == old(pwm[s])
      ensures pwm[base + i] == Slot(rgb[3 * p], i, pwmHi, pwmLo)
      ensures pwm[base + i + 8] == Slot(rgb[3 * p + 1], i, pwmHi, pwmLo)
      ensures pwm[base + i + 16] == Slot(rgb[3 * p + 2], i, pwmHi, pwmLo)
    {
      pwm[base + i] := Slot(rgb[3 * p], i, pwmHi, pwmLo);
      pwm[base + i + 8] := Slot(rgb[3 * p + 1], i, pwmHi, pwmLo);
      pwm[base + i + 16] := Slot(rgb[3 * p + 2], i, pwmHi, pwmLo);
    }

    /** The `memset` of the reset phase: half `h` of the transfer buffer becomes 0. */
    method ZeroHalf(h: nat)
      requires Valid() && h < 2
      modifies pwm
      ensures pwm[..] == WithHalf(old(pwm[..]), h, Zeros(HalfLen))
    {
      var base := 24 * h;
      forall s | base <= s < base + HalfLen {
        pwm[s] := 0;
      }
      WithHalfAt(old(pwm[..]), h, Zeros(HalfLen), pwm[..]);
    }
  }
}
