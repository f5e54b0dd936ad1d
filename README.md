# ARGB strip driver: a verified Dafny model

This project models the core of an STM32 driver for addressable RGB LED strips
(WS281x family). The driver turns a pixel colour buffer into a pulse-width
bitstream. A DMA channel feeds that bitstream into a timer compare register,
using a 48-slot transfer buffer that is refilled half by half from two
interrupt callbacks.

The model has three layers. Each follows `ARGB.c` and the `ARGB_Strip` record
and `ARGB_STATE` enum of `ARGB.h`.

- **Pixel buffer** (`pixel.dfy`, and `Argb.Strip` in `argb.dfy`).
  - `ARGB_SetRGB` wraps the index modulo the strip length.
  - It divides each channel by `256 / (brightness + 1)`.
  - It passes green and blue through `scale8`, because gamma correction is on.
  - It stores the three bytes in green, red, blue order.
  - `ARGB_FillRGB`, `ARGB_Clear` and `ARGB_SetBrightness` are methods of the
    `Strip` class, which owns the pixel buffer as an `array<u8>`.
- **Bit encoder** (`encoding.dfy`).
  - Every byte becomes eight compare values, most significant bit first:
    `PWM_HI` for a set bit and `PWM_LO` for a clear one.
  - The source test `((x << i) & 0x80) > 0` is modelled on integers and
    proved equal to "bit 7 − i of x".
  - Decoding (a slot equal to `PWM_HI` is a 1) inverts the encoding whenever
    the two thresholds differ.
- **Streaming state machine** (`stream.dfy`, `argb.dfy`, `transmission.dfy`).
  - `ARGB_Show` encodes pixels 0 and 1 into the whole transfer buffer and sets
    the fill cursor to 2.
  - The half-complete callback refills slots 0–23 and the complete callback
    refills slots 24–47. Each writes pixel `cursor`, or a zero half during the
    two reset halves, and then advances the cursor.
  - At cursor N + 2 the complete callback resets the cursor to 0 and the state
    to READY.
  - Half-complete fires once slots 0–23 have been sent, and complete once
    slots 24–47 have been sent. Interrupt j therefore drains frame half j,
    which was staged before the interrupt's own refill.
  - `Transmission.ShowFrame` runs one whole frame, calling the callbacks
    alternately and recording the half each interrupt drains. It proves that
    the halves sent, in order, are the byte-by-byte encoding of the entire
    pixel buffer followed by 48 zero slots when N is even and 24 when N is odd.
  - The callbacks refill exactly N halves between them.

Integer widths are subset types (`u8`, `u16`, `u32`). The record invariant
`Strip.Valid` carries the width facts the code relies on:
- N ≥ 2 and N + 2 < 65536;
- the cursor is at most N + 2 and never 1;
- a non-zero cursor implies BUSY.

`Strip.Staged` states, for a frame in flight with cursor c, which frame half
each half of the transfer buffer holds. The half-complete callback preserves it
at even cursors and the complete callback at odd ones.

### Where the code and its design description differ (the model follows the code)

- `ARGB_Show` sets the state to BUSY before it checks the cursor and the DMA
  channel (ARGB.c:128-130). A rejected call is therefore not free of side
  effects. When the rejection comes from a DMA channel that is not ready, the
  strip reports BUSY with no frame in flight until a later call succeeds.
- During the reset phase both callbacks advance the cursor (ARGB.c:291-293,
  355-357), not only the complete callback.
- The reset halves hold the value 0, not `PWM_LO` (ARGB.c:292, 356).
- A strip with an odd number of pixels sends only one zero half of reset, 24
  slots, not two. The half-complete callback stages the second zero half at
  cursor N + 1 (ARGB.c:355-357). The next interrupt is the complete callback,
  which finds cursor N + 2 and stops the transfer (ARGB.c:294-327), so that
  half is never sent (`Stream.DrainedHalves`, `Stream.DrainedFrame`).
- Brightness 0 gives a divisor of 256, which maps every byte to 0, so the pixel
  is fully off (`Pixel.ScaleAtZeroBrightness`).
- `ARGB_Show` always reads bytes 0 to 5 of the pixel buffer (ARGB.c:132-140), so
  a strip needs at least two pixels. There is no fallback for shorter strips.
- While BUSY the cursor can be 0, after a rejected `ARGB_Show`. It is never 1.
- `ARGB_Init` has no parameter-error path: the reload is truncated by a 16-bit
  cast (ARGB.c:35). It sets READY unconditionally, even while a frame is in
  flight (`Argb.Strip.Init`).

## Model

| member | source | states |
|---|---|---|
| Types.Code | test_2_strip/Core/Inc/ARGB.h:18-23 | BUSY is 0, READY is 1, and all four codes are below 4 |
| Types.FromCode | test_2_strip/Core/Inc/ARGB.h:18-23 | exactly the values 0 to 3 name an enumerator |
| Types.CodeRoundTrip | test_2_strip/Core/Inc/ARGB.h:18-23 | the four enumerators have distinct codes, and each round-trips through its code |
| Types.FromCodeRoundTrip | test_2_strip/Core/Inc/ARGB.h:18-23 | every code 0 to 3 round-trips through its enumerator |
| Timing.TimerReload | ARGB.c:32-35 | at or above 800 kHz, reload + 1 is the number of bus ticks per bit (always below 5368, so the 16-bit cast loses nothing); below 800 kHz the unsigned subtraction wraps and the cast yields 0xFFFF |
| Pixel.WrapIndex | ARGB.c:72-76 | the subtract-the-quotient wrap yields `i mod N`, which is below N, and leaves in-range indices unchanged |
| Pixel.WrapAlias | ARGB.c:73-76 | indices N apart address the same pixel, and index N aliases pixel 0 |
| Pixel.Divisor | ARGB.c:78-80 | the divisor `256 / (brightness + 1)` lies in 1..256; it is 1 exactly when brightness ≥ 128 and 256 exactly when brightness is 0 |
| Pixel.Dim | ARGB.c:78-80 | a scaled channel never exceeds its input; brightness 255 keeps it and brightness 0 zeroes it |
| Pixel.DivisorAntitone | ARGB.c:78-80 | a higher brightness never gives a larger divisor |
| Pixel.DimMonotone | ARGB.c:78-80 | a higher brightness never stores a smaller channel |
| Pixel.Scale8 | ARGB.c:242-244 | `(x * scale) >> 8` never exceeds x, and scale 0xFF maps a non-zero x to x − 1 |
| Pixel.Scale8Monotone | ARGB.c:242-244 | `scale8` is monotonic in the value it scales |
| Pixel.ScalePixel | ARGB.c:77-89 | red is only brightness-scaled; green and blue are at most their brightness-scaled values; no channel exceeds its input |
| Pixel.ScalePixelMonotone | ARGB.c:77-84 | every stored channel, gamma included, is monotonic in brightness |
| Pixel.ScaleBlack | ARGB.c:77-84 | black stays black at every brightness |
| Pixel.ScaleAtZeroBrightness | ARGB.c:78-80 | brightness 0 turns every colour fully off |
| Pixel.ScaleAtFullBrightness | ARGB.c:78-84 | at brightness 255 only the gamma scaling of green and blue changes a colour |
| Pixel.Grb.Bytes | ARGB.c:87-89 | a pixel's bytes are green, red, blue, in that order |
| Pixel.PutPixel | ARGB.c:91-93 | bytes 3p, 3p+1 and 3p+2 receive green, red and blue, and every other byte keeps its value |
| Pixel.PutPixelIdempotent | ARGB.c:91-93 | storing the same pixel twice gives the same buffer as storing it once |
| Pixel.Repeat | ARGB.c:106-109 | N copies of a pixel are 3N bytes long |
| Pixel.RepeatAt | ARGB.c:106-109 | byte k of a filled buffer is byte k mod 3 of the pixel |
| Encoding.Shl | ARGB.c:134 | `x << i` on the promoted `int`: with `ShlMultiplies`, the value times 2 to the power i, no bits lost |
| Encoding.ShlMultiplies | ARGB.c:134 | a left shift by i places multiplies by 2 to the power i |
| Encoding.And80 | ARGB.c:134 | `v & 0x80` keeps bit 7 in place: `v mod 256 − v mod 128` |
| Encoding.ShiftedBit | ARGB.c:134 | `((x << i) & 0x80) > 0` holds exactly when bit 7 − i of the byte is set |
| Encoding.Slot | ARGB.c:134 | the compare value for position i is `PWM_HI` exactly when bit 7 − i is set, else `PWM_LO` |
| Encoding.EncodeByte | ARGB.c:132-140 | a byte becomes eight slots; slot i carries bit 7 − i |
| Encoding.EncodeBytes | ARGB.c:132-140 | a run of bytes becomes eight slots per byte |
| Encoding.DecodeBytes | ARGB.c:132-140 | a slot run of length 8m decodes to m bytes |
| Encoding.EncodeBytesAt | ARGB.c:132-140 | slot 8k + i of an encoded run is `PWM_HI` exactly when bit 7 − i of byte k is set |
| Encoding.EncodeBytesAppend | ARGB.c:132-140 | encoding distributes over concatenation |
| Encoding.DecodeBits | ARGB.c:132-140 | a run of s slots decodes to a value below 2^s |
| Encoding.DecodeEncodeByte | ARGB.c:132-140 | when the thresholds differ, decoding a byte's eight slots gives the byte back |
| Encoding.DecodeEncodeBytes | ARGB.c:132-140 | when the thresholds differ, decoding an encoded run gives the bytes back |
| Stream.PixelSlots | ARGB.c:348-353 | one pixel fills exactly one 24-slot half |
| Stream.PixelSlotsByByte | ARGB.c:348-353 | a pixel's half is its green, red and blue bytes encoded one after another |
| Stream.Interleaved | ARGB.c:348-353 | writing slot i of the three bytes at offsets i, 8 + i and 16 + i, for every i, leaves the three encoded bytes in order |
| Stream.FirstTwoPixels | ARGB.c:132-140 | encoding bytes 0 to 5 in one run is pixel 0's half followed by pixel 1's half |
| Stream.HalfContent | ARGB.c:346-357 | every frame half is 24 slots long |
| Stream.Halves | ARGB.c:283-293 | k staged halves are 24k slots long |
| Stream.Zeros | ARGB.c:292 | the `memset` of a reset half gives the requested number of zero slots |
| Stream.FrameAt | ARGB.c:283-293 | the frame lists the halves in cursor order: entry k is frame half k |
| Stream.FlattenFrame | ARGB.c:283-293 | the first k frame entries laid end to end are the first k halves |
| Stream.HalvesArePixels | ARGB.c:346-354 | the first k ≤ N halves are the encoding of the first 3k pixel bytes |
| Stream.FrameIsEncodingThenReset | ARGB.c:283-295 | all N + 2 halves are the encoding of the whole pixel buffer followed by 48 zero slots |
| Stream.DrainedHalves | ARGB.c:294-327 | the DMA sends N + 2 halves for an even N and N + 1 for an odd N, always an even number, because the complete callback stops it at cursor N + 2 |
| Stream.DrainedFrame | ARGB.c:283-295 | the halves sent are the encoding of the whole pixel buffer followed by 48 zero slots for an even N and 24 for an odd N |
| Stream.FrameDecodes | ARGB.c:283-295 | when the thresholds differ, decoding the data part of the halves sent recovers the pixel buffer exactly |
| Stream.WithHalf | ARGB.c:285-292 | replacing one half leaves the other half unchanged |
| Stream.WithHalfAt | ARGB.c:348-356 | a buffer that differs from another only in one half, where it holds given content, is that half replaced |
| Stream.StagedStep | ARGB.c:283-293 | staging frame half c into the buffer half of its parity and advancing the cursor keeps each buffer half the newest frame half of its parity |
| Stream.LastHalf | ARGB.c:283-293 | the newest frame half of a given parity is among the last two staged |
| Argb.Strip.Valid | test_2_strip/Core/Inc/ARGB.h:29-36 | the record invariant: buffer sizes 3N and 48, N ≥ 2 with N + 2 < 65536, a cursor of at most N + 2 and never 1, and BUSY whenever the cursor is non-zero |
| Argb.Strip.Staged | ARGB.c:283-293 | for a frame in flight with cursor c, each transfer-buffer half holds the newest frame half of its parity below c |
| Argb.Strip.constructor | test_2_strip/Core/Inc/ARGB.h:26-40 | a fresh record has zeroed buffers of 3N and 48 entries, state READY, cursor 0 and satisfies the invariant |
| Argb.Strip.Init | ARGB.c:32-41 | the reload is `TimerReload` of the bus clock and the state becomes READY; the invariant survives exactly when no frame is in flight |
| Argb.Strip.SetBrightness | ARGB.c:60-62 | only the brightness changes; stored bytes are not rescaled |
| Argb.Strip.ReadyState | ARGB.c:118-120 | the reported state is BUSY or READY, and it is BUSY while a frame is in flight |
| Argb.Strip.SetRGB | ARGB.c:71-94 | the buffer becomes `PutPixel` of the scaled pixel at `WrapIndex(i, N)`, and nothing else changes |
| Argb.Strip.StorePixel | ARGB.c:91-93 | the three byte stores are `PutPixel` at an in-range index |
| Argb.Strip.FillRGB | ARGB.c:106-109 | afterwards the buffer is N copies of the scaled triple |
| Argb.Strip.Clear | ARGB.c:51-53 | afterwards all 3N bytes are 0 |
| Argb.Strip.Show | ARGB.c:127-233 | the state is BUSY in every case. A call made while a frame is in flight, or while the DMA channel is not ready, returns BUSY and leaves the cursor and both buffers untouched. Otherwise it returns OK, the cursor is 2, the transfer buffer is the encoding of bytes 0..5, and the staging invariant holds |
| Argb.Strip.EncodeFirstTwo | ARGB.c:132-140 | the encode loop leaves pixel 0 in the first half and pixel 1 in the second |
| Argb.Strip.EncodeColumn | ARGB.c:133-139 | one pass writes slot i of bytes 0 to 5 at i, i+8, …, i+40 and nothing else |
| Argb.Strip.HalfCplt | ARGB.c:337-359 | for foreign handles or cursor 0 it does nothing. Below N + 2 the first half receives frame half `cursor` and the cursor advances. At N + 2 it does nothing. It preserves the staging invariant at even cursors |
| Argb.Strip.Cplt | ARGB.c:252-330 | for foreign handles or cursor 0 it does nothing. Below N + 2 the second half receives frame half `cursor` and the cursor advances. At N + 2 the cursor becomes 0 and the state READY. It preserves the staging invariant at odd cursors |
| Argb.Strip.Refill | ARGB.c:346-357 | below cursor N + 2 one half receives frame half `cursor` and the cursor advances; the staging invariant carries over when the half matches the cursor's parity |
| Argb.Strip.StagePixel | ARGB.c:348-353 | the refill loop replaces exactly one half with the pixel's 24 slots |
| Argb.Strip.StageColumn | ARGB.c:350-352 | one pass of the refill loop writes slot i of the pixel's three bytes and nothing else |
| Argb.Strip.ZeroHalf | ARGB.c:356 | the `memset` replaces exactly one half with zeros |
| Transmission.ShowFrame | ARGB.c:127-359 | showing an idle strip returns OK. It ends READY with cursor 0 after exactly N callback refills. The halves sent, in order, are the encoding of the whole pixel buffer followed by 48 zero slots for an even N and 24 for an odd N. The transfer buffer is left all zeros |
| Transmission.Drain | ARGB.c:252-359 | alternating interrupts, starting from the two halves `ARGB_Show` staged, send exactly the first `DrainedHalves(N)` frame halves in order and leave the strip READY, after N refills, with an all-zero transfer buffer |
| Transmission.HalfRound | ARGB.c:337-359 | a half-complete interrupt sends the first buffer half, which holds frame half `sent`, then refills it with frame half `sent + 2` unless all N + 2 are staged |
| Transmission.CpltRound | ARGB.c:252-330 | a complete interrupt sends the second buffer half, which holds frame half `sent`; it then refills it with the next frame half of its parity, or ends the frame READY, with an all-zero transfer buffer, exactly when more than N halves have been sent (every pixel half and at least one reset half) |
| Transmission.HalfStep | ARGB.c:337-359 | the half-complete callback in mid-frame refills the first half with frame half `sent + 2` while that is below N + 2, and leaves the second half alone |
| Transmission.CpltStep | ARGB.c:252-330 | the complete callback in mid-frame refills the second half with frame half `sent + 2`, or, at cursor N + 2, stops with cursor 0 and READY; the first half is left alone |
| Transmission.LastRound | ARGB.c:294-327 | the arithmetic behind `Drain`'s count: when N is 2·rounds or 2·rounds + 1, the 2·rounds + 2 halves sent by the end of that round are `DrainedHalves(N)` |

## Left out

- HAL and register plumbing is not modelled. This covers:
  - the bus-clock query and the APB prescaler test (ARGB.c:23-29), so the bus frequency is a parameter of `TimerReload`;
  - the PSC and EGR writes, channel enable and delay (ARGB.c:34-43);
  - the DMA-ID and CCR `switch` tables;
  - the DMA start and abort, and timer output enable and disable;
  - the HAL channel-state bookkeeping in the complete callback (ARGB.c:259-281, 326, 329).

  These are calls into the vendor library with no visible semantics here.
- The floating-point duty computation `(u8_t)(APBfq * 0.56) - 1` (ARGB.c:38-39) is not modelled. `PWM_HI` and `PWM_LO` are given byte constants of the record.
- Argb.Strip.Show: the arming retry loop (ARGB.c:141-230) is one atomic, successful step. Its error branches spin forever. The DMA-ready test is a boolean parameter.
- Argb.Strip.HalfCplt: the handle-identity test (ARGB.c:343) is a boolean parameter.
- Argb.Strip.Cplt: the handle-identity test (ARGB.c:257) is a boolean parameter.
- Transmission.ShowFrame: interrupts are sequential method calls that alternate, starting with half-complete, and each records the half it has just sent before its callback refills it. Whether a refill finishes before the DMA reads that half again is a timing property outside the model.
- Argb.Strip.EncodeFirstTwo: the source runs its encode loop inline in `ARGB_Show`. Here it is a method, and the six stores of one pass are `EncodeColumn`.
- Argb.Strip.StagePixel: each callback's refill loop is one method shared by both halves, and its three stores are `StageColumn`.
- Caller obligations the code does not check are not modelled. One example is not writing pixels while a frame is in flight. The model's sequential calls cannot interleave with the encoder.
- `volatile` loop counters and memory-ordering effects are not modelled.
