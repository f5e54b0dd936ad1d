/** The integer part of the timer set-up done by `ARGB_Init`. */
module Timing {
  import opened Types

  /** The NRZ carrier frequency: one bit every 1.25 microseconds. */
  const CarrierHz: nat := 800 * 1000

  /**
   * The auto-reload value written to the timer: the bus frequency divided by the
   * carrier, minus one, computed in 32-bit unsigned arithmetic and then truncated
   * to 16 bits by the cast. There is no error path: a clock below the carrier
   * wraps to 0xFFFFFFFF and is truncated to 0xFFFF. Every 32-bit clock gives at
   * most 5368 carrier ticks, so above the carrier nothing is lost to the cast.
   */
  function TimerReload(apbHz: u32): (arr: u16)
    ensures CarrierHz <= apbHz ==> arr + 1 == apbHz / CarrierHz && arr < 5368
    ensures apbHz < CarrierHz ==> arr == 0xFFFF
  {
    var ticks := apbHz / CarrierHz;
    var wide: u32 := (ticks - 1) % 0x1_0000_0000;
    wide % 0x1_0000
  }
}
