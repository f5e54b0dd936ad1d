/** Machine integer ranges and the driver's status enum (ARGB.h). */
module Types {

  /** `uint8_t` / `u8_t`: the pixel bytes, brightness and the two duty thresholds. */
  type u8 = x: int | 0 <= x < 0x100

  /** `uint16_t`: pixel count, fill cursor, pixel index and the timer reload value. */
  type u16 = x: int | 0 <= x < 0x1_0000

  /** `u32_t`: one compare value of the transfer buffer, and the bus clock frequency. */
  type u32 = x: int | 0 <= x < 0x1_0000_0000

  datatype Option<T> = None | Some(value: T)

  /** `ARGB_STATE`. */
  datatype State = Busy | Ready | Ok | ParamErr

  /** The numeric value C gives each enumerator. */
  function Code(s: State): (c: u8)
    ensures c < 4
    ensures c == 0 <==> s == Busy
    ensures c == 1 <==> s == Ready
  {
    match s
    case Busy => 0
    case Ready => 1
    case Ok => 2
    case ParamErr => 3
  }

  /** The enumerator a numeric value denotes, if any. */
  function FromCode(c: int): (s: Option<State>)
    ensures s.Some? <==> 0 <= c < 4
  {
    if c == 0 then Some(Busy)
    else if c == 1 then Some(Ready)
    else if c == 2 then Some(Ok)
    else if c == 3 then Some(ParamErr)
    else None
  }

  /** The four enumerators are distinct and every one round-trips through its code. */
  lemma CodeRoundTrip(s: State)
    ensures FromCode(Code(s)) == Some(s)
    ensures forall t: State :: Code(t) == Code(s) ==> t == s
  {
  }

  /** Every valid code round-trips through its enumerator. */
  lemma FromCodeRoundTrip(c: int)
    requires 0 <= c < 4
    ensures FromCode(c).Some? && Code(FromCode(c).value) == c
  {
  }
}
