/** Types shared by the firmware model and the serial-bridge model. */
module Common {

  /** An optional value: a routing lookup that may return null, a parse that may fail. */
  datatype Option<T> = None | Some(value: T)

  /** A byte as both `uint8_t` and a Python `bytes` element see it. */
  type byte = b: int | 0 <= b < 256

  /** `uint16_t`: mesh addresses. */
  type u16 = x: int | 0 <= x < 0x1_0000

  /** `uint32_t`: the telemetry counter. */
  type u32 = x: int | 0 <= x < 0x1_0000_0000

  const TwoTo31: int := 0x8000_0000
  const TwoTo32: int := 0x1_0000_0000

  /** True when every value of `s` fits in a byte, i.e. Python's `bytes(s)` does not raise. */
  predicate IsByteSeq(s: seq<int>)
  {
    forall i :: 0 <= i < |s| ==> 0 <= s[i] < 256
  }

  /** The conversion `bytes(s)` for a list whose values all fit. */
  function ToBytes(s: seq<int>): (r: seq<byte>)
    requires IsByteSeq(s)
    ensures |r| == |s| && forall i :: 0 <= i < |s| ==> r[i] == s[i]
  {
    seq(|s|, i requires 0 <= i < |s| => s[i] as byte)
  }
}
