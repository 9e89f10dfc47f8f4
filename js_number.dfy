/** JavaScript's 32-bit integer coercion, written out explicitly.
    The bundle applies `x | 0` (ToInt32) to lengths, quantities, window
    lengths and clock readings. */
module JsNumber {

  const TwoTo31: int := 0x8000_0000
  const TwoTo32: int := 0x1_0000_0000

  /** The values `x | 0` can produce. */
  type Int32 = x: int | -TwoTo31 <= x < TwoTo31

  /** ToInt32 on an integral number: reduce modulo 2^32 into the signed range. */
  function ToInt32(x: int): (r: Int32)
    ensures (r - x) % TwoTo32 == 0
    ensures -TwoTo31 <= x < TwoTo31 ==> r == x
  {
    var m := x % TwoTo32;
    if m < TwoTo31 then m else m - TwoTo32
  }
}
