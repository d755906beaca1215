/** Swift's 64-bit `Int` and the two additions the source uses on it:
    `+`, which traps on overflow, and `&+`, which wraps around. */
module SwiftInt {
  import opened Wrappers

  const MinInt: int := -0x8000_0000_0000_0000
  const MaxInt: int := 0x7FFF_FFFF_FFFF_FFFF

  newtype Int64 = x: int | -0x8000_0000_0000_0000 <= x < 0x8000_0000_0000_0000

  /** `a &+ b`: the mathematical sum reduced modulo 2^64 into the signed range. */
  function WrappingAdd(a: Int64, b: Int64): (r: Int64)
    ensures MinInt <= a as int + b as int <= MaxInt ==> r as int == a as int + b as int
    ensures (r as int - (a as int + b as int)) % 0x1_0000_0000_0000_0000 == 0
  {
    var s := a as int + b as int;
    if s > MaxInt then (s - 0x1_0000_0000_0000_0000) as Int64
    else if s < MinInt then (s + 0x1_0000_0000_0000_0000) as Int64
    else s as Int64
  }

  /** `a + b`: the sum, or `None` where Swift stops the program with an overflow trap. */
  function TrappingAdd(a: Int64, b: Int64): Option<Int64>
  {
    var s := a as int + b as int;
    if MinInt <= s <= MaxInt then Some(s as Int64) else None
  }

  /** Where `+` does not trap, it agrees with `&+`. */
  lemma TrappingAgreesWithWrapping(a: Int64, b: Int64)
    requires TrappingAdd(a, b).Some?
    ensures TrappingAdd(a, b).value == WrappingAdd(a, b)
  {
  }
}
