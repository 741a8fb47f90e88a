/** The 64-bit signed integers of Go's `int64`: event times, windows and durations. */
module Int64 {
  const MIN: int := -0x8000_0000_0000_0000
  const MAX: int := 0x7fff_ffff_ffff_ffff
  const MODULUS: int := 0x1_0000_0000_0000_0000

  type int64 = x: int | MIN <= x <= MAX

  /** The two's-complement reading of the low 64 bits of `x`. */
  function Wrap(x: int): (r: int64) {
    var m := x % MODULUS;
    if m > MAX then m - MODULUS else m
  }

  /** Go's `a - b` on two `int64`s: the difference, wrapped once when it leaves the range. */
  function Sub(a: int, b: int): (r: int)
    ensures MIN <= a <= MAX && MIN <= b <= MAX ==> r == Wrap(a - b)
  {
    var d := a - b;
    assert (d + MODULUS) % MODULUS == d % MODULUS && (d - MODULUS) % MODULUS == d % MODULUS;
    if d > MAX then d - MODULUS else if d < MIN then d + MODULUS else d
  }
}
