/**
 Go's `int64`: signed 64-bit two's-complement integers whose `+` wraps
 around on overflow instead of failing. The counter store keeps one such
 accumulator per key and adds deltas to it with this `+`.
 */
module Int64 {

  const MODULUS: int := 0x1_0000_0000_0000_0000
  const MIN: int := -0x8000_0000_0000_0000
  const MAX: int := 0x7fff_ffff_ffff_ffff

  newtype int64 = x: int | -0x8000_0000_0000_0000 <= x < 0x8000_0000_0000_0000

  /** The int64 that is congruent to `x` modulo 2^64: the value a Go
      program holds after computing `x` with wrap-around arithmetic. */
  function Wrap(x: int): (r: int64)
    ensures MIN <= x <= MAX ==> r as int == x
  {
    ((x - MIN) % MODULUS + MIN) as int64
  }

  /** Go's `a + b` on int64 operands. */
  function Add(a: int64, b: int64): (r: int64)
    ensures MIN <= a as int + b as int <= MAX ==> r as int == a as int + b as int
    ensures a as int + b as int > MAX ==> r as int == a as int + b as int - MODULUS
    ensures a as int + b as int < MIN ==> r as int == a as int + b as int + MODULUS
  {
    Wrap(a as int + b as int)
  }

  /** Wrapping an intermediate result early changes nothing: adding `y` to
      the wrapped value of `x` gives the wrap of `x + y`. This is why a
      sequence of wrapping additions equals the wrap of the exact sum. */
  lemma WrapPlus(x: int, y: int)
    ensures Wrap(Wrap(x) as int + y) == Wrap(x + y)
  {
  }
}
