// Two's-complement 64-bit arithmetic: every token counter of the cost governor is one of these.
module Width {
  const TWO64: int := 0x1_0000_0000_0000_0000
  const MAX64: int := 0x7FFF_FFFF_FFFF_FFFF
  const MIN64: int := -0x8000_0000_0000_0000

  type int64 = x: int | MIN64 <= x <= MAX64

  predicate Fits(x: int) {
    MIN64 <= x <= MAX64
  }

  // One addition or subtraction of two registers is at most one wrap away from the exact result.
  function Fold(x: int): (r: int64)
    requires MIN64 - TWO64 <= x <= MAX64 + TWO64
  {
    if x > MAX64 then x - TWO64 else if x < MIN64 then x + TWO64 else x
  }

  function Add64(a: int64, b: int64): int64 {
    Fold(a as int + b as int)
  }

  function Sub64(a: int64, b: int64): int64 {
    Fold(a as int - b as int)
  }

  // The register that an unbounded sum ends up in, however many additions it took.
  function Wrap(x: int): (r: int64) {
    (x - MIN64) % TWO64 + MIN64
  }

  // Folding step by step and wrapping the whole sum agree.
  lemma WrapFold(sum: int, b: int)
    requires -TWO64 <= b <= TWO64
    ensures Fold(Wrap(sum) + b) == Wrap(sum + b)
  {
    var x := sum - MIN64;
    var q := x / TWO64;
    assert Wrap(sum) == x - TWO64 * q + MIN64;
    assert (x + b - TWO64 * q) % TWO64 == (x + b) % TWO64;
  }
}
