/**
 * The numeric-to-index cast `into_usize`, instantiated for Rust's integer
 * types. The target `usize` is fixed at 64 bits; `x as usize` on an integer
 * keeps the low 64 bits of its two's-complement form, so it is total and
 * equals `x` reduced modulo 2^64.
 */
module UsizeCast {

  const USIZE_BOUND: int := 0x1_0000_0000_0000_0000
  const USIZE_MAX: int := USIZE_BOUND - 1

  /** A bucket index: a 64-bit `usize`. */
  type Usize = x: int | 0 <= x < USIZE_BOUND

  /** The integer types the cast is implemented for. */
  datatype IntKind = I8 | I16 | I32 | I64 | I128 | U8 | U16 | U32 | U64 | U128

  function MinValue(k: IntKind): int {
    match k
    case I8 => -0x80
    case I16 => -0x8000
    case I32 => -0x8000_0000
    case I64 => -0x8000_0000_0000_0000
    case I128 => -0x8000_0000_0000_0000_0000_0000_0000_0000
    case _ => 0
  }

  function MaxValue(k: IntKind): int {
    match k
    case I8 => 0x7f
    case I16 => 0x7fff
    case I32 => 0x7fff_ffff
    case I64 => 0x7fff_ffff_ffff_ffff
    case I128 => 0x7fff_ffff_ffff_ffff_ffff_ffff_ffff_ffff
    case U8 => 0xff
    case U16 => 0xffff
    case U32 => 0xffff_ffff
    case U64 => 0xffff_ffff_ffff_ffff
    case U128 => 0xffff_ffff_ffff_ffff_ffff_ffff_ffff_ffff
  }

  predicate Holds(k: IntKind, x: int) {
    MinValue(k) <= x <= MaxValue(k)
  }

  /** `*self as usize`: the result is the unique `usize` congruent to `x`
      modulo 2^64, and a value that already fits is returned unchanged. */
  function IntoUsize(x: int): (r: Usize)
    ensures (x - r) % USIZE_BOUND == 0
    ensures 0 <= x < USIZE_BOUND ==> r == x
  {
    x % USIZE_BOUND
  }

  /** A negative value of at most 64 bits wraps to `x + 2^64` instead of
      failing: -1 becomes `usize::MAX`. */
  lemma NegativeWraps(x: int)
    requires -USIZE_BOUND <= x < 0
    ensures IntoUsize(x) == x + USIZE_BOUND
    ensures x == -1 ==> IntoUsize(x) == USIZE_MAX
  {
  }

  /** Values that differ by a multiple of 2^64 are cast to the same index, so
      a 128-bit value above `usize::MAX` is reduced modulo 2^64. */
  lemma CastIsPeriodic(x: int, k: int)
    ensures IntoUsize(x + k * USIZE_BOUND) == IntoUsize(x)
  {
  }

  /** The cast for each integer type it is implemented for: the types of at
      most 64 bits keep non-negative values and wrap negative ones once, and
      the result is always a valid index. */
  lemma CastOfKind(k: IntKind, x: int)
    requires Holds(k, x)
    ensures k != I128 && k != U128 && 0 <= x ==> IntoUsize(x) == x
    ensures k != I128 && x < 0 ==> IntoUsize(x) == x + USIZE_BOUND
    ensures k == U128 && x > USIZE_MAX ==> IntoUsize(x) < x
  {
    if k != I128 && x < 0 {
      NegativeWraps(x);
    }
  }
}
