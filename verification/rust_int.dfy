/**
 * Rust's primitive integer division on the element type `T`.
 * Rust's `/` on integers truncates toward zero, whereas Dafny's `/` on `int`
 * is Euclidean, so the operator is written out here.
 */
module RustInt {

  function Abs(x: int): nat {
    if x < 0 then -x else x
  }

  /** `a / b` for a Rust integer type: the quotient rounded toward zero.
      The remainder `a - q * b` is smaller than the divisor in magnitude and
      has the sign of the dividend, which determines `q` uniquely. */
  function TruncDiv(a: int, b: int): (q: int)
    requires b != 0
    ensures Abs(a - q * b) < Abs(b)
    ensures 0 <= a ==> 0 <= a - q * b
    ensures a <= 0 ==> a - q * b <= 0
  {
    var m := Abs(a) / Abs(b);
    FloorRemainder(Abs(a), Abs(b));
    NegateProduct(m, b);
    NegateProduct(m, -b);
    if (a < 0) == (b < 0) then m else -m
  }

  /** The Euclidean remainder of a natural number. */
  lemma FloorRemainder(n: nat, d: int)
    requires 0 < d
    ensures 0 <= n - (n / d) * d < d
  {
  }

  lemma NegateProduct(x: int, y: int)
    ensures (-x) * y == -(x * y) && x * (-y) == -(x * y)
  {
  }

  /** On a non-negative dividend and a positive divisor, truncation and
      flooring agree, and the quotient is at most the dividend. */
  lemma TruncDivIsFloor(a: int, b: int)
    requires b != 0
    ensures 0 <= a && 0 < b ==> TruncDiv(a, b) == a / b
    ensures 0 <= a && 0 < b ==> 0 <= TruncDiv(a, b) <= a
  {
    if 0 <= a && 0 < b {
      var q := a / b;
      FloorRemainder(a, b);
      if q > a {
        MulAtLeast(q, b);
      }
    }
  }

  /** A value of the form `k * w` divides back to `k`. */
  lemma TruncDivExact(k: int, w: int)
    requires w != 0
    ensures TruncDiv(k * w, w) == k
  {
    var q := TruncDiv(k * w, w);
    assert k * w - q * w == (k - q) * w;
    if k != q {
      NonZeroMultiple(k - q, w);
    }
  }

  /** The remainder conditions determine the truncated quotient. */
  lemma TruncDivUnique(a: int, b: int, q: int)
    requires b != 0
    requires Abs(a - q * b) < Abs(b)
    requires 0 <= a ==> 0 <= a - q * b
    requires a <= 0 ==> a - q * b <= 0
    ensures TruncDiv(a, b) == q
  {
    var t := TruncDiv(a, b);
    assert (a - q * b) - (a - t * b) == (t - q) * b;
    if t != q {
      NonZeroMultiple(t - q, b);
    }
  }

  /** Truncation is symmetric: negating the dividend negates the quotient. */
  lemma TruncDivNegate(a: int, b: int)
    requires b != 0
    ensures TruncDiv(-a, b) == -TruncDiv(a, b)
  {
    var q := TruncDiv(a, b);
    NegateProduct(q, b);
    assert -a - (-q) * b == -(a - q * b);
    TruncDivUnique(-a, b, -q);
  }

  /** A non-zero multiple of `w` is at least `w` in magnitude. */
  lemma NonZeroMultiple(d: int, w: int)
    requires d != 0 && w != 0
    ensures Abs(d * w) >= Abs(w)
  {
    MulAtLeast(Abs(d), Abs(w));
    if d < 0 { NegateProduct(d, w); NegateProduct(-d, w); }
    if w < 0 { NegateProduct(d, w); NegateProduct(d, -w); }
    assert Abs(d * w) == Abs(d) * Abs(w);
  }

  /** A positive factor never shrinks a positive number. */
  lemma MulAtLeast(x: int, w: int)
    requires 0 < x && 0 < w
    ensures w <= x * w && x <= x * w
  {
  }

  /** Multiplying by a non-negative factor keeps the order. */
  lemma MulMonotone(x: int, y: int, w: int)
    requires x <= y && 0 <= w
    ensures x * w <= y * w
  {
    assert y * w - x * w == (y - x) * w;
    assert (y - x) * w >= 0;
  }
}
