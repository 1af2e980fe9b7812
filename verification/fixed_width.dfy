/**
 * The fixed-width strategy: unbounded buckets of `width` starting at
 * `offset`. The index is `(value - offset) / width` in the element type,
 * cast to `usize`; nothing is clamped.
 */
module FixedWidthStrategy {
  import opened RustInt
  import opened UsizeCast

  /** `FixedWidthBucketizer::new(width, offset)` is this constructor: both
      fields are stored as given. */
  datatype FixedWidthBucketizer = FixedWidthBucketizer(width: int, offset: int)

  /** A zero width divides by zero; any other width is accepted. */
  predicate WellFormed(b: FixedWidthBucketizer) {
    b.width != 0
  }

  /** `bucketize`: for a positive width and a value at or above the offset
      whose quotient fits a `usize` (`value - offset < 2^64 * width`), the
      value lies in the half-open bucket
      `[offset + r * width, offset + (r + 1) * width)`. */
  function Bucketize(b: FixedWidthBucketizer, value: int): (r: Usize)
    requires WellFormed(b)
    ensures 0 < b.width && b.offset <= value && value - b.offset < USIZE_BOUND * b.width ==>
              b.offset + r * b.width <= value < b.offset + (r + 1) * b.width
  {
    var adjusted := value - b.offset;
    var index := TruncDiv(adjusted, b.width);
    TruncDivIsFloor(adjusted, b.width);
    QuotientPastUsize(index, b.width);
    IntoUsize(index)
  }

  /** A quotient of `2^64` or more, times a positive width, reaches at least
      `2^64` widths. */
  lemma QuotientPastUsize(q: int, w: int)
    ensures 0 < w && USIZE_BOUND <= q ==> USIZE_BOUND * w <= q * w
  {
    if 0 < w && USIZE_BOUND <= q {
      MulMonotone(USIZE_BOUND, q, w);
    }
  }

  /** A bucket boundary `offset + k * width` opens bucket `k`: it belongs to
      the higher bucket, not to `k - 1`. */
  lemma BoundaryOpensBucket(b: FixedWidthBucketizer, k: Usize)
    requires WellFormed(b)
    ensures Bucketize(b, b.offset + k * b.width) == k
  {
    TruncDivExact(k, b.width);
  }

  /** Above the offset, a larger value never gets a smaller bucket. */
  lemma Monotone(b: FixedWidthBucketizer, v1: int, v2: int)
    requires 0 < b.width
    requires b.offset <= v1 <= v2 && v2 - b.offset < USIZE_BOUND * b.width
    ensures Bucketize(b, v1) <= Bucketize(b, v2)
  {
    var r1, r2 := Bucketize(b, v1), Bucketize(b, v2);
    if r1 > r2 {
      MulMonotone(r2 + 1, r1, b.width);
    }
  }

  /** Below the offset the quotient truncates toward zero: less than one
      width below still gives bucket 0, and further below the negative
      quotient wraps to a huge index. */
  lemma BelowOffset(b: FixedWidthBucketizer, value: int)
    requires 0 < b.width && value < b.offset
    ensures b.offset - b.width < value ==> Bucketize(b, value) == 0
    ensures b.offset - USIZE_BOUND * b.width < value <= b.offset - b.width ==>
              Bucketize(b, value) == USIZE_BOUND - TruncDiv(b.offset - value, b.width)
  {
    var d, w := b.offset - value, b.width;
    var p := TruncDiv(d, w);
    TruncDivNegate(d, w);
    TruncDivIsFloor(d, w);
    if d < w {
      if p > 0 {
        MulAtLeast(p, w);
      }
      assert p == 0;
    } else if d < USIZE_BOUND * w {
      if p >= USIZE_BOUND {
        MulMonotone(USIZE_BOUND, p, w);
      }
      NegativeWraps(-p);
    }
  }

  /** Doc example: width 5 and offset 0 put 12 in bucket 2. */
  lemma DocExample()
    ensures Bucketize(FixedWidthBucketizer(5, 0), 12) == 2
  {
  }
}
