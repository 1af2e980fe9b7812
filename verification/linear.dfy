/**
 * The linear strategy: `num_buckets` equally wide buckets starting at
 * `start`. The index is the fixed-width index relative to `start`, clamped
 * to the last bucket.
 */
module LinearStrategy {
  import opened RustInt
  import opened UsizeCast
  import FixedWidthStrategy

  datatype LinearBucketizer = LinearBucketizer(start: int, numBuckets: Usize, bucketWidth: int)

  /** `LinearBucketizer::new(start, end, num_buckets)`: the width is
      `(end - start) / num_buckets` in the element type, computed once, and the
      count is cast to `usize`. For a positive count and `start <= end` the
      buckets cover at most `[start, end)` and leave less than one bucket
      width per bucket uncovered. */
  function New(start: int, end: int, numBuckets: int): (b: LinearBucketizer)
    requires numBuckets != 0
    ensures b.start == start && b.numBuckets == IntoUsize(numBuckets)
    ensures 0 < numBuckets && start <= end ==>
              0 <= b.bucketWidth * numBuckets <= end - start < (b.bucketWidth + 1) * numBuckets
  {
    var bucketWidth := TruncDiv(end - start, numBuckets);
    NegateProduct(bucketWidth, numBuckets);
    LinearBucketizer(start, IntoUsize(numBuckets), bucketWidth)
  }

  /** `bucketize` divides by the width and subtracts one from the count, so
      both must be non-zero. */
  predicate WellFormed(b: LinearBucketizer) {
    b.bucketWidth != 0 && 1 <= b.numBuckets
  }

  /** A range at least as long as the bucket count yields a usable
      bucketizer. */
  lemma NewWellFormed(start: int, end: int, numBuckets: int)
    requires 0 < numBuckets < USIZE_BOUND && numBuckets <= end - start
    ensures WellFormed(New(start, end, numBuckets))
  {
  }

  /** The unclamped fixed-width bucketizer anchored at `start`. */
  function Unclamped(b: LinearBucketizer): FixedWidthStrategy.FixedWidthBucketizer {
    FixedWidthStrategy.FixedWidthBucketizer(b.bucketWidth, b.start)
  }

  /** `bucketize`: always one of the `num_buckets` buckets; the fixed-width
      index relative to `start` when it is in range, the last bucket
      otherwise. */
  function Bucketize(b: LinearBucketizer, value: int): (r: Usize)
    requires WellFormed(b)
    ensures r < b.numBuckets
    ensures FixedWidthStrategy.Bucketize(Unclamped(b), value) < b.numBuckets ==>
              r == FixedWidthStrategy.Bucketize(Unclamped(b), value)
    ensures FixedWidthStrategy.Bucketize(Unclamped(b), value) >= b.numBuckets ==>
              r == b.numBuckets - 1
  {
    var bucketIndex := IntoUsize(TruncDiv(value - b.start, b.bucketWidth));
    if bucketIndex < b.numBuckets then bucketIndex else b.numBuckets - 1
  }

  /** A value inside the covered span `[start, start + num_buckets * width)`
      lies in the half-open interval of its bucket. */
  lemma InsideSpan(b: LinearBucketizer, value: int)
    requires WellFormed(b) && 0 < b.bucketWidth
    requires b.start <= value < b.start + b.numBuckets * b.bucketWidth
    ensures var r := Bucketize(b, value);
            b.start + r * b.bucketWidth <= value < b.start + (r + 1) * b.bucketWidth
  {
    MulMonotone(b.numBuckets, USIZE_BOUND, b.bucketWidth);
    var f := FixedWidthStrategy.Bucketize(Unclamped(b), value);
    if f >= b.numBuckets {
      MulMonotone(b.numBuckets, f, b.bucketWidth);
    }
  }

  /** A value at or past the end of the covered span clamps to the last
      bucket. */
  lemma PastSpanClamps(b: LinearBucketizer, value: int)
    requires WellFormed(b) && 0 < b.bucketWidth
    requires b.start + b.numBuckets * b.bucketWidth <= value
    requires value - b.start < USIZE_BOUND * b.bucketWidth
    ensures Bucketize(b, value) == b.numBuckets - 1
  {
    var f := FixedWidthStrategy.Bucketize(Unclamped(b), value);
    if f < b.numBuckets {
      MulMonotone(f + 1, b.numBuckets, b.bucketWidth);
    }
  }

  /** Less than one width below `start` the truncated quotient is 0. */
  lemma JustBelowStart(b: LinearBucketizer, value: int)
    requires WellFormed(b) && 0 < b.bucketWidth
    requires b.start - b.bucketWidth < value < b.start
    ensures Bucketize(b, value) == 0
  {
    FixedWidthStrategy.BelowOffset(Unclamped(b), value);
  }

  /** One width or more below `start` the negative quotient wraps around in
      the cast to a huge index, which clamps to the LAST bucket, not to 0. */
  lemma FarBelowStartClampsHigh(b: LinearBucketizer, value: int)
    requires WellFormed(b) && 0 < b.bucketWidth
    requires b.start - (USIZE_BOUND - b.numBuckets) * b.bucketWidth <= value <= b.start - b.bucketWidth
    ensures Bucketize(b, value) == b.numBuckets - 1
  {
    var n, w, d := b.numBuckets, b.bucketWidth, b.start - value;
    var p := TruncDiv(d, w);
    TruncDivIsFloor(d, w);
    assert p * w <= d;
    if p > USIZE_BOUND - n {
      MulMonotone(USIZE_BOUND - n + 1, p, w);
    }
    assert p <= USIZE_BOUND - n;
    MulAtLeast(n, w);
    assert (USIZE_BOUND - n) * w == USIZE_BOUND * w - n * w;
    FixedWidthStrategy.BelowOffset(Unclamped(b), value);
  }

  /** With a 128-bit element type the quotient can reach `2^64`, and the
      cast to `usize` keeps only its low 64 bits before the clamp: with
      width 1 and 4 buckets, `2^64 + 1` and `-(2^64 - 1)` both land in
      bucket 1 instead of the last bucket. */
  lemma WideQuotientMissesClamp()
    ensures Bucketize(LinearBucketizer(0, 4, 1), USIZE_BOUND + 1) == 1
    ensures Bucketize(LinearBucketizer(0, 4, 1), -(USIZE_BOUND - 1)) == 1
  {
  }

  /** Doc example: start 0, end 20 and 4 buckets put 7 in bucket 1; for the
      integer element type, -5 lands in the last bucket. */
  lemma DocExample()
    ensures Bucketize(New(0, 20, 4), 7) == 1
    ensures Bucketize(New(0, 20, 4), -5) == 3
  {
  }
}
