/**
 * The quantile strategy: caller-supplied cut points; a value goes to the
 * position of the first cut point strictly greater than it, or past the last
 * cut point when none is.
 */
module QuantileStrategy {

  /** `QuantileBucketizer::new(quantiles, n_quantiles)` is this constructor:
      both fields are stored as given, and `get_n_quantiles` is the
      `nQuantiles` field. */
  datatype QuantileBucketizer = QuantileBucketizer(quantiles: seq<int>, nQuantiles: nat)

  /** `iter().position(|&q| value < q).unwrap_or(len)`: the first cut point
      above `value`; every cut point before it is at most `value`. */
  function FirstAbove(quantiles: seq<int>, value: int): (r: nat)
    ensures r <= |quantiles|
    ensures r < |quantiles| ==> value < quantiles[r]
    ensures forall j :: 0 <= j < r ==> !(value < quantiles[j])
  {
    if |quantiles| == 0 then 0
    else if value < quantiles[0] then 0
    else 1 + FirstAbove(quantiles[1..], value)
  }

  /** `bucketize`: one of the `len + 1` buckets. */
  function Bucketize(b: QuantileBucketizer, value: int): (r: nat)
    ensures r <= |b.quantiles|
    ensures r < |b.quantiles| ==> value < b.quantiles[r]
    ensures r == |b.quantiles| <==> forall j :: 0 <= j < |b.quantiles| ==> !(value < b.quantiles[j])
  {
    FirstAbove(b.quantiles, value)
  }

  /** `n_quantiles` is informational: `bucketize` does not depend on it. */
  lemma NQuantilesUnused(quantiles: seq<int>, n1: nat, n2: nat, value: int)
    ensures Bucketize(QuantileBucketizer(quantiles, n1), value)
         == Bucketize(QuantileBucketizer(quantiles, n2), value)
  {
  }

  /** A larger value never gets a smaller bucket, sorted cut points or not. */
  lemma Monotone(b: QuantileBucketizer, v1: int, v2: int)
    requires v1 <= v2
    ensures Bucketize(b, v1) <= Bucketize(b, v2)
  {
  }

  predicate Ascending(s: seq<int>) {
    forall i, j :: 0 <= i < j < |s| ==> s[i] <= s[j]
  }

  /** The number of cut points at most `value`. */
  function CountAtMost(quantiles: seq<int>, value: int): (n: nat)
    ensures n <= |quantiles|
  {
    if |quantiles| == 0 then 0
    else (if quantiles[0] <= value then 1 else 0) + CountAtMost(quantiles[1..], value)
  }

  /** With ascending cut points the bucket is the number of cut points at or
      below the value: a value equal to a cut point is counted with it and so
      goes to the bucket after it. */
  lemma {:induction false} AscendingCountsCutPoints(quantiles: seq<int>, value: int)
    requires Ascending(quantiles)
    ensures FirstAbove(quantiles, value) == CountAtMost(quantiles, value)
  {
    if |quantiles| == 0 {
    } else if value < quantiles[0] {
      NoneAtMost(quantiles, value);
    } else {
      AscendingCountsCutPoints(quantiles[1..], value);
    }
  }

  lemma {:induction false} NoneAtMost(quantiles: seq<int>, value: int)
    requires forall j :: 0 <= j < |quantiles| ==> value < quantiles[j]
    ensures CountAtMost(quantiles, value) == 0
  {
    if |quantiles| > 0 {
      NoneAtMost(quantiles[1..], value);
    }
  }

  /** Doc example: cut points 25, 50, 75 put 55 in bucket 2, and 50, equal to
      a cut point, in the bucket after it. */
  lemma DocExample()
    ensures Bucketize(QuantileBucketizer([25, 50, 75], 3), 55) == 2
    ensures Bucketize(QuantileBucketizer([25, 50, 75], 3), 50) == 2
    ensures Bucketize(QuantileBucketizer([25, 50, 75], 3), 80) == 3
  {
  }
}
