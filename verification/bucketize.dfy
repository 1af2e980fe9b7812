/**
 * The two-level capability: `bucketize` maps one value to its bucket, and
 * `bucketize_iter`, by default, maps `bucketize` over a sequence. The five
 * strategies are the cases of `Strategy`.
 */
module Bucketizing {
  import opened UsizeCast
  import FixedWidthStrategy
  import LinearStrategy
  import QuantileStrategy
  import RangeStrategy
  import CustomStrategy

  datatype Strategy =
    | FixedWidth(fixedWidth: FixedWidthStrategy.FixedWidthBucketizer)
    | Linear(linear: LinearStrategy.LinearBucketizer)
    | Quantile(quantile: QuantileStrategy.QuantileBucketizer)
    | Range(range: RangeStrategy.RangeBucketizer)
    | Custom(custom: CustomStrategy.CustomBucketizer)

  /** The configurations for which `bucketize` neither divides by zero nor
      underflows the bucket count on any value. */
  predicate WellFormed(s: Strategy) {
    match s
    case FixedWidth(b) => FixedWidthStrategy.WellFormed(b)
    case Linear(b) => LinearStrategy.WellFormed(b)
    case Quantile(_) => true
    case Range(b) => RangeStrategy.WellFormed(b)
    case Custom(_) => true
  }

  /** `BucketizeSingle::bucketize`: the index is bounded by the bucket count
      of each strategy that declares one. */
  function Bucketize(s: Strategy, value: int): (r: nat)
    requires WellFormed(s)
    ensures s.FixedWidth? ==> r < USIZE_BOUND
    ensures s.Linear? ==> r < s.linear.numBuckets
    ensures s.Quantile? ==> r <= |s.quantile.quantiles|
    ensures s.Range? ==> r < |s.range.ranges|
  {
    match s
    case FixedWidth(b) => FixedWidthStrategy.Bucketize(b, value)
    case Linear(b) => LinearStrategy.Bucketize(b, value)
    case Quantile(b) => QuantileStrategy.Bucketize(b, value)
    case Range(b) => RangeStrategy.Bucketize(b, value)
    case Custom(b) => CustomStrategy.Bucketize(b, value)
  }

  /** `Bucketize::bucketize_iter`: one index per input value, in order; an
      empty input never calls `bucketize`. */
  function BucketizeIter(s: Strategy, items: seq<int>): (r: seq<nat>)
    requires items != [] ==> WellFormed(s)
    ensures |r| == |items|
    ensures forall i :: 0 <= i < |items| ==> r[i] == Bucketize(s, items[i])
  {
    if items == [] then []
    else [Bucketize(s, items[0])] + BucketizeIter(s, items[1..])
  }

  /** The head of the input is bucketized first, then the rest. */
  lemma BucketizeIterCons(s: Strategy, items: seq<int>)
    requires items != [] && WellFormed(s)
    ensures BucketizeIter(s, items) == [Bucketize(s, items[0])] + BucketizeIter(s, items[1..])
  {
  }

  /** No lookahead: the first `k` indices depend only on the first `k`
      values, and are the first `k` indices of the whole output. */
  lemma BucketizeIterPrefix(s: Strategy, items: seq<int>, k: nat)
    requires k <= |items| && (items != [] ==> WellFormed(s))
    ensures BucketizeIter(s, items[..k]) == BucketizeIter(s, items)[..k]
  {
  }

  /** Bucketizing a concatenation bucketizes each part. */
  lemma {:induction false} BucketizeIterConcat(s: Strategy, xs: seq<int>, ys: seq<int>)
    requires xs + ys != [] ==> WellFormed(s)
    ensures BucketizeIter(s, xs + ys) == BucketizeIter(s, xs) + BucketizeIter(s, ys)
  {
    if xs != [] {
      assert (xs + ys)[1..] == xs[1..] + ys;
      BucketizeIterConcat(s, xs[1..], ys);
    } else {
      assert xs + ys == ys;
    }
  }

  /** The custom strategy returns exactly what its function returns. */
  lemma CustomDelegates(f: int -> Usize, value: int)
    ensures Bucketize(Custom(CustomStrategy.CustomBucketizer(f)), value) == f(value)
  {
  }

  /** Over a whole sequence, the custom strategy is its function mapped over
      the values. */
  lemma CustomIterIsMap(f: int -> Usize, items: seq<int>)
    ensures BucketizeIter(Custom(CustomStrategy.CustomBucketizer(f)), items)
         == seq(|items|, i requires 0 <= i < |items| => f(items[i]))
  {
  }
}
