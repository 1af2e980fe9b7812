/**
 * The range strategy: caller-supplied `(lower, upper)` pairs, one per bucket;
 * a value goes to the first pair with `lower <= value < upper`, and to the
 * last bucket when no pair contains it.
 */
module RangeStrategy {
  import opened Wrappers

  /** `RangeBucketizer::new(ranges)` is this constructor: the ranges are
      stored as given, in order. */
  datatype RangeBucketizer = RangeBucketizer(ranges: seq<(int, int)>)

  /** The inclusive-lower, exclusive-upper test of one range. */
  predicate Contains(range: (int, int), value: int) {
    value >= range.0 && value < range.1
  }

  /** `iter().position(..)`: the index of the first range containing
      `value`, or `None` when no range does. */
  function Position(ranges: seq<(int, int)>, value: int): (p: Option<nat>)
    ensures p.Some? ==> p.value < |ranges| && Contains(ranges[p.value], value)
    ensures p.Some? ==> forall j :: 0 <= j < p.value ==> !Contains(ranges[j], value)
    ensures p.None? <==> forall j :: 0 <= j < |ranges| ==> !Contains(ranges[j], value)
  {
    if |ranges| == 0 then None
    else if Contains(ranges[0], value) then Some(0)
    else match Position(ranges[1..], value)
      case None => None
      case Some(i) => Some(i + 1)
  }

  /** With no ranges `len - 1` underflows. */
  predicate WellFormed(b: RangeBucketizer) {
    |b.ranges| >= 1
  }

  /** `bucketize`: always an index of `ranges`; the first range containing
      the value when there is one, the last index otherwise. */
  function Bucketize(b: RangeBucketizer, value: int): (r: nat)
    requires WellFormed(b)
    ensures r < |b.ranges|
    ensures (exists j :: 0 <= j < |b.ranges| && Contains(b.ranges[j], value)) ==>
              Contains(b.ranges[r], value) &&
              forall j :: 0 <= j < r ==> !Contains(b.ranges[j], value)
    ensures (forall j :: 0 <= j < |b.ranges| ==> !Contains(b.ranges[j], value)) ==>
              r == |b.ranges| - 1
  {
    match Position(b.ranges, value)
    case Some(val) => val
    case None => |b.ranges| - 1
  }

  ghost predicate Disjoint(ranges: seq<(int, int)>) {
    forall i, j, v :: 0 <= i < j < |ranges| && Contains(ranges[i], v) ==> !Contains(ranges[j], v)
  }

  /** With non-overlapping ranges, a value inside range `k` goes to bucket
      `k`. */
  lemma DisjointSelectsContaining(b: RangeBucketizer, k: nat, value: int)
    requires k < |b.ranges| && Disjoint(b.ranges)
    requires Contains(b.ranges[k], value)
    ensures Bucketize(b, value) == k
  {
  }

  /** Doc example: the ranges [0,5), [5,10), [10,20), [20, i32::MAX) put 7 in
      bucket 1; a value no range contains falls back to the last bucket. */
  lemma DocExample()
    ensures Bucketize(RangeBucketizer([(0, 5), (5, 10), (10, 20), (20, 0x7fff_ffff)]), 7) == 1
    ensures Bucketize(RangeBucketizer([(0, 5), (5, 10), (10, 20), (20, 0x7fff_ffff)]), -3) == 3
  {
  }
}
