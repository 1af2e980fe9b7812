/**
 * The custom strategy: a caller-supplied function from a value to a bucket
 * index, to which `bucketize` delegates.
 */
module CustomStrategy {
  import opened UsizeCast

  /** `CustomBucketizer::new(func)` is this constructor: the function is
      stored as given. */
  datatype CustomBucketizer = CustomBucketizer(bucketizer: int -> Usize)

  /** `bucketize`: the stored function applied to the value. */
  function Bucketize(b: CustomBucketizer, value: int): Usize {
    b.bucketizer(value)
  }

  /** The threshold function of the doc examples (an integer analogue of the
      closure over `f64`). */
  function Threshold(value: int): Usize {
    if value < 5 then 0
    else if value < 10 then 1
    else if value < 20 then 2
    else 3
  }

  /** Doc example: the threshold function maps 7 to bucket 1. */
  lemma DocExample()
    ensures Bucketize(CustomBucketizer(Threshold), 7) == 1
  {
  }
}
