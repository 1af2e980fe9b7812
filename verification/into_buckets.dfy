/**
 * The lazy adapter: it owns the remaining input and a strategy, and each
 * `next` pulls exactly one value from the input and bucketizes it.
 */
module IntoBucketsAdapter {
  import opened Wrappers
  import opened Bucketizing
  import FixedWidthStrategy
  import CustomStrategy

  class IntoBuckets {
    /** What the owned inner iterator has still to yield. */
    var inner: seq<int>
    /** The strategy; `next` never replaces it. */
    const bucketizer: Strategy

    /** `IntoBuckets::new(inner, bucketizer)`: both are stored as given. */
    constructor (inner: seq<int>, bucketizer: Strategy)
      ensures this.inner == inner && this.bucketizer == bucketizer
    {
      this.inner := inner;
      this.bucketizer := bucketizer;
    }

    /** `Iterator::next`: on remaining input, the bucket of its head, with
        exactly that one value consumed; on exhausted input `None`, and the
        adapter stays exhausted. */
    method Next() returns (item: Option<nat>)
      requires inner != [] ==> WellFormed(bucketizer)
      modifies this
      ensures old(inner) == [] ==> item == None && inner == []
      ensures old(inner) != [] ==>
                item == Some(Bucketize(bucketizer, old(inner)[0])) && inner == old(inner)[1..]
    {
      if inner == [] {
        item := None;
      } else {
        var value := inner[0];
        inner := inner[1..];
        item := Some(Bucketize(bucketizer, value));
      }
    }

    /** `collect()` on the adapter: pulls until `None`; the result is
        `bucketize_iter` of the input, the same length and order. */
    method Collect() returns (binned: seq<nat>)
      requires inner != [] ==> WellFormed(bucketizer)
      modifies this
      ensures binned == BucketizeIter(bucketizer, old(inner)) && inner == []
    {
      binned := [];
      while true
        invariant inner != [] ==> WellFormed(bucketizer)
        invariant binned + BucketizeIter(bucketizer, inner) == BucketizeIter(bucketizer, old(inner))
        decreases |inner|
      {
        ghost var before := inner;
        var item := Next();
        match item
        case None =>
          return;
        case Some(index) =>
          BucketizeIterCons(bucketizer, before);
          assert binned + [index] + BucketizeIter(bucketizer, inner)
              == binned + ([index] + BucketizeIter(bucketizer, inner));
          binned := binned + [index];
      }
    }
  }

  /** Doc example of `next`: width 5 and offset 0 over [1, 6, 11, 25] yield
      0, 1, 2, 5, then `None`, and `None` again on a further pull. */
  method NextExample() returns (pulls: seq<Option<nat>>)
    ensures pulls == [Some(0), Some(1), Some(2), Some(5), None, None]
  {
    var adapter := new IntoBuckets([1, 6, 11, 25], FixedWidth(FixedWidthStrategy.FixedWidthBucketizer(5, 0)));
    var a := adapter.Next();
    var b := adapter.Next();
    var c := adapter.Next();
    var d := adapter.Next();
    var e := adapter.Next();
    var f := adapter.Next();
    pulls := [a, b, c, d, e, f];
  }

  /** Doc example of `new`: collecting the same adapter gives [0, 1, 2, 5]. */
  method CollectExample() returns (binned: seq<nat>)
    ensures binned == [0, 1, 2, 5]
  {
    var adapter := new IntoBuckets([1, 6, 11, 25], FixedWidth(FixedWidthStrategy.FixedWidthBucketizer(5, 0)));
    binned := adapter.Collect();
  }

  /** Doc example of the custom strategy driven through the adapter, on
      integer analogues of its data. */
  method CustomCollectExample() returns (binned: seq<nat>)
    ensures binned == [0, 0, 1, 2, 3]
  {
    var data := [0, 2, 8, 10, 20];
    var adapter := new IntoBuckets(data, Custom(CustomStrategy.CustomBucketizer(CustomStrategy.Threshold)));
    binned := adapter.Collect();
  }
}
