# Bucketing strategies, modelled in Dafny

This project models the `buckets` library. The library assigns each value of a
sequence to a bucket index (a `usize`) according to a pluggable strategy:

- **Capability pair.** `BucketizeSingle::bucketize` maps one value to an index.
  `Bucketize::bucketize_iter`, by default, maps `bucketize` over an iterator.
  Both are in `Bucketizing`, where the five strategies are the cases of the `Strategy` datatype.
- **The `usize` cast.** `IntoUsize::into_usize` is modelled in `UsizeCast`.
  Rust's truncating integer `/` is modelled in `RustInt`.
- **Five strategies:**
  - fixed-width (`FixedWidthStrategy`);
  - linear, clamped to the bucket count (`LinearStrategy`);
  - quantile cut points (`QuantileStrategy`);
  - explicit `[lower, upper)` ranges with a last-bucket fallback (`RangeStrategy`);
  - a caller-supplied function (`CustomStrategy`).
- **The lazy adapter.** `IntoBuckets` is a class in `IntoBucketsAdapter`.
  It holds the input that remains and a `const` strategy.
  Each `Next` consumes one value and bucketizes it.

Modelling choices:

- The element type `T` is Dafny's unbounded `int`, and `usize` is 64 bits wide (`UsizeCast.Usize`).
- `x as usize` on an integer keeps the low 64 bits. The cast is therefore `x` reduced modulo 2^64:
  - negative values wrap (-1 becomes `usize::MAX`);
  - 128-bit values above `usize::MAX` are reduced.
- Integer division truncates toward zero. This is written out as `RustInt.TruncDiv`, because Dafny's own `/` is Euclidean.
- `new` of the fixed-width, quantile, range and custom strategies only stores its arguments.
  It is the datatype constructor, so the fields are stored unchanged by construction.
  `get_n_quantiles` is the `nQuantiles` field.
  `LinearStrategy.New` computes the bucket width, so it is a function of its own.
- `FixedWidthStrategy.WellFormed`, `LinearStrategy.WellFormed` and `RangeStrategy.WellFormed` state the conditions under which `bucketize` neither divides by zero nor underflows the bucket count:
  - a non-zero width;
  - a non-zero bucket width and at least one bucket;
  - at least one range.

  The quantile and custom strategies need none. `Bucketizing.WellFormed` picks the condition of the strategy in use.

  The library places no such condition on its callers; the model makes these conditions preconditions.
  `BucketizeIter` and `IntoBuckets.Next` require it only when there is a value to bucketize.
- The adapter's `bucketizer` is a `const` field, so neither `Next` nor `Collect` can change the strategy.
  The pure functions take the strategy as a value, which they cannot change either.
- Linear strategy below `start`: the strategy is meant to send every value below `start` to bucket 0.
  That holds for float element types, whose cast saturates at 0.
  For signed integer element types, the code does something else, and the model follows the code:
  - a value less than one bucket width below `start` truncates to index 0 (`JustBelowStart`);
  - a value one width or more below `start` gives a negative quotient;
  - while the quotient is at or above `-(2^64 - num_buckets)`, in particular for `start - (2^64 - num_buckets)*width <= value`, the cast wraps it to a huge index, which clamps to the last bucket (`FarBelowStartClampsHigh`, and `-5` in `LinearStrategy.DocExample`);
  - with a 128-bit element type the quotient can go further in either direction. The cast keeps only its low 64 bits, so the clamp can miss: with width 1 and 4 buckets, both `2^64 + 1` and `-(2^64 - 1)` land in bucket 1 (`WideQuotientMissesClamp`).

## Model

| member | source | states |
|---|---|---|
| `RustInt.TruncDiv` | src/bucketizers/fw.rs:85 | Rust's integer `/`: the remainder is smaller than the divisor in magnitude and has the dividend's sign, which fixes the quotient uniquely |
| `UsizeCast.IntoUsize` | src/into_usize.rs:5-7 | `*self as usize` is total. The result is a 64-bit index congruent to the input modulo 2^64, and equals the input when the input already fits |
| `UsizeCast.NegativeWraps` | src/into_usize.rs:6 | a negative input of at most 64 bits wraps to `x + 2^64` instead of failing; -1 becomes `usize::MAX` |
| `UsizeCast.CastIsPeriodic` | src/into_usize.rs:6 | inputs that differ by a multiple of 2^64 get the same index, so a u128/i128 above `usize::MAX` is reduced modulo 2^64 |
| `UsizeCast.CastOfKind` | src/into_usize.rs:17-21 | for each implementing integer type: types of at most 64 bits keep non-negative values and wrap negative ones once; a u128 above `usize::MAX` is reduced |
| `FixedWidthStrategy.Bucketize` | src/bucketizers/fw.rs:83-87 | for a positive width and a value with `offset <= value` and `value - offset < 2^64 * width` (the quotient fits a `usize`), the value lies in the half-open bucket `[offset + r*width, offset + (r+1)*width)`, i.e. the index is the floor quotient |
| `FixedWidthStrategy.BoundaryOpensBucket` | src/bucketizers/fw.rs:84-86 | the boundary `offset + k*width` goes to bucket k, the higher bucket, not k-1 |
| `FixedWidthStrategy.Monotone` | src/bucketizers/fw.rs:84-86 | for a positive width, `offset <= v1 <= v2` and `v2 - offset < 2^64 * width`, `bucketize(v1) <= bucketize(v2)`; nothing clamps |
| `FixedWidthStrategy.BelowOffset` | src/bucketizers/fw.rs:84-86 | for signed `T` and a positive width, below the offset, division truncates toward zero. Less than one width below gives 0; from one width below down to `offset - 2^64*width` (exclusive), the negative quotient `-q` wraps to `2^64 - q` |
| `FixedWidthStrategy.DocExample` | src/bucketizers/fw.rs:77-81 | width 5, offset 0: value 12 goes to bucket 2 |
| `LinearStrategy.New` | src/bucketizers/linear.rs:56-65 | stores `start` and the count cast to `usize`. For a positive count and `start <= end`, the bucket width is the floor of `(end - start) / num_buckets`, so the buckets fit inside `[start, end)` |
| `LinearStrategy.NewWellFormed` | src/bucketizers/linear.rs:56-64 | a count with `0 < num_buckets < 2^64` and `num_buckets <= end - start` yields a bucketizer that `bucketize` accepts |
| `LinearStrategy.Bucketize` | src/bucketizers/linear.rs:95-102 | the result is always below `num_buckets`. It equals the fixed-width index relative to `start` when that index is below `num_buckets`, and is `num_buckets - 1` otherwise |
| `LinearStrategy.InsideSpan` | src/bucketizers/linear.rs:96-98 | for a positive width, a value in `[start, start + num_buckets*width)` lies in the half-open interval of the bucket it is given |
| `LinearStrategy.PastSpanClamps` | src/bucketizers/linear.rs:99-100 | a value at or past the end of the covered span, with `value - start < 2^64 * width` (the quotient fits a `usize`), goes to the last bucket |
| `LinearStrategy.JustBelowStart` | src/bucketizers/linear.rs:96 | for signed `T`, a value less than one width below `start` goes to bucket 0 |
| `LinearStrategy.FarBelowStartClampsHigh` | src/bucketizers/linear.rs:96-100 | for signed `T`, a value with `start - (2^64 - num_buckets)*width <= value <= start - width` wraps in the cast and clamps to the last bucket |
| `LinearStrategy.WideQuotientMissesClamp` | src/bucketizers/linear.rs:96-100 | for 128-bit `T`, a quotient of `2^64 + 1` or `-(2^64 - 1)` is cut to its low 64 bits by the cast, giving bucket 1 of 4 instead of the last bucket |
| `LinearStrategy.DocExample` | src/bucketizers/linear.rs:84-93 | start 0, end 20, 4 buckets: 7 goes to bucket 1 (and, with signed integers, -5 goes to bucket 3) |
| `QuantileStrategy.FirstAbove` | src/bucketizers/quantile.rs:56-59 | `position(value < q).unwrap_or(len)`: result at most `len`; below `len` the cut point there exceeds the value; every earlier cut point does not |
| `QuantileStrategy.Bucketize` | src/bucketizers/quantile.rs:55-60 | one of `len + 1` buckets; the result is `len` exactly when no cut point exceeds the value |
| `QuantileStrategy.NQuantilesUnused` | src/bucketizers/quantile.rs:30-36 | `n_quantiles` is informational: two bucketizers that differ only in it agree on every value |
| `QuantileStrategy.Monotone` | src/bucketizers/quantile.rs:55-59 | a larger value never gets a smaller bucket, whether or not the cut points are sorted |
| `QuantileStrategy.AscendingCountsCutPoints` | src/bucketizers/quantile.rs:55-59 | with ascending cut points, the bucket is the number of cut points `<=` the value |
| `QuantileStrategy.DocExample` | src/bucketizers/quantile.rs:48-53 | cut points 25, 50, 75: 55 goes to 2, 50 (equal to a cut point) goes to the bucket after it, 2; 80 goes to 3 |
| `RangeStrategy.Position` | src/bucketizers/range.rs:76-78 | `position(lo <= v < hi)`: `Some(i)` names the first range containing the value; `None` exactly when none does |
| `RangeStrategy.Bucketize` | src/bucketizers/range.rs:75-85 | always an index of `ranges`. It is the first range containing the value when one exists, and `len - 1` when none does |
| `RangeStrategy.DisjointSelectsContaining` | src/bucketizers/range.rs:76-81 | with non-overlapping ranges, a value inside range k goes to bucket k |
| `RangeStrategy.DocExample` | src/bucketizers/range.rs:61-73 | ranges [0,5), [5,10), [10,20), [20, i32::MAX): 7 goes to bucket 1; -3, in no range, goes to the last bucket 3 |
| `CustomStrategy.Bucketize` | src/bucketizers/custom.rs:104-106 | delegates to the stored function. Its contract is stated by `Bucketizing.CustomDelegates`: the result is `f(v)` for every v |
| `CustomStrategy.DocExample` | src/bucketizers/custom.rs:85-101 | the threshold function sends 7 to bucket 1 |
| `Bucketizing.Bucketize` | src/bucketize.rs:1-3 | the single-value capability over all strategies: linear results are below `num_buckets`, quantile results at most `len`, range results below `len`, fixed-width results a `usize` |
| `Bucketizing.BucketizeIter` | src/bucketize.rs:10-19 | the default `bucketize_iter`: the output has the input's length, and element i is `bucketize(input[i])`; an empty input gives an empty output and needs no well-formed strategy |
| `Bucketizing.BucketizeIterPrefix` | src/bucketize.rs:15-17 | no lookahead: the first k indices of the output are the output for the first k input values |
| `Bucketizing.BucketizeIterConcat` | src/bucketize.rs:15-17 | bucketizing a concatenation is the concatenation of the two results |
| `Bucketizing.CustomDelegates` | src/bucketizers/custom.rs:104-106 | the custom strategy returns `f(v)` for every v |
| `Bucketizing.CustomIterIsMap` | src/bucketizers/custom.rs:104-106 | over a sequence, the custom strategy is `f` mapped over the values, same length and order |
| `IntoBucketsAdapter.IntoBuckets.constructor` | src/into_buckets.rs:34-36 | `new` stores the input and the strategy unchanged |
| `IntoBucketsAdapter.IntoBuckets.Next` | src/into_buckets.rs:66-74 | on remaining input, returns `Some(bucketize(head))` and consumes exactly that value, with no lookahead. On exhausted input, returns `None` and stays exhausted |
| `IntoBucketsAdapter.IntoBuckets.Collect` | src/into_buckets.rs:25-32 | pulling until `None` yields `bucketize_iter` of the input (same length and order) and leaves the adapter exhausted |
| `IntoBucketsAdapter.NextExample` | src/into_buckets.rs:55-64 | width 5, offset 0 over [1, 6, 11, 25]: the pulls give 0, 1, 2, 5, then `None`, and `None` again |
| `IntoBucketsAdapter.CollectExample` | src/into_buckets.rs:25-32 | collecting the same adapter gives [0, 1, 2, 5] |
| `IntoBucketsAdapter.CustomCollectExample` | src/bucketizers/custom.rs:43-60 | the threshold function driven through the adapter over [0, 2, 8, 10, 20] gives [0, 0, 1, 2, 3] |

## Left out

- Float instantiations of `into_usize` (`f32`, `f64`) are not modelled. This covers the saturating, truncating float-to-integer cast, NaN, and the partial order of floats. The float doc examples appear through integer analogues with the same answers.
- Arithmetic overflow of `value - offset`, `value - start` and `end - start` is not modelled. This covers signed types of every width, and unsigned types of every width (u8 through u128) whenever the value is below the offset or start. Whether it panics or wraps depends on the build. The model subtracts on unbounded integers, so its below-offset and below-start results describe signed element types only.
- Signed division overflow is not modelled. Rust panics on `MIN / -1` in every build. The model's `TruncDiv` returns the mathematical quotient, for example `FixedWidthStrategy.Bucketize(FixedWidthBucketizer(-1, 0), -128) == 128`, where an `i8` instance panics at fw.rs:85. The same applies to the divisions at linear.rs:57 and linear.rs:96.
- The underflow of `num_buckets - 1` (linear.rs:100) and `len() - 1` (range.rs:83) panics only when overflow checks are on. In release builds it wraps to `usize::MAX`. The model excludes these cases by precondition instead of modelling either outcome.
- Division by zero, zero `num_buckets`, and an empty range list are preconditions (`WellFormed`). The panics they cause are not modelled.
- The inner iterator of `IntoBuckets`, and the `iter: I` argument of `bucketize_iter` (bucketize.rs:12), are finite sequences of the values still to be yielded. An infinite, non-fused or side-effecting iterator is not modelled: `next` only forwards the inner iterator's `next`, so over a non-fused iterator it can return `Some` after `None`, while the model stays exhausted once it returns `None`; on an infinite one `collect` would not terminate.
- Indices from the quantile and range strategies are `nat`. A Rust `Vec` never holds 2^64 elements, so they always fit a `usize`.
- `PhantomData`, trait bounds, the unused `Default` bound on the adapter, and the empty `impl Bucketize` blocks carry no behaviour and are not modelled.
- `usize` is fixed at 64 bits; other platform widths are not modelled.
- `FixedWidthStrategy.Bucketize`: the contract describes positive widths only. For a negative width the model computes the same truncating division and cast, but no contract describes the resulting buckets.
- `LinearStrategy.New`: the bucket-width contract covers a positive count with `start <= end` only. Other inputs still store the truncated quotient, but no contract describes it.
