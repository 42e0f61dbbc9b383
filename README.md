# rust-bucketize, modelled in Dafny

The crate `rust_bucketize` provides one component, the `Bucketizer`: an ordered list of
buckets, each a range `(min, max, value)` with an optional inclusive lower bound, an
optional exclusive upper bound and an output value. `Bucketizer::new()` creates an empty
list, `.bucket(min, max, value)` appends one bucket and hands the bucketizer back for
chaining, and `.bucketize(input)` returns `Some(value)` of the first bucket, in insertion
order, whose range contains `input`, or `None` when none does.

`bucketizer.dfy` holds the model in module `RustBucketize`:

- `Bucket` is the source's triple `(Option<f64>, Option<f64>, f64)`, with `f64` as `real`.
- `Matches` is the four-case match rule of the loop body; `FirstMatch` is the recursive
  first-match function that specifies the scan; `IsFirstMatch` says that an index is the
  first matching one.
- `Bucketizer` is a class with a `seq<Bucket>` field. Its constructor is `new()`,
  `AddBucket` is `bucket()` (an append to the field, returning the same object), and
  `Bucketize` is the scan as a `while` loop with early return, proved equal to
  `FirstMatch` and to the first-match characterisation.
- Lemmas state the documented behaviour: first-match priority, `None` exactly when no
  bucket matches, half-open bounds, and that appending never changes an existing result.
  The documentation's example of a later bucket that is never used is replaced by its
  sound form: a later bucket whose every input some earlier bucket also matches is
  never used (`CoveredBucketUnreachable`). The documentation's example does not meet
  that condition and its second bucket is reachable (see "## Findings"). Client methods replay the crate's doc
  example and unit tests through the class's contracts.

## Model

| member | source | states |
|---|---|---|
| `RustBucketize.Matches` | src/lib.rs:65-76 | defines the match rule of one bucket, one case per combination of present and absent bounds: catch-all, `input >= min`, `input < max`, and `min <= input < max` |
| `RustBucketize.FirstMatch` | src/lib.rs:64-79 | defines the scan: the value of the first bucket in list order that matches the input, or `None` after the whole list |
| `RustBucketize.Bucketizer.constructor` | src/lib.rs:51-55 | a new bucketizer has no buckets |
| `RustBucketize.Bucketizer.AddBucket` | src/lib.rs:57-61 | the earlier buckets stay unchanged and in order, `(min, max, value)` becomes the new last bucket, and the same bucketizer is returned for chaining |
| `RustBucketize.Bucketizer.Bucketize` | src/lib.rs:63-80 | the loop returns `FirstMatch(buckets, input)`; it is `None` exactly when no bucket matches, and otherwise the value of a bucket that matches while no earlier bucket does |
| `RustBucketize.MatchesInterval` | src/lib.rs:65-76 | the four-case match rule is the half-open interval `[min, max)` with an absent bound unbounded on its side |
| `RustBucketize.MalformedBucketInert` | src/lib.rs:73-74 | a bucket with `min >= max` matches no input |
| `RustBucketize.FirstMatchNone` | src/lib.rs:79 | the result is `None` if and only if no bucket in the list matches the input |
| `RustBucketize.FirstMatchSome` | src/lib.rs:64-77 | a `Some(v)` result comes from an index whose bucket matches and has value `v`, with no earlier bucket matching |
| `RustBucketize.FirstMatchAt` | src/lib.rs:64-77 | conversely, when bucket `i` matches and no earlier one does, the result is `Some` of bucket `i`'s value |
| `RustBucketize.FirstMatchConcat` | src/lib.rs:64-79 | on a list `p + s`, a match in `p` takes priority and `s` decides only when `p` has none |
| `RustBucketize.AppendKeepsResults` | src/lib.rs:57-61 | appending a bucket keeps every `Some` result; a `None` result stays `None` or becomes the new bucket's value exactly when it matches |
| `RustBucketize.CoveredBucketUnreachable` | src/lib.rs:23-25 | the sound version of the documentation's example: if every input a later bucket matches is matched by some earlier bucket, removing the later bucket changes no result for any input, so nothing is ever put in it; the documentation's own example (`[9,100)` then `[2,50)`) does not meet this condition |
| `RustBucketize.CoveredBySingleBucket` | src/lib.rs:23-25 | the special case of one earlier bucket covering the later bucket's whole range |
| `RustBucketize.DocShadowExampleReachable` | src/lib.rs:23-25 | as the code is written, after `[9,100)` the bucket `[2,50)` still answers every input in `[2,9)`, which the first bucket alone leaves at `None` |
| `RustBucketize.CatchAllFirst` | src/lib.rs:66 | a catch-all bucket `(None, None, v)` in first place answers `Some(v)` for every input |
| `RustBucketize.OrderPrecedence` | src/lib.rs:22-25 | of two buckets that both match, the one added first decides the result |
| `RustBucketize.HalfOpenBounds` | src/lib.rs:27 | a lone bucket `[a, b)` with `a < b` answers `Some(v)` at `a` and `None` at `b` |
| `RustBucketize.AdjacentBoundary` | src/lib.rs:104-108 | for adjacent buckets `[a, b)` then `[b, c)` the shared bound `b` goes to the second |
| `RustBucketize.NewIsEmpty` | src/lib.rs:50-55 | a bucketizer fresh from `new()` returns `None` for every input |
| `RustBucketize.DocExample` | src/lib.rs:9-15 | with `[10,20)->15`, `[5,10)->7.5`, `(<4)->0`: `12.34` gives `Some(15)`, `999.99` gives `None`, and further `7.5` gives `Some(7.5)`, `3.9` gives `Some(0)` and `4.0`, the exclusive bound of the one-sided third bucket, gives `None` |
| `RustBucketize.SingleBucketExample` | src/lib.rs:87-101 | with `[0,1)->0.5`: `0.1` and `0.0` give `Some(0.5)`, `999.999` and `1.0` give `None` |
| `RustBucketize.ClosedEndsExample` | src/lib.rs:103-111 | with `[-1,0)->-0.5`, `[0,1)->0.5`: `0.0` gives `Some(0.5)`, `-0.7` gives `Some(-0.5)`, `999.99` gives `None` |
| `RustBucketize.OpenEndsExample` | src/lib.rs:113-122 | with `[0,1)->0.5`, `(>=1)->1.5`: `0.0` gives `Some(0.5)`, `-0.7` gives `None`, `999.99` gives `Some(1.5)` |

## Findings

| source | as written | input that shows it | evidently intended | confidence | as-written member | corrected member |
|---|---|---|---|---|---|---|
| src/lib.rs:23-25 | the documentation says that after a bucket from 9 to 100, a bucket from 2 to 50 never receives a value; the match at src/lib.rs:73-74 sends every input in `[2, 9)` to the second bucket | buckets `[9,100)->a`, `[2,50)->b`, input `5.0` (or any input in `[2,9)`): the result is `Some(b)` | a later bucket is never used when every input it matches is matched by some earlier bucket, for instance when one earlier bucket covers its whole range | high (not executed) | `RustBucketize.DocShadowExampleReachable` | `RustBucketize.CoveredBucketUnreachable` |

## Left out

- IEEE-754 behaviour of `f64` (NaN, infinities, rounding): numbers are `real`, so NaN inputs or bounds, for which every ordered comparison is false, are not modelled, and literals such as `12.34` are exact rationals.
- The derived `Clone`, `Debug` and `PartialEq` implementations (src/lib.rs:42) are generated library code.
- Rust's move of `self` in `bucket` (src/lib.rs:57-58): `AddBucket` appends to the bucketizer in place and returns that same object, which gives the same chaining behaviour without ownership transfer.
- The rustdoc and `#[cfg(test)]` harnesses themselves: only their asserted values are modelled, as the `...Example` methods.
