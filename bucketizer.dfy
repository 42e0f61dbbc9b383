/** A first-match range classifier.

    A `Bucketizer` holds an ordered list of buckets. Each bucket is a range with an
    optional inclusive lower bound, an optional exclusive upper bound and an output
    value. `Bucketize` returns the output of the first bucket, in insertion order,
    whose range contains the input, or `None` when no bucket does.

    Floating-point numbers are modelled as `real`: the classifier only ever compares
    with `>=` and `<`, so the ordering logic is the same on the finite values.
 */
module RustBucketize {

  datatype Option<+T> = None | Some(value: T)

  /** A bucket: lower bound (inclusive), upper bound (exclusive), output value. */
  datatype Bucket = Bucket(min: Option<real>, max: Option<real>, value: real)

  /** The match rule, one case per combination of present and absent bounds. */
  predicate Matches(b: Bucket, input: real)
  {
    match (b.min, b.max)
    case (None, None) => true
    case (Some(lo), None) => input >= lo
    case (None, Some(hi)) => input < hi
    case (Some(lo), Some(hi)) => input >= lo && input < hi
  }

  /** The output of the first bucket of `bs` that matches `input`. */
  function FirstMatch(bs: seq<Bucket>, input: real): Option<real>
  {
    if bs == [] then None
    else if Matches(bs[0], input) then Some(bs[0].value)
    else FirstMatch(bs[1..], input)
  }

  /** `i` is the index of the first bucket of `bs` that matches `input`. */
  ghost predicate IsFirstMatch(bs: seq<Bucket>, input: real, i: int)
  {
    0 <= i < |bs| && Matches(bs[i], input) &&
    forall j :: 0 <= j < i ==> !Matches(bs[j], input)
  }

  // ---------------------------------------------------------------------------
  // The match rule

  /** Every bucket is the half-open interval [min, max), an absent bound being
      unbounded on that side. */
  lemma MatchesInterval(b: Bucket, input: real)
    ensures Matches(b, input) <==>
              (b.min == None || b.min.value <= input) &&
              (b.max == None || input < b.max.value)
  {
  }

  /** A bucket whose lower bound is not below its upper bound never matches. */
  lemma MalformedBucketInert(b: Bucket, input: real)
    requires b.min.Some? && b.max.Some? && b.min.value >= b.max.value
    ensures !Matches(b, input)
  {
  }

  // ---------------------------------------------------------------------------
  // First-match classification

  /** No result exactly when no bucket matches. */
  lemma {:induction false} FirstMatchNone(bs: seq<Bucket>, input: real)
    ensures FirstMatch(bs, input) == None <==>
              forall i :: 0 <= i < |bs| ==> !Matches(bs[i], input)
  {
    if bs != [] {
      FirstMatchNone(bs[1..], input);
      if !Matches(bs[0], input) {
        assert forall i :: 1 <= i < |bs| ==> bs[i] == bs[1..][i - 1];
      }
    }
  }

  /** A result is the value of the first matching bucket. */
  lemma {:induction false} FirstMatchSome(bs: seq<Bucket>, input: real)
    requires FirstMatch(bs, input).Some?
    ensures exists i :: IsFirstMatch(bs, input, i) && bs[i].value == FirstMatch(bs, input).value
  {
    if Matches(bs[0], input) {
      assert IsFirstMatch(bs, input, 0);
    } else {
      FirstMatchSome(bs[1..], input);
      var i :| IsFirstMatch(bs[1..], input, i) && bs[1..][i].value == FirstMatch(bs, input).value;
      assert forall j :: 1 <= j <= i + 1 ==> bs[j] == bs[1..][j - 1];
      assert IsFirstMatch(bs, input, i + 1);
    }
  }

  /** Conversely, the first matching bucket is the one whose value is returned. */
  lemma {:induction false} FirstMatchAt(bs: seq<Bucket>, input: real, i: int)
    requires IsFirstMatch(bs, input, i)
    ensures FirstMatch(bs, input) == Some(bs[i].value)
  {
    if i > 0 {
      assert !Matches(bs[0], input);
      assert forall j :: 0 <= j < i ==> bs[1..][j] == bs[j + 1];
      FirstMatchAt(bs[1..], input, i - 1);
    }
  }

  /** Classifying against a concatenation: the first part has priority, the second
      part is consulted only when the first has no match. */
  lemma {:induction false} FirstMatchConcat(p: seq<Bucket>, s: seq<Bucket>, input: real)
    ensures FirstMatch(p + s, input) ==
              if FirstMatch(p, input).Some? then FirstMatch(p, input) else FirstMatch(s, input)
  {
    if p == [] {
      assert p + s == s;
    } else {
      assert (p + s)[0] == p[0];
      assert (p + s)[1..] == p[1..] + s;
      FirstMatchConcat(p[1..], s, input);
    }
  }

  /** Appending a bucket keeps every existing result; an input that had no result
      either still has none or now goes to the new bucket. */
  lemma AppendKeepsResults(bs: seq<Bucket>, b: Bucket, input: real)
    ensures FirstMatch(bs, input).Some? ==> FirstMatch(bs + [b], input) == FirstMatch(bs, input)
    ensures FirstMatch(bs, input).None? ==>
              FirstMatch(bs + [b], input) == if Matches(b, input) then Some(b.value) else None
  {
    FirstMatchConcat(bs, [b], input);
  }

  /** If every input that bucket `k` matches is matched by some earlier bucket, then
      bucket `k` is never used: removing it changes no result. No single earlier
      bucket needs to cover it: `[0, 5)` and `[5, 10)` together make a later
      `[0, 10)` unreachable. */
  lemma CoveredBucketUnreachable(bs: seq<Bucket>, k: int, input: real)
    requires 0 <= k < |bs|
    requires forall y :: Matches(bs[k], y) ==> exists j :: 0 <= j < k && Matches(bs[j], y)
    ensures FirstMatch(bs[..k] + bs[k + 1..], input) == FirstMatch(bs, input)
  {
    var p, rest := bs[..k], bs[k + 1..];
    assert bs == p + ([bs[k]] + rest);
    FirstMatchConcat(p, [bs[k]] + rest, input);
    FirstMatchConcat(p, rest, input);
    if Matches(bs[k], input) {
      var j :| 0 <= j < k && Matches(bs[j], input);
      assert p[j] == bs[j];
      FirstMatchNone(p, input);
    }
  }

  /** In particular, a bucket whose whole range one earlier bucket covers is never
      used. */
  lemma CoveredBySingleBucket(bs: seq<Bucket>, i: int, k: int, input: real)
    requires 0 <= i < k < |bs|
    requires forall y :: Matches(bs[k], y) ==> Matches(bs[i], y)
    ensures FirstMatch(bs[..k] + bs[k + 1..], input) == FirstMatch(bs, input)
  {
    CoveredBucketUnreachable(bs, k, input);
  }

  /** The documentation's own example of an unreachable bucket, `[9, 100)` followed
      by `[2, 50)`, is not one: the second bucket is not covered by the first, and
      every input in `[2, 9)` goes to it. */
  lemma DocShadowExampleReachable(v1: real, v2: real, x: real)
    requires 2.0 <= x < 9.0
    ensures FirstMatch([Bucket(Some(9.0), Some(100.0), v1), Bucket(Some(2.0), Some(50.0), v2)], x) == Some(v2)
    ensures FirstMatch([Bucket(Some(9.0), Some(100.0), v1)], x) == None
  {
  }

  /** A catch-all bucket in first place answers every input. */
  lemma CatchAllFirst(rest: seq<Bucket>, v: real, input: real)
    ensures FirstMatch([Bucket(None, None, v)] + rest, input) == Some(v)
  {
  }

  /** Two buckets both matching an input: the one added first wins. */
  lemma OrderPrecedence(b1: Bucket, b2: Bucket, input: real)
    requires Matches(b1, input) && Matches(b2, input)
    ensures FirstMatch([b1, b2], input) == Some(b1.value)
  {
  }

  /** Bounds are min-inclusive and max-exclusive. */
  lemma HalfOpenBounds(lo: real, hi: real, v: real)
    requires lo < hi
    ensures FirstMatch([Bucket(Some(lo), Some(hi), v)], lo) == Some(v)
    ensures FirstMatch([Bucket(Some(lo), Some(hi), v)], hi) == None
  {
  }

  /** Adjacent buckets [a, b) and [b, c) send their shared bound to the second. */
  lemma AdjacentBoundary(a: real, b: real, c: real, v1: real, v2: real)
    requires b < c
    ensures FirstMatch([Bucket(Some(a), Some(b), v1), Bucket(Some(b), Some(c), v2)], b) == Some(v2)
  {
  }

  // ---------------------------------------------------------------------------
  // The builder

  class Bucketizer {
    /** The buckets, in insertion (and matching) order. */
    var buckets: seq<Bucket>

    /** A bucketizer with no buckets. */
    constructor ()
      ensures buckets == []
    {
      buckets := [];
    }

    /** Appends the bucket (min, max, value) and returns this bucketizer, so that
        calls can be chained. */
    method AddBucket(min: Option<real>, max: Option<real>, value: real) returns (r: Bucketizer)
      modifies this
      ensures r == this
      ensures buckets == old(buckets) + [Bucket(min, max, value)]
    {
      buckets := buckets + [Bucket(min, max, value)];
      r := this;
    }

    /** Scans the buckets in order and returns the value of the first that matches. */
    method Bucketize(input: real) returns (r: Option<real>)
      ensures r == FirstMatch(buckets, input)
      ensures r.None? <==> forall i :: 0 <= i < |buckets| ==> !Matches(buckets[i], input)
      ensures r.Some? ==> exists i :: IsFirstMatch(buckets, input, i) && buckets[i].value == r.value
    {
      var i := 0;
      while i < |buckets|
        invariant 0 <= i <= |buckets|
        invariant forall j :: 0 <= j < i ==> !Matches(buckets[j], input)
      {
        var buck := buckets[i];
        var hit: bool;
        match (buck.min, buck.max) {
          case (None, None) => hit := true;
          case (Some(lo), None) => hit := input >= lo;
          case (None, Some(hi)) => hit := input < hi;
          case (Some(lo), Some(hi)) => hit := input >= lo && input < hi;
        }
        if hit {
          FirstMatchAt(buckets, input, i);
          return Some(buck.value);
        }
        i := i + 1;
      }
      FirstMatchNone(buckets, input);
      r := None;
    }
  }

  /** A new bucketizer classifies nothing. */
  method NewIsEmpty(input: real) returns (r: Option<real>)
    ensures r == None
  {
    var b := new Bucketizer();
    r := b.Bucketize(input);
  }

  /** The example from the crate documentation, with three further inputs: one in
      the second bucket, one below the bound of the one-sided third bucket and one
      exactly at that (exclusive) bound. */
  method DocExample() returns (a: Option<real>, b: Option<real>, c: Option<real>, d: Option<real>, e: Option<real>)
    ensures a == Some(15.0) && b == None
    ensures c == Some(7.5) && d == Some(0.0) && e == None
  {
    var bz := new Bucketizer();
    bz := bz.AddBucket(Some(10.0), Some(20.0), 15.0);
    bz := bz.AddBucket(Some(5.0), Some(10.0), 7.5);
    bz := bz.AddBucket(None, Some(4.0), 0.0);
    a := bz.Bucketize(12.34);
    b := bz.Bucketize(999.99);
    c := bz.Bucketize(7.5);
    FirstMatchAt(bz.buckets, 3.9, 2);
    d := bz.Bucketize(3.9);
    e := bz.Bucketize(4.0);
  }

  /** The tests with one bucket [0, 1) -> 0.5. */
  method SingleBucketExample() returns (mid: Option<real>, far: Option<real>, lo: Option<real>, hi: Option<real>)
    ensures mid == Some(0.5) && far == None && lo == Some(0.5) && hi == None
  {
    var bz := new Bucketizer();
    bz := bz.AddBucket(Some(0.0), Some(1.0), 0.5);
    mid := bz.Bucketize(0.1);
    far := bz.Bucketize(999.999);
    lo := bz.Bucketize(0.0);
    hi := bz.Bucketize(1.0);
  }

  /** The test with closed buckets [-1, 0) -> -0.5 and [0, 1) -> 0.5. */
  method ClosedEndsExample() returns (z: Option<real>, neg: Option<real>, far: Option<real>)
    ensures z == Some(0.5) && neg == Some(-0.5) && far == None
  {
    var bz := new Bucketizer();
    bz := bz.AddBucket(Some(-1.0), Some(0.0), -0.5);
    bz := bz.AddBucket(Some(0.0), Some(1.0), 0.5);
    z := bz.Bucketize(0.0);
    neg := bz.Bucketize(-0.7);
    far := bz.Bucketize(999.99);
  }

  /** The test with buckets [0, 1) -> 0.5 and [1, +inf) -> 1.5. */
  method OpenEndsExample() returns (z: Option<real>, neg: Option<real>, far: Option<real>)
    ensures z == Some(0.5) && neg == None && far == Some(1.5)
  {
    var bz := new Bucketizer();
    bz := bz.AddBucket(Some(0.0), Some(1.0), 0.5);
    bz := bz.AddBucket(Some(1.0), None, 1.5);
    z := bz.Bucketize(0.0);
    neg := bz.Bucketize(-0.7);
    far := bz.Bucketize(999.99);
  }
}
