/** The bucketed histogram of src/core/metrics.cpp and the cumulative numbers its exposition
    prints, over exact reals. */
module MetricsHistogram {
  import opened Counting
  import opened Words

  predicate Sorted(bounds: seq<real>) {
    forall i, j | 0 <= i < j < |bounds| :: bounds[i] <= bounds[j]
  }

  /** Insert before the larger elements at the end. */
  function Insert(bounds: seq<real>, x: real): (r: seq<real>)
    ensures |r| == |bounds| + 1
    ensures forall i | 0 <= i < |r| :: r[i] == x || r[i] in bounds
  {
    if bounds == [] || bounds[|bounds| - 1] <= x then bounds + [x]
    else Insert(bounds[..|bounds| - 1], x) + [bounds[|bounds| - 1]]
  }

  lemma {:induction false} InsertKeeps(bounds: seq<real>, x: real)
    ensures multiset(Insert(bounds, x)) == multiset(bounds) + multiset{x}
  {
    if bounds != [] && bounds[|bounds| - 1] > x {
      var front, last := bounds[..|bounds| - 1], bounds[|bounds| - 1];
      InsertKeeps(front, x);
      assert bounds == front + [last];
    }
  }

  lemma {:induction false} InsertSorts(bounds: seq<real>, x: real)
    requires Sorted(bounds)
    ensures Sorted(Insert(bounds, x))
  {
    if bounds != [] && bounds[|bounds| - 1] > x {
      var front, last := bounds[..|bounds| - 1], bounds[|bounds| - 1];
      InsertSorts(front, x);
      var r := Insert(front, x);
      forall i | 0 <= i < |r|
        ensures r[i] <= last
      {
        if r[i] != x {
          var k :| 0 <= k < |front| && front[k] == r[i];
          assert bounds[k] <= bounds[|bounds| - 1];
        }
      }
    }
  }

  /** What std::sort leaves: the same bounds, in order. */
  function Sort(bounds: seq<real>): (r: seq<real>)
    ensures Sorted(r) && multiset(r) == multiset(bounds) && |r| == |bounds|
  {
    if bounds == [] then []
    else
      var front, last := bounds[..|bounds| - 1], bounds[|bounds| - 1];
      InsertSorts(Sort(front), last);
      InsertKeeps(Sort(front), last);
      assert bounds == front + [last];
      Insert(Sort(front), last)
  }

  /** The first index whose bound is not below v, or |bounds|. */
  ghost predicate IsLowerBound(bounds: seq<real>, v: real, k: int) {
    && 0 <= k <= |bounds|
    && (forall j | 0 <= j < k :: bounds[j] < v)
    && (forall j | k <= j < |bounds| :: v <= bounds[j])
  }

  lemma LowerBoundUnique(bounds: seq<real>, v: real, k: int, i: int)
    requires IsLowerBound(bounds, v, k) && IsLowerBound(bounds, v, i)
    ensures k == i
  {
    assert k < |bounds| ==> v <= bounds[k];
    assert i < |bounds| ==> v <= bounds[i];
  }

  method LowerBound(bounds: seq<real>, v: real) returns (k: nat)
    requires Sorted(bounds)
    ensures IsLowerBound(bounds, v, k)
  {
    var lo, hi := 0, |bounds|;
    while lo < hi
      invariant 0 <= lo <= hi <= |bounds|
      invariant forall j | 0 <= j < lo :: bounds[j] < v
      invariant forall j | hi <= j < |bounds| :: v <= bounds[j]
    {
      var mid := lo + (hi - lo) / 2;
      if bounds[mid] < v {
        lo := mid + 1;
      } else {
        hi := mid;
      }
    }
    k := lo;
  }

  /** Observations that `Observe` counts in bucket i, and those that i's bound covers. */
  ghost function InBucket(bounds: seq<real>, i: int): real -> bool {
    (v: real) => IsLowerBound(bounds, v, i)
  }

  ghost function AtMost(bound: real): real -> bool {
    (v: real) => v <= bound
  }

  ghost function Sum(xs: seq<real>): real {
    if xs == [] then 0.0 else Sum(xs[..|xs| - 1]) + xs[|xs| - 1]
  }

  lemma {:induction false} SumConcat(a: seq<real>, b: seq<real>)
    ensures Sum(a + b) == Sum(a) + Sum(b)
    ensures |b| == 1 ==> Sum(b) == b[0]
  {
    if b == [] {
      assert a + b == a;
    } else {
      SumConcat(a, b[..|b| - 1]);
      assert (a + b)[..|a + b| - 1] == a + b[..|b| - 1];
    }
  }

  /** Going one bucket further adds exactly the observations counted there. */
  lemma CoveredByNext(bounds: seq<real>, xs: seq<real>, i: nat)
    requires Sorted(bounds) && i < |bounds|
    ensures Count(xs, AtMost(bounds[i]))
         == (if i == 0 then 0 else Count(xs, AtMost(bounds[i - 1]))) + Count(xs, InBucket(bounds, i))
  {
    if i == 0 {
      assert forall v <- xs :: AtMost(bounds[0])(v) <==> InBucket(bounds, 0)(v);
      CountMonotone(xs, AtMost(bounds[0]), InBucket(bounds, 0));
      CountMonotone(xs, InBucket(bounds, 0), AtMost(bounds[0]));
    } else {
      CountSplit(xs, AtMost(bounds[i - 1]), InBucket(bounds, i), AtMost(bounds[i]));
    }
  }

  ghost function Covered(xs: seq<real>, bound: real): nat {
    Count(xs, AtMost(bound))
  }

  /** The meaning of the printed numbers: for counts that have not wrapped, they never decrease
      and never exceed the +Inf number. */
  lemma CoverageIsMonotone(bounds: seq<real>, xs: seq<real>, i: nat, j: nat)
    requires Sorted(bounds) && i <= j < |bounds|
    ensures Covered(xs, bounds[i]) <= Covered(xs, bounds[j]) <= |xs|
  {
    CountMonotone(xs, AtMost(bounds[i]), AtMost(bounds[j]));
  }

  class Histogram {
    const buckets: seq<real>
    const bucketCounts: array<uint64>
    var sum: real
    var count: uint64
    ghost var observations: seq<real>

    ghost predicate Valid()
      reads this, bucketCounts
    {
      && Sorted(buckets)
      && bucketCounts.Length == |buckets|
      && sum == Sum(observations)
      && count == Wrap64(|observations|)
      && forall i | 0 <= i < |buckets| ::
        bucketCounts[i] == Wrap64(Count(observations, InBucket(buckets, i)))
    }

    constructor (bounds: seq<real>)
      ensures Valid() && fresh(bucketCounts)
      ensures observations == [] && buckets == Sort(bounds)
    {
      buckets := Sort(bounds);
      bucketCounts := new uint64[|bounds|](_ => 0);
      sum, count := 0.0, 0;
      observations := [];
    }

    method Observe(v: real)
      requires Valid()
      modifies this, bucketCounts
      ensures Valid() && observations == old(observations) + [v]
    {
      sum := sum + v;
      count := Inc64(count);
      var idx := LowerBound(buckets, v);
      if idx != |buckets| {
        bucketCounts[idx] := Inc64(bucketCounts[idx]);
      }
      observations := observations + [v];
      WrapInc(|old(observations)|);
      assert observations[..|old(observations)|] == old(observations);
      forall i | 0 <= i < |buckets|
        ensures bucketCounts[i] == Wrap64(Count(observations, InBucket(buckets, i)))
      {
        if IsLowerBound(buckets, v, i) {
          LowerBoundUnique(buckets, v, idx, i);
        }
        CountSnoc(old(observations), v, InBucket(buckets, i));
        WrapInc(Count(old(observations), InBucket(buckets, i)));
      }
    }

    method Snapshot() returns (counts: seq<uint64>, total: real, n: uint64)
      requires Valid()
      ensures counts == bucketCounts[..] && total == sum && n == count
    {
      return bucketCounts[..], sum, count;
    }

    /** The numbers on the `_bucket` lines in bound order, the +Inf number, and `_sum`. */
    method Exposition() returns (cumulative: seq<uint64>, inf: uint64, total: real)
      requires Valid()
      ensures |cumulative| == |buckets|
      ensures forall i | 0 <= i < |buckets| ::
        cumulative[i] == Wrap64(Covered(observations, buckets[i]))
      ensures inf == Wrap64(|observations|) && total == Sum(observations)
    {
      var counts, s, n := Snapshot();
      var running: uint64 := 0;
      cumulative := [];
      for i := 0 to |buckets|
        invariant |cumulative| == i
        invariant running == if i == 0 then 0 else Wrap64(Covered(observations, buckets[i - 1]))
        invariant forall j | 0 <= j < i :: cumulative[j] == Wrap64(Covered(observations, buckets[j]))
      {
        CoveredByNext(buckets, observations, i);
        WrapAdd(if i == 0 then 0 else Covered(observations, buckets[i - 1]),
                Count(observations, InBucket(buckets, i)));
        running := Add64(running, counts[i]);
        cumulative := cumulative + [running];
      }
      return cumulative, n, s;
    }
  }
}
