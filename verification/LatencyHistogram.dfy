/** The log2 latency histogram of examples/loadgen/http_loadgen.cpp and the percentile it
    reports, measured against the order statistics of the recorded latencies. */
module LatencyHistogram {
  import opened Counting
  import opened Numbers
  import opened Words

  const BUCKETS: nat := 64

  function FloorLog2(x: nat): (k: nat)
    requires x > 0
    ensures Pow2(k) <= x < Pow2(k + 1)
  {
    if x == 1 then 0 else FloorLog2(x / 2) + 1
  }

  /** The highest set bit, or -1 for zero. */
  function Log2Floor(x: uint64): (k: int)
    ensures x == 0 ==> k == -1
    ensures x > 0 ==> 0 <= k < 64 && Pow2(k) <= x < Pow2(k + 1)
  {
    if x == 0 then -1
    else
      WordSize();
      var k := FloorLog2(x);
      assert k < 64 by {
        if k > 64 {
          Pow2Grows(64, k);
        }
      }
      k
  }

  /** `latency_us + 1` on a std::uint64_t. */
  function Bump(latency: uint64): uint64 {
    Inc64(latency)
  }

  /** The bucket a latency falls in: the largest one wraps to zero and lands in bucket 0. */
  function BucketOf(latency: uint64): (i: nat)
    ensures i < BUCKETS
    ensures Bump(latency) > 0 ==> Pow2(i) <= Bump(latency) < Pow2(i + 1)
    ensures Bump(latency) == 0 ==> i == 0
  {
    var idx := Log2Floor(Bump(latency));
    if idx < 0 then 0 else idx
  }

  ghost function InBucket(i: nat): uint64 -> bool {
    (x: uint64) => BucketOf(x) == i
  }

  ghost function BelowBucket(i: nat): uint64 -> bool {
    (x: uint64) => BucketOf(x) < i
  }

  lemma BucketMonotone(x: uint64, y: uint64)
    requires Bump(x) <= Bump(y)
    ensures BucketOf(x) <= BucketOf(y)
  {
    var i, j := BucketOf(x), BucketOf(y);
    if j < i && Bump(x) > 0 {
      if j + 1 < i {
        Pow2Grows(j + 1, i);
      }
    }
  }

  ghost function Recorded(latencies: seq<uint64>, i: nat): nat {
    Count(latencies, InBucket(i))
  }

  lemma RecordedSnoc(latencies: seq<uint64>, latency: uint64, i: nat)
    ensures Wrap64(Recorded(latencies + [latency], i))
         == if i == BucketOf(latency)
            then Inc64(Wrap64(Recorded(latencies, i)))
            else Wrap64(Recorded(latencies, i))
  {
    CountSnoc(latencies, latency, InBucket(i));
    WrapInc(Recorded(latencies, i));
  }

  datatype Snapshot = Snapshot(ok: uint64, err: uint64, bytes: uint64, buckets: seq<uint64>)

  // ----- The percentile loop -----

  /** The first bucket at which the running 64-bit sum passes rank; |buckets| if none does. */
  function FirstOver(buckets: seq<uint64>, rank: nat, i: nat, cum: uint64): (r: nat)
    requires i <= |buckets|
    ensures i <= r <= |buckets|
    decreases |buckets| - i
  {
    if i == |buckets| then i
    else
      var next := Add64(cum, buckets[i]);
      if next > rank then i else FirstOver(buckets, rank, i + 1, next)
  }

  function BucketBound(i: nat): nat {
    if i >= 63 then Pow2(63) else Pow2(i)
  }

  function Rank(ok: uint64, p: real): int {
    Truncate((ok - 1) as real * p)
  }

  function Percentile(s: Snapshot, p: real): nat
    requires s.ok > 0 ==> Rank(s.ok, p) >= 0
  {
    if s.ok == 0 then 0
    else
      var i := FirstOver(s.buckets, Rank(s.ok, p), 0, 0);
      if i == |s.buckets| then Pow2(BUCKETS - 1) else BucketBound(i)
  }

  /** The conversion to an unsigned rank is defined only for products in this range. */
  predicate RankDefined(s: Snapshot, p: real) {
    s.ok == 0 || 0 <= Rank(s.ok, p) < U64
  }

  method ApproxPercentileUs(s: Snapshot, p: real) returns (r: nat)
    requires RankDefined(s, p)
    ensures r == Percentile(s, p)
    ensures s.ok == 0 ==> r == 0
    ensures s.ok > 0 && FirstOver(s.buckets, Rank(s.ok, p), 0, 0) == |s.buckets| ==> r == Pow2(63)
  {
    if s.ok == 0 {
      return 0;
    }
    var rank := Rank(s.ok, p);
    var cum: uint64 := 0;
    var i := 0;
    while i < |s.buckets|
      invariant 0 <= i <= |s.buckets|
      invariant FirstOver(s.buckets, rank, 0, 0) == FirstOver(s.buckets, rank, i, cum)
    {
      cum := Add64(cum, s.buckets[i]);
      if cum > rank {
        return if i >= 63 then Pow2(63) else Pow2(i);
      }
      i := i + 1;
    }
    return Pow2(BUCKETS - 1);
  }

  // ----- Meaning of a quiescent snapshot -----

  /** The buckets are those of the recorded latencies, and none has wrapped. */
  ghost predicate Represents(s: Snapshot, latencies: seq<uint64>) {
    && s.ok == |latencies|
    && |s.buckets| == BUCKETS
    && forall i | 0 <= i < BUCKETS :: s.buckets[i] == Recorded(latencies, i)
  }

  lemma BelowNext(latencies: seq<uint64>, i: nat)
    ensures Count(latencies, BelowBucket(i + 1))
         == Count(latencies, BelowBucket(i)) + Count(latencies, InBucket(i))
  {
    CountSplit(latencies, BelowBucket(i), InBucket(i), BelowBucket(i + 1));
  }

  /** The loop stops at the one bucket whose cumulative counts straddle rank. */
  lemma {:induction false} FirstOverStraddles(s: Snapshot, latencies: seq<uint64>, rank: nat, i: nat)
    requires Represents(s, latencies) && rank < |latencies|
    requires i <= BUCKETS && Count(latencies, BelowBucket(i)) <= rank
    ensures var r := FirstOver(s.buckets, rank, i, Count(latencies, BelowBucket(i)));
      && r < BUCKETS
      && Count(latencies, BelowBucket(r)) <= rank < Count(latencies, BelowBucket(r + 1))
    decreases BUCKETS - i
  {
    if i == BUCKETS {
      CountAll(latencies, BelowBucket(i));
      assert false;
    } else {
      BelowNext(latencies, i);
      var next := Count(latencies, BelowBucket(i + 1));
      CountMonotone(latencies, BelowBucket(i + 1), BelowBucket(BUCKETS));
      if next <= rank {
        FirstOverStraddles(s, latencies, rank, i + 1);
      }
    }
  }

  /** The latencies in the order in which the histogram sees them. */
  ghost predicate SortedByBump(t: seq<uint64>) {
    forall i, j | 0 <= i <= j < |t| :: Bump(t[i]) <= Bump(t[j])
  }

  /** In a sorted sequence those below a bucket are exactly the first ones. */
  lemma {:induction false} SortedPrefix(t: seq<uint64>, b: nat, k: nat)
    requires SortedByBump(t) && k < |t|
    ensures BucketOf(t[k]) < b <==> k < Count(t, BelowBucket(b))
  {
    var front, last := t[..|t| - 1], t[|t| - 1];
    if BucketOf(last) < b {
      forall i | 0 <= i < |t|
        ensures BucketOf(t[i]) < b
      {
        BucketMonotone(t[i], last);
      }
      CountAll(t, BelowBucket(b));
    } else if k < |front| {
      SortedPrefix(front, b, k);
    } else {
      CountMonotone(front, BelowBucket(b), BelowBucket(b));
    }
  }

  /** The rank of a p between 0 and 1 names an element. */
  lemma RankInRange(ok: uint64, p: real)
    requires ok > 0 && 0.0 <= p <= 1.0
    ensures 0 <= Rank(ok, p) < ok
    ensures Rank(ok, p) == ((ok - 1) as real * p).Floor
  {
    TruncatedFraction(ok - 1, p);
  }

  lemma TruncatedFraction(n: nat, p: real)
    requires 0.0 <= p <= 1.0
    ensures 0 <= Truncate(n as real * p) <= n
    ensures Truncate(n as real * p) == (n as real * p).Floor
  {
    FractionWithin(n as real, p);
    FloorWithin(n as real * p, n);
  }

  lemma FloorWithin(x: real, n: nat)
    requires 0.0 <= x <= n as real
    ensures 0 <= x.Floor <= n && Truncate(x) == x.Floor
  {
  }

  /** For every history, wrapped latencies included: the reported value is the power of two
      just below the element at that rank (zero counting as one). */
  lemma PercentileOfAny(s: Snapshot, latencies: seq<uint64>, p: real, t: seq<uint64>)
    requires Represents(s, latencies) && s.ok > 0
    requires 0.0 <= p <= 1.0
    requires SortedByBump(t) && multiset(t) == multiset(latencies)
    ensures RankDefined(s, p) && |t| == s.ok && Rank(s.ok, p) < s.ok
    ensures FirstOver(s.buckets, Rank(s.ok, p), 0, 0) < BUCKETS
    ensures var r, x := Percentile(s, p), Bump(t[Rank(s.ok, p)]);
      r <= (if x == 0 then 1 else x) < 2 * r
  {
    assert |multiset(t)| == |t|;
    RankInRange(s.ok, p);
    var rank := Rank(s.ok, p);
    CountNone(latencies, BelowBucket(0));
    FirstOverStraddles(s, latencies, rank, 0);
    var i := FirstOver(s.buckets, rank, 0, 0);
    CountPermutation(t, latencies, BelowBucket(i));
    CountPermutation(t, latencies, BelowBucket(i + 1));
    SortedPrefix(t, i, rank);
    SortedPrefix(t, i + 1, rank);
    assert BucketOf(t[rank]) == i;
    assert BucketBound(i) == Pow2(i);
  }

  ghost predicate Sorted(t: seq<uint64>) {
    forall i, j | 0 <= i <= j < |t| :: t[i] <= t[j]
  }

  /** The error bound: with x the order statistic at floor((ok - 1) * p), the report r satisfies
      r <= x + 1 < 2r, as long as no latency is the largest 64-bit value. */
  lemma PercentileErrorBound(s: Snapshot, latencies: seq<uint64>, p: real, t: seq<uint64>)
    requires Represents(s, latencies) && s.ok > 0
    requires 0.0 <= p <= 1.0
    requires Sorted(t) && multiset(t) == multiset(latencies)
    requires forall x <- latencies :: x < U64 - 1
    ensures RankDefined(s, p) && |t| == s.ok && Rank(s.ok, p) < s.ok
    ensures var r, x := Percentile(s, p), t[Rank(s.ok, p)];
      r <= x + 1 < 2 * r
  {
    forall x <- t
      ensures Bump(x) == x + 1
    {
      assert x in multiset(t) && x in multiset(latencies);
      assert x in latencies;
    }
    PercentileOfAny(s, latencies, p, t);
  }

  ghost predicate WithinError(s: Snapshot, p: real, t: seq<uint64>)
    requires s.ok == |t| > 0 && 0.0 <= p <= 1.0
  {
    RankInRange(s.ok, p);
    var r, x := Percentile(s, p), t[Rank(s.ok, p)];
    r <= x + 1 < 2 * r
  }

  /** No report exceeds half the word size, so the largest latency breaks the bound at p = 1. */
  lemma LargestLatencyBreaksBound(s: Snapshot, t: seq<uint64>)
    requires s.ok == |t| > 0 && t[|t| - 1] == U64 - 1
    ensures !WithinError(s, 1.0, t)
  {
    RankInRange(s.ok, 1.0);
    assert (s.ok - 1) as real * 1.0 == (s.ok - 1) as real;
    WordSize();
    var i := FirstOver(s.buckets, Rank(s.ok, 1.0), 0, 0);
    if i < 63 {
      Pow2Grows(i, 63);
    }
    assert Pow2(64) == 2 * Pow2(63);
  }

  /** Exactly when the bound holds at every percentile: when no latency is the largest 64-bit
      value. */
  lemma ErrorBoundIff(s: Snapshot, latencies: seq<uint64>, t: seq<uint64>)
    requires Represents(s, latencies) && s.ok > 0
    requires Sorted(t) && multiset(t) == multiset(latencies)
    ensures |t| == s.ok
    ensures (forall p | 0.0 <= p <= 1.0 :: WithinError(s, p, t)) <==> forall x <- latencies :: x < U64 - 1
  {
    assert |multiset(t)| == |t|;
    if forall x <- latencies :: x < U64 - 1 {
      forall p | 0.0 <= p <= 1.0
        ensures WithinError(s, p, t)
      {
        PercentileErrorBound(s, latencies, p, t);
      }
    } else {
      var x :| x in latencies && x >= U64 - 1;
      assert x in multiset(latencies) && x in multiset(t);
      assert x in t;
      LargestLatencyBreaksBound(s, t);
    }
  }

  /** A higher percentile never reports a lower value, whatever the snapshot. */
  lemma {:induction false} FirstOverMonotone(buckets: seq<uint64>, low: nat, high: nat, i: nat, cum: uint64)
    requires low <= high && i <= |buckets|
    ensures FirstOver(buckets, low, i, cum) <= FirstOver(buckets, high, i, cum)
    decreases |buckets| - i
  {
    if i < |buckets| {
      FirstOverMonotone(buckets, low, high, i + 1, Add64(cum, buckets[i]));
    }
  }

  lemma ReportMonotone(buckets: seq<uint64>, low: nat, high: nat, count: nat)
    requires low <= high && count == |buckets| <= BUCKETS
    ensures var i, j := FirstOver(buckets, low, 0, 0), FirstOver(buckets, high, 0, 0);
      && (if i == count then Pow2(BUCKETS - 1) else BucketBound(i))
      <= (if j == count then Pow2(BUCKETS - 1) else BucketBound(j))
  {
    var i, j := FirstOver(buckets, low, 0, 0), FirstOver(buckets, high, 0, 0);
    FirstOverMonotone(buckets, low, high, 0, 0);
    if i < j {
      Pow2Grows(i, j);
    }
    if i < 63 {
      Pow2Grows(i, 63);
    }
  }

  lemma RankMonotone(ok: uint64, p: real, q: real)
    requires ok > 0 && 0.0 <= p <= q <= 1.0
    ensures Rank(ok, p) <= Rank(ok, q)
  {
    RankInRange(ok, p);
    RankInRange(ok, q);
    ProductMonotone((ok - 1) as real, p, q);
    FloorMonotone((ok - 1) as real * p, (ok - 1) as real * q);
  }

  lemma FloorMonotone(a: real, b: real)
    requires a <= b
    ensures a.Floor <= b.Floor
  {
  }

  lemma PercentileMonotone(s: Snapshot, p: real, q: real)
    requires |s.buckets| == BUCKETS
    requires 0.0 <= p <= q <= 1.0
    ensures RankDefined(s, p) && RankDefined(s, q)
    ensures Percentile(s, p) <= Percentile(s, q)
  {
    if s.ok > 0 {
      RankInRange(s.ok, p);
      RankInRange(s.ok, q);
      RankMonotone(s.ok, p, q);
      ReportMonotone(s.buckets, Rank(s.ok, p), Rank(s.ok, q), BUCKETS);
    }
  }

  // ----- The object -----

  class Histogram {
    const buckets: array<uint64>
    var ok: uint64
    var err: uint64
    var bytes: uint64
    ghost var latencies: seq<uint64>

    /** Every counter is its history's count on 64 bits. */
    ghost predicate Valid()
      reads this, buckets
    {
      && buckets.Length == BUCKETS
      && ok == Wrap64(|latencies|)
      && forall i | 0 <= i < BUCKETS :: buckets[i] == Wrap64(Recorded(latencies, i))
    }

    constructor ()
      ensures Valid() && fresh(buckets)
      ensures latencies == [] && ok == 0 && err == 0 && bytes == 0
    {
      buckets := new uint64[BUCKETS](_ => 0);
      ok, err, bytes := 0, 0, 0;
      latencies := [];
    }

    method Reset()
      requires Valid()
      modifies this, buckets
      ensures Valid() && latencies == [] && ok == 0 && err == 0 && bytes == 0
    {
      for i := 0 to BUCKETS
        invariant forall j | 0 <= j < i :: buckets[j] == 0
      {
        buckets[i] := 0;
      }
      ok, err, bytes := 0, 0, 0;
      latencies := [];
    }

    method RecordOk(latency: uint64, received: uint64)
      requires Valid()
      modifies this, buckets
      ensures Valid() && latencies == old(latencies) + [latency]
      ensures bytes == Add64(old(bytes), received) && err == old(err)
    {
      ok := Inc64(ok);
      bytes := Add64(bytes, received);
      var v := Bump(latency);
      var idx := Log2Floor(v);
      if idx < 0 {
        idx := 0;
      }
      if idx >= BUCKETS {
        idx := BUCKETS - 1;
      }
      buckets[idx] := Inc64(buckets[idx]);
      latencies := latencies + [latency];
      WrapInc(|old(latencies)|);
      forall i | 0 <= i < BUCKETS
        ensures buckets[i] == Wrap64(Recorded(latencies, i))
      {
        RecordedSnoc(old(latencies), latency, i);
      }
    }

    method RecordErr()
      requires Valid()
      modifies this`err
      ensures Valid() && err == Inc64(old(err))
    {
      err := Inc64(err);
    }

    /** Get with no recorder running. */
    method Get() returns (s: Snapshot)
      requires Valid()
      ensures s.ok == ok && s.err == err && s.bytes == bytes && s.buckets == buckets[..]
      ensures |latencies| < U64 ==> Represents(s, latencies)
    {
      var copy: seq<uint64> := [];
      for i := 0 to BUCKETS
        invariant copy == buckets[..i]
      {
        copy := copy + [buckets[i]];
      }
      s := Snapshot(ok, err, bytes, copy);
      if |latencies| < U64 {
        forall i | 0 <= i < BUCKETS
          ensures copy[i] == Recorded(latencies, i)
        {
          CountMonotone(latencies, InBucket(i), InBucket(i));
          WrapSmall(Recorded(latencies, i));
        }
      }
    }
  }
}
