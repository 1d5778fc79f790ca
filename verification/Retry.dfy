/** Exponential backoff with jitter, src/resilience/retry.cpp, in exact arithmetic. */
module Retry {
  import opened Numbers

  datatype Options = Options(maxAttempts: int, baseMs: int, maxMs: int, jitterRatio: real)

  /** What the constructor guarantees. */
  predicate Clamped(o: Options) {
    o.maxAttempts >= 1 && 0.0 <= o.jitterRatio <= 1.0
  }

  function Min(x: int, y: int): int {
    if x <= y then x else y
  }

  /** The delay before jitter: base * 2^(attempt - 2), capped. */
  function Raw(o: Options, attempt: int): int
    requires attempt >= 2
  {
    Min(o.baseMs * Pow2(attempt - 2), o.maxMs)
  }

  /** Scaled by the jitter, truncated, and kept between zero and the maximum. */
  function Jittered(raw: int, jitter: real, maxMs: int): int {
    var jittered := Truncate(raw as real * (1.0 + jitter));
    Min(if jittered < 0 then 0 else jittered, maxMs)
  }

  function Backoff(o: Options, attempt: int, jitter: real): int {
    if attempt <= 1 then 0 else Jittered(Raw(o, attempt), jitter, o.maxMs)
  }

  /** Without jitter the delay never falls from one attempt to the next and never exceeds the
      maximum, which it reaches exactly when the doubled base does. */
  lemma RawGrows(o: Options, attempt: int)
    requires attempt >= 2 && o.baseMs >= 0 && o.maxMs >= 0
    ensures 0 <= Raw(o, attempt) <= Raw(o, attempt + 1) <= o.maxMs
    ensures Raw(o, attempt) == o.maxMs <==> o.baseMs * Pow2(attempt - 2) >= o.maxMs
  {
    var p := Pow2(attempt - 2);
    assert Pow2(attempt - 1) == 2 * p;
    assert o.baseMs * (2 * p) == 2 * (o.baseMs * p);
    assert o.baseMs * p >= 0;
  }

  /** The backoff is exponential: it starts at the base and doubles, up to the maximum. */
  lemma RawDoubles(o: Options, attempt: int)
    requires attempt >= 2 && o.baseMs >= 0 && o.maxMs >= 0
    ensures Raw(o, 2) == if o.baseMs <= o.maxMs then o.baseMs else o.maxMs
    ensures Raw(o, attempt + 1) ==
      if 2 * Raw(o, attempt) <= o.maxMs then 2 * Raw(o, attempt) else o.maxMs
  {
    var p := Pow2(attempt - 2);
    assert Pow2(0) == 1 && o.baseMs * 1 == o.baseMs;
    assert Pow2(attempt - 1) == 2 * p;
    assert o.baseMs * (2 * p) == 2 * (o.baseMs * p);
  }

  /** From attempt n on the raw delay is the maximum for good. */
  ghost predicate SaturatedFrom(o: Options, n: int) {
    n >= 2 && forall a | a >= n :: Raw(o, a) == o.maxMs
  }

  lemma Saturates(o: Options, a: int)
    requires o.baseMs > 0 && 0 <= o.maxMs && a >= o.maxMs + 2
    ensures Raw(o, a) == o.maxMs
  {
    var p := Pow2(a - 2);
    Pow2Exceeds(a - 2);
    ScaledAtLeast(o.baseMs, p);
  }

  lemma ScaledAtLeast(b: int, p: int)
    requires b >= 1 && p >= 0
    ensures b * p >= p
  {
    assert b * p == p + (b - 1) * p;
  }

  /** The doubling always gets to the maximum and stays there, unless it doubles zero. This is
      about exact products, of any size. */
  lemma SaturatesIff(o: Options)
    requires o.baseMs >= 0 && o.maxMs >= 0
    ensures (exists n :: SaturatedFrom(o, n)) <==> o.baseMs > 0 || o.maxMs == 0
  {
    if o.baseMs > 0 {
      forall a | a >= o.maxMs + 2
        ensures Raw(o, a) == o.maxMs
      {
        Saturates(o, a);
      }
      assert SaturatedFrom(o, o.maxMs + 2);
    } else {
      forall a | a >= 2
        ensures Raw(o, a) == 0
      {
        assert 0 * Pow2(a - 2) == 0;
      }
      if o.maxMs == 0 {
        assert SaturatedFrom(o, 2);
      } else {
        forall n
          ensures !SaturatedFrom(o, n)
        {
          if n >= 2 {
            assert Raw(o, n) != o.maxMs;
          }
        }
      }
    }
  }

  lemma TruncateBounds(x: real)
    ensures x >= 0.0 ==> 0 <= Truncate(x) && x - 1.0 < Truncate(x) as real <= x
    ensures x <= 0.0 ==> Truncate(x) <= 0 && x <= Truncate(x) as real < x + 1.0
  {
  }

  /** Truncating and capping a value that lies between lo and hi, with lo below the cap. */
  lemma CappedBounds(x: real, lo: real, hi: real, maxMs: int)
    requires 0.0 <= lo <= x <= hi && lo <= maxMs as real
    ensures var d := Min(Truncate(x), maxMs);
      lo - 1.0 < d as real <= hi && 0 <= d <= maxMs
  {
    TruncateBounds(x);
  }

  /** The value to be truncated lies within the ratio around x. */
  lemma ScaledBounds(x: real, jitter: real, ratio: real) returns (scaled: real, most: real)
    requires x >= 0.0 && 0.0 <= ratio <= 1.0 && -ratio <= jitter <= ratio
    ensures scaled == x * (1.0 + jitter) && most == x * ratio
    ensures x - most <= scaled <= x + most && 0.0 <= most <= x
  {
    ProductMonotone(x, jitter, ratio);
    ProductMonotone(x, -ratio, jitter);
    ProductMonotone(x, ratio, 1.0);
    assert x * (-ratio) == -(x * ratio);
    scaled, most := x * (1.0 + jitter), x * ratio;
    assert scaled == x + x * jitter;
  }

  /** Within the ratio around the raw delay, up to one millisecond of truncation below. */
  predicate WithinJitter(d: int, raw: int, ratio: real) {
    raw as real - raw as real * ratio - 1.0 < d as real <= raw as real + raw as real * ratio
  }

  /** The delay is the raw one scaled by the draw, less the fraction, or else the maximum. */
  predicate FollowsDraw(d: int, raw: int, jitter: real, maxMs: int) {
    var scaled := raw as real * (1.0 + jitter);
    d as real <= scaled && (d == maxMs || scaled - 1.0 < d as real)
  }

  /** The same for options of any sign. */
  predicate ExactDelay(d: int, raw: int, jitter: real, maxMs: int) {
    if maxMs < 0 then d == maxMs
    else if raw as real * (1.0 + jitter) <= 0.0 then d == 0
    else FollowsDraw(d, raw, jitter, maxMs)
  }

  lemma JitteredIsExact(raw: int, jitter: real, maxMs: int)
    ensures ExactDelay(Jittered(raw, jitter, maxMs), raw, jitter, maxMs)
  {
    TruncateBounds(raw as real * (1.0 + jitter));
  }

  lemma JitteredBounds(raw: int, jitter: real, ratio: real, maxMs: int)
    requires 0 <= raw <= maxMs && 0.0 <= ratio <= 1.0 && -ratio <= jitter <= ratio
    ensures var d := Jittered(raw, jitter, maxMs);
      WithinJitter(d, raw, ratio) && FollowsDraw(d, raw, jitter, maxMs) && 0 <= d <= maxMs
  {
    var scaled, most := ScaledBounds(raw as real, jitter, ratio);
    RawBelow(raw, maxMs);
    CappedBounds(scaled, raw as real - most, raw as real + most, maxMs);
    TruncateBounds(scaled);
  }

  lemma RawBelow(raw: int, maxMs: int)
    requires raw <= maxMs
    ensures raw as real <= maxMs as real
  {
  }

  /** The jittered delay stays within the ratio of the raw one, up to one millisecond of
      truncation below, and never exceeds the maximum. */
  lemma JitterBounds(o: Options, attempt: int, jitter: real)
    requires Clamped(o) && attempt >= 2 && o.baseMs >= 0 && o.maxMs >= 0
    requires -o.jitterRatio <= jitter <= o.jitterRatio
    ensures var d := Backoff(o, attempt, jitter);
      && WithinJitter(d, Raw(o, attempt), o.jitterRatio)
      && FollowsDraw(d, Raw(o, attempt), jitter, o.maxMs)
      && 0 <= d <= o.maxMs
  {
    RawGrows(o, attempt);
    JitteredBounds(Raw(o, attempt), jitter, o.jitterRatio, o.maxMs);
  }

  /** For any options at all a delay is negative only if the configured maximum is. */
  lemma NegativeOnlyByMaximum(o: Options, attempt: int, jitter: real)
    requires attempt >= 2
    ensures Backoff(o, attempt, jitter) <= o.maxMs
    ensures Backoff(o, attempt, jitter) >= 0 <==> o.maxMs >= 0
  {
  }

  /** The sum over attempts 2 to n. */
  ghost function SumFrom2(d: int -> int, n: int): int
    requires n >= 1
    decreases n
  {
    if n == 1 then 0 else SumFrom2(d, n - 1) + d(n)
  }

  /** The delay before each attempt, with a jitter drawn for each. */
  ghost function DelayOf(o: Options, jitters: int -> real): int -> int {
    (a: int) => Backoff(o, a, jitters(a))
  }

  ghost function DoubledBase(o: Options): int -> int {
    (a: int) => if a < 2 then 0 else o.baseMs * Pow2(a - 2)
  }

  lemma {:induction false} SumCapped(d: int -> int, n: int, cap: int)
    requires n >= 1 && forall a | 2 <= a <= n :: 0 <= d(a) <= cap
    ensures 0 <= SumFrom2(d, n) <= (n - 1) * cap
    decreases n
  {
    if n > 1 {
      SumCapped(d, n - 1, cap);
      assert (n - 1) * cap == (n - 2) * cap + cap;
    }
  }

  /** delay <= cap * f */
  ghost predicate WithinFactor(delay: int, cap: int, f: real) {
    delay as real <= cap as real * f
  }

  ghost predicate WithinAt(d: int -> int, u: int -> int, a: int, f: real) {
    WithinFactor(d(a), u(a), f)
  }

  ghost predicate AllWithin(d: int -> int, u: int -> int, n: int, f: real) {
    forall a | 2 <= a <= n :: WithinAt(d, u, a, f)
  }

  lemma {:induction false} SumWithinFactor(d: int -> int, u: int -> int, n: int, f: real)
    requires n >= 1 && AllWithin(d, u, n, f)
    ensures WithinFactor(SumFrom2(d, n), SumFrom2(u, n), f)
    decreases n
  {
    if n > 1 {
      SumWithinFactor(d, u, n - 1, f);
      assert WithinAt(d, u, n, f);
      AddScaled(SumFrom2(u, n - 1) as real, u(n) as real, f);
    }
  }

  lemma AddScaled(a: real, b: real, f: real)
    ensures (a + b) * f == a * f + b * f
  {
  }

  lemma {:induction false} SumOfDoubling(o: Options, n: int)
    requires n >= 1
    ensures SumFrom2(DoubledBase(o), n) == o.baseMs * (Pow2(n - 1) - 1)
    decreases n
  {
    if n > 1 {
      SumOfDoubling(o, n - 1);
      var p := Pow2(n - 2);
      assert o.baseMs * (2 * p - 1) == o.baseMs * (p - 1) + o.baseMs * p;
    }
  }

  lemma ScaleLeft(a: real, b: real, f: real)
    requires a <= b && f >= 0.0
    ensures a * f <= b * f
  {
  }

  /** One delay against the uncapped doubling. */
  lemma DelayBound(o: Options, jitters: int -> real, attempt: int)
    requires Clamped(o) && attempt >= 2 && o.baseMs >= 0 && o.maxMs >= 0
    requires -o.jitterRatio <= jitters(attempt) <= o.jitterRatio
    ensures WithinAt(DelayOf(o, jitters), DoubledBase(o), attempt, 1.0 + o.jitterRatio)
  {
    JitterBounds(o, attempt, jitters(attempt));
    var raw, f := Raw(o, attempt), 1.0 + o.jitterRatio;
    assert raw as real * f == raw as real + raw as real * o.jitterRatio;
    ScaleLeft(raw as real, DoubledBase(o)(attempt) as real, f);
  }

  ghost predicate DrawsWithin(o: Options, jitters: int -> real) {
    forall a :: -o.jitterRatio <= jitters(a) <= o.jitterRatio
  }

  /** All the delays before attempts 2 to n together stay below n - 1 times the maximum. */
  lemma TotalDelayCapped(o: Options, jitters: int -> real, n: int)
    requires Clamped(o) && n >= 1 && o.baseMs >= 0 && o.maxMs >= 0 && DrawsWithin(o, jitters)
    ensures 0 <= SumFrom2(DelayOf(o, jitters), n) <= (n - 1) * o.maxMs
  {
    forall a | 2 <= a <= n
      ensures 0 <= DelayOf(o, jitters)(a) <= o.maxMs
    {
      JitterBounds(o, a, jitters(a));
    }
    SumCapped(DelayOf(o, jitters), n, o.maxMs);
  }

  lemma DelaysWithinDoubling(o: Options, jitters: int -> real, n: int)
    requires Clamped(o) && o.baseMs >= 0 && o.maxMs >= 0 && DrawsWithin(o, jitters)
    ensures AllWithin(DelayOf(o, jitters), DoubledBase(o), n, 1.0 + o.jitterRatio)
  {
    var d, u, f := DelayOf(o, jitters), DoubledBase(o), 1.0 + o.jitterRatio;
    forall a | 2 <= a <= n
      ensures WithinAt(d, u, a, f)
    {
      DelayBound(o, jitters, a);
    }
  }

  /** They also stay below the geometric sum base * (2^(n-1) - 1), scaled by the largest jitter. */
  lemma TotalDelayGeometric(o: Options, jitters: int -> real, n: int)
    requires Clamped(o) && n >= 1 && o.baseMs >= 0 && o.maxMs >= 0 && DrawsWithin(o, jitters)
    ensures WithinFactor(SumFrom2(DelayOf(o, jitters), n), o.baseMs * (Pow2(n - 1) - 1),
                         1.0 + o.jitterRatio)
  {
    DelaysWithinDoubling(o, jitters, n);
    SumWithinFactor(DelayOf(o, jitters), DoubledBase(o), n, 1.0 + o.jitterRatio);
    SumOfDoubling(o, n);
  }

  class RetryPolicy {
    var opts: Options

    constructor (given: Options)
      ensures Clamped(opts)
      ensures given.maxAttempts >= 1 ==> opts.maxAttempts == given.maxAttempts
      ensures 0.0 <= given.jitterRatio <= 1.0 ==> opts.jitterRatio == given.jitterRatio
      ensures opts.baseMs == given.baseMs && opts.maxMs == given.maxMs
      ensures given.jitterRatio < 0.0 ==> opts.jitterRatio == 0.0
      ensures given.jitterRatio > 1.0 ==> opts.jitterRatio == 1.0
      ensures given.maxAttempts < 1 ==> opts.maxAttempts == 1
    {
      opts := given;
      new;
      if opts.maxAttempts < 1 {
        opts := opts.(maxAttempts := 1);
      }
      if opts.jitterRatio < 0.0 {
        opts := opts.(jitterRatio := 0.0);
      }
      if opts.jitterRatio > 1.0 {
        opts := opts.(jitterRatio := 1.0);
      }
    }

    /** `jitter` is the random draw. There is no delay before the first attempt; any other stays
        within the jitter ratio of the doubled and capped base, up to one millisecond of
        truncation, and within the maximum. */
    method BackoffBeforeAttempt(attempt: int, jitter: real) returns (ms: int)
      requires Clamped(opts)
      requires -opts.jitterRatio <= jitter <= opts.jitterRatio
      ensures ms == Backoff(opts, attempt, jitter)
      ensures attempt <= 1 ==> ms == 0
      ensures attempt >= 2 ==>
        var doubled := opts.baseMs * Pow2(attempt - 2);
        var capped := if doubled <= opts.maxMs then doubled else opts.maxMs;
        ms <= opts.maxMs && ExactDelay(ms, capped, jitter, opts.maxMs)
      ensures attempt >= 2 && opts.baseMs >= 0 && opts.maxMs >= 0 ==>
        var doubled := opts.baseMs * Pow2(attempt - 2);
        var capped := if doubled <= opts.maxMs then doubled else opts.maxMs;
        WithinJitter(ms, capped, opts.jitterRatio)
    {
      if attempt <= 1 {
        return 0;
      }
      var exp := attempt - 2;
      var raw := Min(opts.baseMs * Pow2(exp), opts.maxMs);
      ms := Jittered(raw, jitter, opts.maxMs);
      NegativeOnlyByMaximum(opts, attempt, jitter);
      JitteredIsExact(raw, jitter, opts.maxMs);
      if opts.baseMs >= 0 && opts.maxMs >= 0 {
        JitterBounds(opts, attempt, jitter);
      }
    }
  }
}
