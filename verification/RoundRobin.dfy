/** Round-robin selection: the per-service cursors of src/governance/load_balancer.cpp and the
    ticket counter of src/runtime/io_context_pool.cpp, and how fair they are over histories. */
module RoundRobin {
  import opened Counting
  import opened Words

  // ----- Positions chosen by consecutive ticket values -----

  /** How often position p is chosen by the k tickets from ticket number start on, when the
      counter shows start on 64 bits and there are n positions. */
  function Hits(start: nat, k: nat, n: nat, p: nat): nat
    requires n > 0
  {
    if k == 0 then 0
    else Hits(start, k - 1, n, p) + (if Wrap64(start + k - 1) % n == p then 1 else 0)
  }

  /** As evenly as possible: floor(k/n) or ceil(k/n) times. */
  predicate Fair(hits: nat, k: nat, n: nat)
    requires n > 0
  {
    hits == k / n || (hits == k / n + 1 && k % n != 0)
  }

  /** Numbers below x with remainder p. */
  function Below(x: nat, n: nat, p: nat): nat
    requires n > 0
  {
    x / n + (if x % n > p then 1 else 0)
  }

  lemma MultipleAtLeast(d: int, n: nat)
    requires d >= 1
    ensures d * n >= n
  {
  }

  lemma DivModIs(x: nat, n: nat, q: nat, r: nat)
    requires 0 <= r < n && x == q * n + r
    ensures x / n == q && x % n == r
  {
    assert x == (x / n) * n + x % n;
    var d := q - x / n;
    assert d * n == x % n - r;
    assert (-d) * n == r - x % n;
    if d > 0 {
      MultipleAtLeast(d, n);
    } else if d < 0 {
      MultipleAtLeast(-d, n);
    }
  }

  lemma BelowStep(x: nat, n: nat, p: nat)
    requires p < n
    ensures Below(x + 1, n, p) == Below(x, n, p) + (if x % n == p then 1 else 0)
  {
    var q, r := x / n, x % n;
    assert x == q * n + r;
    if r == n - 1 {
      assert x + 1 == (q + 1) * n + 0;
      DivModIs(x + 1, n, q + 1, 0);
    } else {
      DivModIs(x + 1, n, q, r + 1);
    }
  }

  lemma {:induction false} HitsWithoutWrap(start: nat, k: nat, n: nat, p: nat)
    requires p < n && start + k <= U64
    ensures Hits(start, k, n, p) == Below(start + k, n, p) - Below(start, n, p)
    decreases k
  {
    if k > 0 {
      HitsWithoutWrap(start, k - 1, n, p);
      BelowStep(start + k - 1, n, p);
      WrapSmall(start + k - 1);
    }
  }

  /** x is q times n, and r more. */
  ghost predicate Divides(x: nat, n: nat, q: nat, r: nat) {
    x == q * n + r && r < n
  }

  lemma Parts(x: nat, n: nat)
    requires n > 0
    ensures Divides(x, n, x / n, x % n)
  {
  }

  lemma AddParts(a: nat, b: nat, n: nat, qa: nat, ra: nat, qb: nat, rb: nat)
    requires Divides(a, n, qa, ra) && Divides(b, n, qb, rb)
    ensures ra + rb < n ==> Divides(a + b, n, qa + qb, ra + rb)
    ensures ra + rb >= n ==> Divides(a + b, n, qa + qb + 1, ra + rb - n)
  {
    assert (qa + qb) * n == qa * n + qb * n;
    assert (qa + qb + 1) * n == (qa + qb) * n + n;
  }

  lemma SumDivMod(a: nat, b: nat, n: nat)
    requires n > 0
    ensures a % n + b % n < n ==> (a + b) / n == a / n + b / n && (a + b) % n == a % n + b % n
    ensures a % n + b % n >= n ==> (a + b) / n == a / n + b / n + 1 && (a + b) % n == a % n + b % n - n
  {
    SumOfParts(a, b, n, a / n, a % n, b / n, b % n);
  }

  lemma SumOfParts(a: nat, b: nat, n: nat, qa: nat, ra: nat, qb: nat, rb: nat)
    requires n > 0 && qa == a / n && ra == a % n && qb == b / n && rb == b % n
    ensures ra + rb < n ==> (a + b) / n == qa + qb && (a + b) % n == ra + rb
    ensures ra + rb >= n ==> (a + b) / n == qa + qb + 1 && (a + b) % n == ra + rb - n
  {
    Parts(a, n);
    Parts(b, n);
    AddParts(a, b, n, qa, ra, qb, rb);
    if ra + rb < n {
      DivModIs(a + b, n, qa + qb, ra + rb);
    } else {
      DivModIs(a + b, n, qa + qb + 1, ra + rb - n);
    }
  }

  lemma BelowIsFair(start: nat, k: nat, n: nat, p: nat)
    requires p < n
    ensures Below(start + k, n, p) >= Below(start, n, p)
    ensures Fair(Below(start + k, n, p) - Below(start, n, p), k, n)
  {
    SumDivMod(start, k, n);
    assert 0 <= start % n < n && 0 <= k % n < n;
  }

  /** Only what the counter shows at the start matters. */
  lemma {:induction false} HitsFromShown(start: nat, k: nat, n: nat, p: nat)
    requires n > 0
    ensures Hits(start, k, n, p) == Hits(Wrap64(start), k, n, p)
    decreases k
  {
    if k > 0 {
      HitsFromShown(start, k - 1, n, p);
      assert start == Wrap64(start) + (start / U64) * U64;
      ModShift(Wrap64(start) + k - 1, start / U64);
    }
  }

  /** Every window of consecutive tickets in which the counter does not wrap, in whatever lap,
      is shared out evenly. */
  lemma FairWithoutWrap(start: nat, k: nat, n: nat, p: nat)
    requires p < n && Wrap64(start) + k <= U64
    ensures Fair(Hits(start, k, n, p), k, n)
  {
    HitsFromShown(start, k, n, p);
    HitsWithoutWrap(Wrap64(start), k, n, p);
    BelowIsFair(Wrap64(start), k, n, p);
  }

  lemma {:induction false} HitsSplit(start: nat, j: nat, k: nat, n: nat, p: nat)
    requires n > 0
    ensures Hits(start, j + k, n, p) == Hits(start, j, n, p) + Hits(start + j, k, n, p)
    decreases k
  {
    if k > 0 {
      HitsSplit(start, j, k - 1, n, p);
    }
  }

  lemma {:induction false} HitsShift(start: nat, k: nat, n: nat, p: nat)
    requires n > 0
    ensures Hits(start + U64, k, n, p) == Hits(start, k, n, p)
    decreases k
  {
    if k > 0 {
      HitsShift(start, k - 1, n, p);
      ModShift(start + k - 1, 1);
    }
  }

  /** Across one wrap two positions can differ by two picks, never by more. */
  lemma OneWrap(start: nat, k: nat, n: nat, p: nat, p': nat)
    requires p < n && p' < n
    requires Wrap64(start) + k <= 2 * U64
    ensures Hits(start, k, n, p) <= Hits(start, k, n, p') + 2
  {
    var first := U64 - Wrap64(start);
    if k <= first {
      FairWithoutWrap(start, k, n, p);
      FairWithoutWrap(start, k, n, p');
    } else {
      LapStarts(start);
      HitsSplit(start, first, k - first, n, p);
      HitsSplit(start, first, k - first, n, p');
      FairWithoutWrap(start, first, n, p);
      FairWithoutWrap(start, first, n, p');
      FairWithoutWrap(start + first, k - first, n, p);
      FairWithoutWrap(start + first, k - first, n, p');
    }
  }

  lemma LapStarts(start: nat)
    ensures Wrap64(start + (U64 - Wrap64(start))) == 0
  {
    assert start + (U64 - Wrap64(start)) == 0 + (start / U64 + 1) * U64;
    ModShift(0, start / U64 + 1);
  }

  // ----- Exactly when wrapping does not matter -----

  lemma ModOfMultiple(x: nat, n: nat)
    requires n > 0 && U64 % n == 0
    ensures Wrap64(x) % n == x % n
  {
    var m := U64 / n;
    assert U64 == m * n;
    var q, w := x / U64, Wrap64(x);
    assert x == q * U64 + w;
    assert w == (w / n) * n + w % n;
    assert q * U64 == (q * m) * n;
    assert x == (q * m + w / n) * n + w % n;
    DivModIs(x, n, q * m + w / n, w % n);
  }

  lemma {:induction false} HitsOfDivisor(start: nat, k: nat, n: nat, p: nat)
    requires p < n && U64 % n == 0
    ensures Hits(start, k, n, p) == Below(start + k, n, p) - Below(start, n, p)
    decreases k
  {
    if k > 0 {
      HitsOfDivisor(start, k - 1, n, p);
      BelowStep(start + k - 1, n, p);
      ModOfMultiple(start + k - 1, n);
    }
  }

  /** The last ticket before the wrap chooses a position that comes round again too soon. */
  lemma UnfairWindow(n: nat)
    requires 0 < n < U64 && U64 % n != 0
    ensures var r := U64 % n;
      !Fair(Hits(U64 - 1, r + 1, n, r - 1), r + 1, n)
  {
    var r := U64 % n;
    var q := U64 / n;
    assert U64 - 1 == q * n + (r - 1);
    DivModIs(U64 - 1, n, q, r - 1);
    HitsSplit(U64 - 1, 1, r, n, r - 1);
    assert Hits(U64 - 1, 1, n, r - 1) == 1 by {
      assert Hits(U64 - 1, 0, n, r - 1) == 0;
      WrapSmall(U64 - 1);
    }
    HitsShift(0, r, n, r - 1);
    HitsWithoutWrap(0, r, n, r - 1);
    DivModIs(r, n, 0, r);
    DivModIs(0, n, 0, 0);
    if r + 1 < n {
      DivModIs(r + 1, n, 0, r + 1);
    } else {
      DivModIs(r + 1, n, 1, 0);
    }
  }

  ghost predicate AlwaysFair(n: nat)
    requires n > 0
  {
    forall start: nat, k: nat, p: nat | p < n :: Fair(Hits(start, k, n, p), k, n)
  }

  /** All windows whatsoever are shared out evenly if and only if the number of endpoints
      divides 2^64. */
  lemma AlwaysFairIff(n: nat)
    requires 0 < n < U64
    ensures AlwaysFair(n) <==> U64 % n == 0
  {
    if U64 % n == 0 {
      forall start: nat, k: nat, p: nat | p < n
        ensures Fair(Hits(start, k, n, p), k, n)
      {
        HitsOfDivisor(start, k, n, p);
        BelowIsFair(start, k, n, p);
      }
    } else {
      UnfairWindow(n);
    }
  }

  // ----- Histories over many services -----

  /** A call of Pick: the service, and how many endpoints the caller passed. */
  datatype Pick = Pick(service: string, endpoints: nat)

  /** The endpoint counts of one service's picks, in order; calls without endpoints pick
      nothing. */
  ghost function Sizes(h: seq<Pick>, service: string): seq<nat> {
    if h == [] then []
    else
      var c := h[|h| - 1];
      Sizes(h[..|h| - 1], service)
      + (if c.service == service && c.endpoints > 0 then [c.endpoints] else [])
  }

  /** The positions those picks choose: each service's tickets count from zero. */
  ghost function Chosen(h: seq<Pick>, service: string): seq<nat> {
    if h == [] then []
    else
      var c := h[|h| - 1];
      var before := Chosen(h[..|h| - 1], service);
      if c.service == service && c.endpoints > 0
      then before + [Wrap64(|before|) % c.endpoints]
      else before
  }

  lemma {:induction false} ChosenByTicket(h: seq<Pick>, service: string)
    ensures |Chosen(h, service)| == |Sizes(h, service)|
    ensures forall i | 0 <= i < |Sizes(h, service)| ::
      Sizes(h, service)[i] > 0 && Chosen(h, service)[i] == Wrap64(i) % Sizes(h, service)[i]
  {
    if h != [] {
      ChosenByTicket(h[..|h| - 1], service);
    }
  }

  /** Picks number start to start + k of a service exist and were all made with n endpoints. */
  ghost predicate SteadyWindow(h: seq<Pick>, service: string, start: nat, k: nat, n: nat) {
    && start + k <= |Sizes(h, service)|
    && forall i | start <= i < start + k :: Sizes(h, service)[i] == n
  }

  ghost function Is(p: nat): nat -> bool {
    (x: nat) => x == p
  }

  ghost function Occurrences(xs: seq<nat>, p: nat): nat {
    Count(xs, Is(p))
  }

  lemma {:induction false} WindowIsHits(h: seq<Pick>, service: string, start: nat, k: nat, n: nat, p: nat)
    requires n > 0 && SteadyWindow(h, service, start, k, n)
    ensures start + k <= |Chosen(h, service)|
    ensures Occurrences(Chosen(h, service)[start..start + k], p) == Hits(start, k, n, p)
    decreases k
  {
    ChosenByTicket(h, service);
    if k > 0 {
      WindowIsHits(h, service, start, k - 1, n, p);
      var window := Chosen(h, service)[start..start + k];
      assert window[..k - 1] == Chosen(h, service)[start..start + (k - 1)];
    }
  }

  /** In any interleaving of picks over any number of services, k consecutive picks of one
      service made with the same n endpoints choose every position floor(k/n) or ceil(k/n)
      times, as long as that service's cursor does not wrap among them. */
  lemma PicksAreFair(h: seq<Pick>, service: string, start: nat, k: nat, n: nat, p: nat)
    requires p < n && SteadyWindow(h, service, start, k, n)
    requires Wrap64(start) + k <= U64
    ensures start + k <= |Chosen(h, service)|
    ensures Fair(Occurrences(Chosen(h, service)[start..start + k], p), k, n)
  {
    WindowIsHits(h, service, start, k, n, p);
    FairWithoutWrap(start, k, n, p);
  }

  lemma PicksAcrossOneWrap(h: seq<Pick>, service: string, start: nat, k: nat, n: nat, p: nat, p': nat)
    requires p < n && p' < n && SteadyWindow(h, service, start, k, n)
    requires Wrap64(start) + k <= 2 * U64
    ensures start + k <= |Chosen(h, service)|
    ensures var window := Chosen(h, service)[start..start + k];
      Occurrences(window, p) <= Occurrences(window, p') + 2
  {
    WindowIsHits(h, service, start, k, n, p);
    WindowIsHits(h, service, start, k, n, p');
    OneWrap(start, k, n, p, p');
  }

  // ----- The objects -----

  datatype Result<T> = Ok(value: T) | Unavailable(message: string)

  class RoundRobinLoadBalancer {
    var cursors: map<string, uint64>
    ghost var history: seq<Pick>

    /** A service without an entry has never been picked from. */
    ghost predicate Valid()
      reads this
    {
      forall s :: (if s in cursors then cursors[s] else 0) == Wrap64(|Chosen(history, s)|)
    }

    constructor ()
      ensures Valid() && history == []
    {
      cursors := map[];
      history := [];
    }

    method Choose<T>(service: string, endpoints: seq<T>) returns (r: Result<T>)
      requires Valid()
      modifies this
      ensures Valid() && history == old(history) + [Pick(service, |endpoints|)]
      ensures endpoints == [] ==> r == Unavailable("no endpoints") && cursors == old(cursors)
      ensures endpoints != [] ==>
        var chosen := Chosen(history, service);
        && |chosen| == |Chosen(old(history), service)| + 1
        && chosen[|chosen| - 1] < |endpoints|
        && r == Ok(endpoints[chosen[|chosen| - 1]])
    {
      ghost var pick := Pick(service, |endpoints|);
      assert (history + [pick])[..|history|] == history;
      history := history + [pick];
      if endpoints == [] {
        return Unavailable("no endpoints");
      }
      var cur: uint64 := if service in cursors then cursors[service] else 0;
      cursors := cursors[service := Inc64(cur)];
      WrapInc(|Chosen(old(history), service)|);
      return Ok(endpoints[cur % |endpoints|]);
    }
  }

  /** The pool's Next: one atomic ticket per call, whoever calls. */
  class IoContextTickets {
    const contexts: nat
    var rr: uint64
    ghost var taken: nat

    ghost predicate Valid()
      reads this
    {
      contexts > 0 && rr == Wrap64(taken)
    }

    constructor (threads: nat)
      requires threads > 0
      ensures Valid() && taken == 0 && contexts == threads
    {
      contexts := threads;
      rr, taken := 0, 0;
    }

    /** After any number of calls, position p has been chosen Hits(0, taken, contexts, p) times. */
    method Next() returns (idx: nat)
      requires Valid()
      modifies this
      ensures Valid() && taken == old(taken) + 1 && idx < contexts
      ensures forall p | 0 <= p < contexts ::
        Hits(0, taken, contexts, p) == Hits(0, old(taken), contexts, p) + (if idx == p then 1 else 0)
    {
      idx := rr % contexts;
      WrapInc(taken);
      rr := Inc64(rr);
      taken := taken + 1;
    }
  }
}
