/** The latency histogram while recorders run. A recorder increments `ok_` first and its bucket
    later, and Get loads `ok_` first and the buckets later, one by one; other recorders and
    other Gets may come between any two of these steps. */
module LatencyRuns {
  import opened Counting
  import opened Text
  import opened Words
  import opened Runs
  import opened Numbers
  import opened LatencyHistogram

  /** A Get in progress: the loads made so far. The rest only records: how many recorders were
      between their two increments when `ok_` was loaded, and how many had begun by then. */
  datatype Getting = Getting(ok: uint64, seen: seq<uint64>, between: nat, begun: nat)

  datatype Action = Begin(tid: nat, latency: uint64) | End(tid: nat) | CallGet(tid: nat) | Visit(tid: nat)

  /** `pending` holds the recorders between their two increments with the bucket of each, and
      `begun` counts all recorders so far. */
  datatype World = World(
    ok: uint64,
    buckets: seq<uint64>,
    pending: map<nat, nat>,
    gets: map<nat, Getting>,
    begun: nat)

  ghost function Zeros(n: nat): seq<uint64> {
    seq(n, i => 0)
  }

  ghost function Start(): World {
    World(0, Zeros(BUCKETS), map[], map[], 0)
  }

  ghost function Step(w: World, a: Action): World {
    match a
    case Begin(t, latency) =>
      if t in w.pending then w
      else w.(ok := Inc64(w.ok), pending := w.pending[t := BucketOf(latency)], begun := w.begun + 1)
    case End(t) =>
      if t in w.pending && w.pending[t] < |w.buckets| then
        var i := w.pending[t];
        w.(buckets := w.buckets[i := Inc64(w.buckets[i])], pending := w.pending - {t})
      else w
    case CallGet(t) =>
      w.(gets := w.gets[t := Getting(w.ok, [], |w.pending|, w.begun)])
    case Visit(t) =>
      if t in w.gets && |w.gets[t].seen| < |w.buckets| then
        var g := w.gets[t];
        w.(gets := w.gets[t := g.(seen := g.seen + [w.buckets[|g.seen|]])])
      else w
  }

  ghost function Exec(run: seq<Action>): World {
    Fold(Step, Start(), run)
  }

  // ----- Sums of counters -----

  ghost function Sum(xs: seq<uint64>): nat {
    if xs == [] then 0 else Sum(xs[..|xs| - 1]) + xs[|xs| - 1]
  }

  lemma {:induction false} SumConcat(a: seq<uint64>, b: seq<uint64>)
    ensures Sum(a + b) == Sum(a) + Sum(b)
  {
    if b == [] {
      assert a + b == a;
    } else {
      SumConcat(a, b[..|b| - 1]);
      assert (a + b)[..|a + b| - 1] == a + b[..|b| - 1];
    }
  }

  lemma SumOne(x: uint64)
    ensures Sum([x]) == x
  {
    assert [x][..0] == [];
  }

  lemma SumUpdate(xs: seq<uint64>, i: nat, x: uint64)
    requires i < |xs|
    ensures Sum(xs[i := x]) == Sum(xs) - xs[i] + x
    ensures Sum(xs) >= xs[i]
  {
    var left, right := xs[..i], xs[i + 1..];
    assert xs == left + ([xs[i]] + right);
    assert xs[i := x] == left + ([x] + right);
    SumConcat(left, [xs[i]] + right);
    SumConcat([xs[i]], right);
    SumConcat(left, [x] + right);
    SumConcat([x], right);
    SumOne(x);
    SumOne(xs[i]);
  }

  lemma {:induction false} SumZeros(n: nat)
    ensures Sum(Zeros(n)) == 0
  {
    if n > 0 {
      assert Zeros(n)[..n - 1] == Zeros(n - 1);
      SumZeros(n - 1);
    }
  }

  // ----- What a snapshot can show -----

  /** Every recorder that has begun is in a bucket or between its two increments. */
  ghost predicate Balanced(w: World) {
    && |w.buckets| == BUCKETS
    && (forall t <- w.pending :: w.pending[t] < BUCKETS)
    && (w.begun < U64 ==> w.ok == w.begun && Sum(w.buckets) + |w.pending| == w.begun)
  }

  /** What a Get has loaded, and what it would load now, against the recorders begun by the time
      it loaded `ok_` and against those begun by now. */
  ghost predicate Bracketed(buckets: seq<uint64>, g: Getting) {
    && |g.seen| <= |buckets|
    && g.begun <= Sum(g.seen) + Sum(buckets[|g.seen|..]) + g.between
    && Sum(g.seen) <= Sum(buckets[..|g.seen|])
  }

  lemma BalancedBegin(w: World, t: nat, latency: uint64)
    requires Balanced(w) && t !in w.pending && w.begun + 1 < U64
    ensures Balanced(Step(w, Begin(t, latency)))
  {
    var v := Step(w, Begin(t, latency));
    assert v.pending.Keys == w.pending.Keys + {t};
    assert |v.pending.Keys| == |v.pending| && |w.pending.Keys| == |w.pending|;
  }

  lemma BalancedEnd(w: World, t: nat)
    requires Balanced(w) && t in w.pending && w.begun < U64
    ensures Balanced(Step(w, End(t)))
    ensures w.buckets[w.pending[t]] + 1 < U64
  {
    var v, i := Step(w, End(t)), w.pending[t];
    assert v.pending.Keys == w.pending.Keys - {t};
    assert |v.pending.Keys| == |v.pending| && |w.pending.Keys| == |w.pending|;
    SumUpdate(w.buckets, i, Inc64(w.buckets[i]));
  }

  /** Incrementing a bucket only raises sums. */
  lemma EndKeepsBracket(buckets: seq<uint64>, i: nat, g: Getting)
    requires i < |buckets| && buckets[i] + 1 < U64 && Bracketed(buckets, g)
    ensures Bracketed(buckets[i := buckets[i] + 1], g)
  {
    var n := |g.seen|;
    var raised := buckets[i := buckets[i] + 1];
    if i < n {
      SumUpdate(buckets[..n], i, buckets[i] + 1);
      assert raised[..n] == buckets[..n][i := buckets[i] + 1];
      assert raised[n..] == buckets[n..];
    } else {
      SumUpdate(buckets[n..], i - n, buckets[i] + 1);
      assert raised[..n] == buckets[..n];
      assert raised[n..] == buckets[n..][i - n := buckets[i] + 1];
    }
  }

  lemma VisitKeepsBracket(buckets: seq<uint64>, g: Getting)
    requires Bracketed(buckets, g) && |g.seen| < |buckets|
    ensures Bracketed(buckets, g.(seen := g.seen + [buckets[|g.seen|]]))
  {
    var n := |g.seen|;
    var x := buckets[n];
    SumOne(x);
    SumConcat(g.seen, [x]);
    SumConcat([x], buckets[n + 1..]);
    assert buckets[n..] == [x] + buckets[n + 1..];
    SumConcat(buckets[..n], [x]);
    assert buckets[..n + 1] == buckets[..n] + [x];
  }

  ghost predicate AllBracketed(buckets: seq<uint64>, gets: map<nat, Getting>, begun: nat) {
    forall t <- gets :: Bracketed(buckets, gets[t]) && gets[t].ok == gets[t].begun <= begun
  }

  ghost predicate GetsBracketed(w: World) {
    AllBracketed(w.buckets, w.gets, w.begun)
  }

  lemma EndKeepsGets(buckets: seq<uint64>, i: nat, gets: map<nat, Getting>, begun: nat)
    requires i < |buckets| && buckets[i] + 1 < U64 && AllBracketed(buckets, gets, begun)
    ensures AllBracketed(buckets[i := buckets[i] + 1], gets, begun)
  {
    forall t <- gets
      ensures Bracketed(buckets[i := buckets[i] + 1], gets[t])
    {
      EndKeepsBracket(buckets, i, gets[t]);
    }
  }

  lemma CallBrackets(w: World, t: nat)
    requires Balanced(w) && w.begun < U64
    ensures Bracketed(w.buckets, Getting(w.ok, [], |w.pending|, w.begun))
  {
    assert w.buckets[0..] == w.buckets && w.buckets[..0] == [];
  }

  /** A Get that is called, or goes on, is bracketed like the others. */
  lemma GetSet(buckets: seq<uint64>, gets: map<nat, Getting>, begun: nat, t: nat, g: Getting)
    requires AllBracketed(buckets, gets, begun)
    requires Bracketed(buckets, g) && g.ok == g.begun <= begun
    ensures AllBracketed(buckets, gets[t := g], begun)
  {
  }

  lemma EndKeeps(w: World, t: nat)
    requires Balanced(w) && GetsBracketed(w) && t in w.pending && w.begun < U64
    ensures Balanced(Step(w, End(t))) && GetsBracketed(Step(w, End(t)))
  {
    var i := w.pending[t];
    BalancedEnd(w, t);
    EndKeepsGets(w.buckets, i, w.gets, w.begun);
    assert Step(w, End(t)).buckets == w.buckets[i := w.buckets[i] + 1];
  }

  lemma CallKeeps(w: World, t: nat)
    requires Balanced(w) && GetsBracketed(w) && w.begun < U64
    ensures Balanced(Step(w, CallGet(t))) && GetsBracketed(Step(w, CallGet(t)))
  {
    CallBrackets(w, t);
    GetSet(w.buckets, w.gets, w.begun, t, Getting(w.ok, [], |w.pending|, w.begun));
  }

  lemma VisitKeeps(w: World, t: nat)
    requires Balanced(w) && GetsBracketed(w)
    ensures Balanced(Step(w, Visit(t))) && GetsBracketed(Step(w, Visit(t)))
  {
    if t in w.gets && |w.gets[t].seen| < |w.buckets| {
      var g := w.gets[t];
      VisitKeepsBracket(w.buckets, g);
      GetSet(w.buckets, w.gets, w.begun, t, g.(seen := g.seen + [w.buckets[|g.seen|]]));
    }
  }

  lemma StepKeeps(w: World, a: Action)
    requires Balanced(w) && GetsBracketed(w) && Step(w, a).begun < U64
    ensures Balanced(Step(w, a)) && GetsBracketed(Step(w, a))
  {
    match a {
      case Begin(t, latency) =>
        if t !in w.pending {
          BalancedBegin(w, t, latency);
        }
      case End(t) =>
        if t in w.pending {
          EndKeeps(w, t);
        }
      case CallGet(t) => CallKeeps(w, t);
      case Visit(t) => VisitKeeps(w, t);
    }
  }

  lemma {:induction false} RunKeeps(run: seq<Action>)
    requires Exec(run).begun < U64
    ensures Balanced(Exec(run)) && GetsBracketed(Exec(run))
  {
    if run == [] {
      SumZeros(BUCKETS);
    } else {
      RunKeeps(run[..|run| - 1]);
      StepKeeps(Exec(run[..|run| - 1]), run[|run| - 1]);
    }
  }

  // ----- In terms of the actions of the run -----

  /** The recorders that have begun and not ended. */
  ghost function Busy(run: seq<Action>): set<nat> {
    if run == [] then {}
    else
      var before, a := Busy(run[..|run| - 1]), run[|run| - 1];
      if a.Begin? then before + {a.tid} else if a.End? then before - {a.tid} else before
  }

  /** The latencies whose recording has begun. */
  ghost function Latencies(run: seq<Action>): seq<uint64> {
    if run == [] then []
    else
      var front, a := run[..|run| - 1], run[|run| - 1];
      if a.Begin? && a.tid !in Busy(front) then Latencies(front) + [a.latency] else Latencies(front)
  }

  /** How many recordings had begun, and how many recorders were busy, when t last called Get;
      and the loads of t since. */
  datatype Since = Since(begun: nat, between: nat, visits: nat)

  ghost function SinceCall(run: seq<Action>, t: nat): Option<Since> {
    if run == [] then None
    else
      var front, a := run[..|run| - 1], run[|run| - 1];
      if a == CallGet(t) then Some(Since(|Latencies(front)|, |Busy(front)|, 0))
      else
        match SinceCall(front, t)
        case None => None
        case Some(s) => if a == Visit(t) then Some(s.(visits := s.visits + 1)) else Some(s)
  }

  lemma ActionsSnoc(run: seq<Action>, a: Action)
    ensures Busy(run + [a]) ==
      if a.Begin? then Busy(run) + {a.tid} else if a.End? then Busy(run) - {a.tid} else Busy(run)
    ensures Latencies(run + [a]) ==
      if a.Begin? && a.tid !in Busy(run) then Latencies(run) + [a.latency] else Latencies(run)
  {
    assert (run + [a])[..|run|] == run;
  }

  ghost predicate Tracks(w: World, run: seq<Action>) {
    w.pending.Keys == Busy(run) && w.begun == |Latencies(run)|
  }

  ghost predicate TracksGet(gets: map<nat, Getting>, run: seq<Action>, t: nat) {
    match SinceCall(run, t)
    case None => t !in gets
    case Some(s) =>
      && t in gets && gets[t].begun == s.begun && gets[t].between == s.between
      && |gets[t].seen| == if s.visits <= BUCKETS then s.visits else BUCKETS
  }

  lemma TracksStep(w: World, run: seq<Action>, a: Action)
    requires Balanced(w) && Tracks(w, run)
    ensures Tracks(Step(w, a), run + [a])
  {
    ActionsSnoc(run, a);
    match a {
      case Begin(t, latency) =>
        assert w.pending[t := BucketOf(latency)].Keys == w.pending.Keys + {t};
        assert t in w.pending ==> w.pending.Keys + {t} == w.pending.Keys;
      case End(t) =>
        assert (w.pending - {t}).Keys == w.pending.Keys - {t};
        assert t !in w.pending ==> w.pending.Keys - {t} == w.pending.Keys;
      case CallGet(_) =>
      case Visit(_) =>
    }
  }

  lemma TracksGetStep(w: World, run: seq<Action>, a: Action, t: nat)
    requires Balanced(w) && Tracks(w, run) && TracksGet(w.gets, run, t)
    ensures TracksGet(Step(w, a).gets, run + [a], t)
  {
    assert |w.pending.Keys| == |w.pending|;
    SinceSnoc(run, a, t);
    match a {
      case Begin(_, _) =>
      case End(_) =>
      case CallGet(_) =>
      case Visit(_) =>
    }
  }

  lemma SinceSnoc(run: seq<Action>, a: Action, t: nat)
    ensures SinceCall(run + [a], t) ==
      if a == CallGet(t) then Some(Since(|Latencies(run)|, |Busy(run)|, 0))
      else if a == Visit(t) && SinceCall(run, t).Some? then
        var s := SinceCall(run, t).value;
        Some(s.(visits := s.visits + 1))
      else SinceCall(run, t)
  {
    assert (run + [a])[..|run|] == run;
  }

  lemma {:induction false} RunTracks(run: seq<Action>, t: nat)
    requires |Latencies(run)| < U64
    ensures Tracks(Exec(run), run) && TracksGet(Exec(run).gets, run, t)
    ensures Balanced(Exec(run)) && GetsBracketed(Exec(run))
  {
    if run != [] {
      var front, a := run[..|run| - 1], run[|run| - 1];
      assert run == front + [a];
      RunTracks(front, t);
      TracksStep(Exec(front), front, a);
      TracksGetStep(Exec(front), front, a, t);
    }
    RunKeeps(run);
  }

  /** In every interleaving, a Get about to return with `ok` and buckets that were loaded at
      different times: `ok` is the number of recordings begun by the call. It exceeds the sum of
      the buckets by at most the recorders that were between their increments then, and the sum
      exceeds it by at most the recordings begun since. */
  lemma SnapshotSkew(run: seq<Action>, t: nat)
    requires |Latencies(run)| < U64
    requires SinceCall(run, t).Some? && SinceCall(run, t).value.visits >= BUCKETS
    ensures t in Exec(run).gets
    ensures var g, s := Exec(run).gets[t], SinceCall(run, t).value;
      && |g.seen| == BUCKETS
      && g.ok == s.begun <= |Latencies(run)|
      && g.ok <= Sum(g.seen) + s.between
      && Sum(g.seen) <= |Latencies(run)|
  {
    RunTracks(run, t);
    var w := Exec(run);
    assert w.buckets[BUCKETS..] == [] && w.buckets[..BUCKETS] == w.buckets;
  }

  // ----- Which bucket -----

  ghost function PendingIn(pending: map<nat, nat>, i: nat): set<nat> {
    set t | t in pending && pending[t] == i
  }

  /** A recording that has begun is in the bucket of its latency, or will be. */
  ghost predicate Bucketed(w: World, latencies: seq<uint64>) {
    && |w.buckets| == BUCKETS
    && forall i | 0 <= i < BUCKETS :: w.buckets[i] + |PendingIn(w.pending, i)| == Recorded(latencies, i)
  }

  lemma PendingMore(pending: map<nat, nat>, t: nat, b: nat, i: nat)
    requires t !in pending
    ensures |PendingIn(pending[t := b], i)| == |PendingIn(pending, i)| + (if b == i then 1 else 0)
  {
    if b == i {
      assert PendingIn(pending[t := b], i) == PendingIn(pending, i) + {t};
    } else {
      assert PendingIn(pending[t := b], i) == PendingIn(pending, i);
    }
  }

  lemma PendingLess(pending: map<nat, nat>, t: nat, i: nat)
    requires t in pending
    ensures |PendingIn(pending - {t}, i)| == |PendingIn(pending, i)| - (if pending[t] == i then 1 else 0)
  {
    if pending[t] == i {
      assert PendingIn(pending, i) == PendingIn(pending - {t}, i) + {t};
    } else {
      assert PendingIn(pending - {t}, i) == PendingIn(pending, i);
    }
  }

  lemma BucketedBegin(w: World, t: nat, latency: uint64, latencies: seq<uint64>)
    requires Bucketed(w, latencies) && t !in w.pending
    ensures Bucketed(Step(w, Begin(t, latency)), latencies + [latency])
  {
    forall i | 0 <= i < BUCKETS
      ensures w.buckets[i] + |PendingIn(w.pending[t := BucketOf(latency)], i)|
           == Recorded(latencies + [latency], i)
    {
      CountSnoc(latencies, latency, InBucket(i));
      PendingMore(w.pending, t, BucketOf(latency), i);
    }
  }

  lemma BucketedEnd(w: World, t: nat, latencies: seq<uint64>)
    requires Bucketed(w, latencies) && Balanced(w) && t in w.pending && w.begun < U64
    ensures Bucketed(Step(w, End(t)), latencies)
  {
    BalancedEnd(w, t);
    var v := Step(w, End(t));
    forall i | 0 <= i < BUCKETS
      ensures v.buckets[i] + |PendingIn(v.pending, i)| == Recorded(latencies, i)
    {
      PendingLess(w.pending, t, i);
    }
  }

  lemma {:induction false} RunBuckets(run: seq<Action>)
    requires |Latencies(run)| < U64
    ensures Bucketed(Exec(run), Latencies(run))
  {
    if run == [] {
      forall i | 0 <= i < BUCKETS
        ensures PendingIn(map[], i) == {}
      {
      }
    } else {
      var front, a := run[..|run| - 1], run[|run| - 1];
      var w := Exec(front);
      RunBuckets(front);
      RunTracks(front, 0);
      match a {
        case Begin(t, latency) =>
          if t !in w.pending {
            BucketedBegin(w, t, latency, Latencies(front));
          }
        case End(t) =>
          if t in w.pending {
            BucketedEnd(w, t, Latencies(front));
          }
        case _ =>
      }
    }
  }

  /** No load shows more than the bucket has by now. */
  ghost predicate NoMore(buckets: seq<uint64>, seen: seq<uint64>) {
    |seen| <= |buckets| && forall i | 0 <= i < |seen| :: seen[i] <= buckets[i]
  }

  lemma NoMoreRaised(buckets: seq<uint64>, i: nat, seen: seq<uint64>)
    requires i < |buckets| && buckets[i] + 1 < U64 && NoMore(buckets, seen)
    ensures NoMore(buckets[i := Inc64(buckets[i])], seen)
  {
  }

  lemma NoMoreSeen(buckets: seq<uint64>, seen: seq<uint64>)
    requires |seen| < |buckets| && NoMore(buckets, seen)
    ensures NoMore(buckets, seen + [buckets[|seen|]])
  {
  }

  lemma NoMoreStep(w: World, a: Action, t: nat)
    requires Balanced(w) && w.begun < U64
    requires t in w.gets ==> NoMore(w.buckets, w.gets[t].seen)
    ensures var v := Step(w, a);
      t in v.gets ==> NoMore(v.buckets, v.gets[t].seen)
  {
    match a {
      case Begin(_, _) =>
      case End(x) =>
        if x in w.pending && t in w.gets {
          BalancedEnd(w, x);
          NoMoreRaised(w.buckets, w.pending[x], w.gets[t].seen);
        }
      case CallGet(_) =>
      case Visit(x) =>
        if x == t && t in w.gets && |w.gets[t].seen| < |w.buckets| {
          NoMoreSeen(w.buckets, w.gets[t].seen);
        }
    }
  }

  lemma {:induction false} RunNoMore(run: seq<Action>, t: nat)
    requires |Latencies(run)| < U64
    ensures t in Exec(run).gets ==> NoMore(Exec(run).buckets, Exec(run).gets[t].seen)
  {
    if run != [] {
      var front, a := run[..|run| - 1], run[|run| - 1];
      RunNoMore(front, t);
      RunTracks(front, t);
      RunTracks(run, t);
      NoMoreStep(Exec(front), a, t);
    }
  }

  lemma {:induction false} NoMoreIsEqual(a: seq<uint64>, b: seq<uint64>)
    requires |a| == |b| && NoMore(b, a)
    ensures Sum(a) <= Sum(b)
    ensures Sum(a) == Sum(b) ==> a == b
  {
    if a != [] {
      NoMoreIsEqual(a[..|a| - 1], b[..|b| - 1]);
      assert a == a[..|a| - 1] + [a[|a| - 1]] && b == b[..|b| - 1] + [b[|b| - 1]];
    }
  }

  /** A Get during which nothing is recorded represents all latencies recorded: if no recorder
      was busy when it was called and none has begun since. */
  lemma QuietGetRepresents(run: seq<Action>, t: nat)
    requires |Latencies(run)| < U64
    requires SinceCall(run, t).Some? && SinceCall(run, t).value.visits >= BUCKETS
    requires SinceCall(run, t).value.between == 0
    requires SinceCall(run, t).value.begun == |Latencies(run)|
    ensures t in Exec(run).gets
    ensures var g := Exec(run).gets[t];
      Represents(Snapshot(g.ok, 0, 0, g.seen), Latencies(run))
  {
    SnapshotSkew(run, t);
    RunTracks(run, t);
    RunBuckets(run);
    RunNoMore(run, t);
    var w := Exec(run);
    var g := w.gets[t];
    NoMoreIsEqual(g.seen, w.buckets);
    assert w.pending == map[];
    forall i | 0 <= i < BUCKETS
      ensures PendingIn(w.pending, i) == {}
    {
    }
  }

  // ----- When the percentile loop falls through -----

  /** The loop stops at the first bucket with which the buckets so far add up to more than the
      rank, whatever snapshot it is given, as long as the sum fits. */
  lemma {:induction false} StopsAtFirst(buckets: seq<uint64>, rank: nat, i: nat, cum: uint64)
    requires i <= |buckets| && cum == Sum(buckets[..i]) <= rank && Sum(buckets) < U64
    ensures var stop := FirstOver(buckets, rank, i, cum);
      && Sum(buckets[..stop]) <= rank
      && (stop < |buckets| ==> rank < Sum(buckets[..stop + 1]))
    decreases |buckets| - i
  {
    if i < |buckets| {
      SumConcat(buckets[..i + 1], buckets[i + 1..]);
      assert buckets == buckets[..i + 1] + buckets[i + 1..];
      assert buckets[..i + 1][..i] == buckets[..i];
      if cum + buckets[i] <= rank {
        StopsAtFirst(buckets, rank, i + 1, cum + buckets[i]);
      }
    }
  }

  lemma FallsThrough(buckets: seq<uint64>, rank: nat)
    requires Sum(buckets) < U64
    ensures FirstOver(buckets, rank, 0, 0) == |buckets| <==> Sum(buckets) <= rank
  {
    assert buckets[..0] == [] && buckets[..|buckets|] == buckets;
    StopsAtFirst(buckets, rank, 0, 0);
    var stop := FirstOver(buckets, rank, 0, 0);
    if stop < |buckets| {
      SumConcat(buckets[..stop + 1], buckets[stop + 1..]);
      assert buckets == buckets[..stop + 1] + buckets[stop + 1..];
    }
  }

  lemma TornRank(g: Getting, p: real)
    requires g.ok > 0 && 0.0 <= p <= 1.0
    requires Sum(g.seen) < U64 && g.ok <= Sum(g.seen) + g.between
    ensures 0 <= Rank(g.ok, p) < g.ok
    ensures var stop := FirstOver(g.seen, Rank(g.ok, p), 0, 0);
      && (stop == |g.seen| <==> Sum(g.seen) <= Rank(g.ok, p))
      && (g.between == 0 ==> stop < |g.seen|)
  {
    RankInRange(g.ok, p);
    FallsThrough(g.seen, Rank(g.ok, p));
  }

  /** A percentile of a snapshot taken while recorders run: the loop falls through, to report
      the last bucket's bound, exactly when the buckets add up to no more than the rank. That
      takes a recorder between its two increments. */
  lemma TornPercentile(run: seq<Action>, t: nat, p: real)
    requires |Latencies(run)| < U64 && 0.0 <= p <= 1.0
    requires SinceCall(run, t).Some? && SinceCall(run, t).value.visits >= BUCKETS
    requires SinceCall(run, t).value.begun > 0
    ensures t in Exec(run).gets
    ensures var g := Exec(run).gets[t];
      && 0 <= Rank(g.ok, p) < g.ok
      && (FirstOver(g.seen, Rank(g.ok, p), 0, 0) == BUCKETS <==> Sum(g.seen) <= Rank(g.ok, p))
      && (SinceCall(run, t).value.between == 0 ==> FirstOver(g.seen, Rank(g.ok, p), 0, 0) < BUCKETS)
  {
    SnapshotSkew(run, t);
    RunTracks(run, t);
    TornRank(Exec(run).gets[t], p);
  }

  /** A recorder has incremented only `ok_`, and a Get has loaded that and n buckets. */
  ghost predicate Torn(run: seq<Action>, latency: uint64, n: nat) {
    var w := Exec(run);
    && w.buckets == Zeros(BUCKETS) && w.begun == 1
    && 0 in w.gets && w.gets[0] == Getting(1, Zeros(n), 1, 1)
    && Latencies(run) == [latency] && SinceCall(run, 0) == Some(Since(1, 1, n))
  }

  lemma Tear(latency: uint64) returns (run: seq<Action>)
    ensures Torn(run, latency, 0)
  {
    var begun := [Begin(0, latency)];
    assert [] + begun == begun;
    FoldOne(Step, Start(), Begin(0, latency));
    ActionsSnoc([], Begin(0, latency));
    SinceSnoc([], Begin(0, latency), 0);
    FoldSnoc(Step, Start(), begun, CallGet(0));
    ActionsSnoc(begun, CallGet(0));
    SinceSnoc(begun, CallGet(0), 0);
    run := begun + [CallGet(0)];
  }

  lemma {:induction false} LoadZeros(latency: uint64, n: nat) returns (run: seq<Action>)
    requires n <= BUCKETS
    ensures Torn(run, latency, n)
  {
    if n == 0 {
      run := Tear(latency);
    } else {
      var before := LoadZeros(latency, n - 1);
      FoldSnoc(Step, Start(), before, Visit(0));
      ActionsSnoc(before, Visit(0));
      SinceSnoc(before, Visit(0), 0);
      run := before + [Visit(0)];
      assert Zeros(n) == Zeros(n - 1) + [0];
    }
  }

  /** It does happen: with one recorder between its increments, of any latency, every percentile
      is reported as the largest power of two. */
  lemma TornReport(latency: uint64, p: real) returns (run: seq<Action>)
    requires 0.0 <= p <= 1.0
    ensures var w := Exec(run);
      && Latencies(run) == [latency]
      && 0 in w.gets && |w.gets[0].seen| == BUCKETS
      && RankDefined(Snapshot(w.gets[0].ok, 0, 0, w.gets[0].seen), p)
      && Percentile(Snapshot(w.gets[0].ok, 0, 0, w.gets[0].seen), p) == Pow2(63)
  {
    run := LoadZeros(latency, BUCKETS);
    TornPercentile(run, 0, p);
    SumZeros(BUCKETS);
  }
}
