/** How many probes can really be out at once: the exact maximum for every choice of options,
    and exactly when it stays within the option for in-flight probes. And a run in which a
    closed breaker refuses. */
module BreakerWitness {
  import opened Breaker
  import opened BreakerRuns

  lemma ExecSnoc(o: NormalOptions, start: int, run: seq<Action>, a: Action)
    ensures Exec(o, start, run + [a]) == Step(o, Exec(o, start, run), a)
    ensures ReportsOnce(o, start, run + [a]) <==>
      ReportsOnce(o, start, run)
      && (a.ReportSuccess? || a.ReportFailure? ==> a.id in Exec(o, start, run).out)
  {
    assert (run + [a])[..|run|] == run;
  }

  /** `keep` calls are out, admitted by the unlocked load; then caller 0 alone was admitted and
      failed n times. */
  ghost predicate Tripping(o: NormalOptions, w: World, keep: nat, n: nat) {
    && n <= o.failuresToOpen
    && w.core == Core(if n < o.failuresToOpen then Closed else Open, n, 0, 0, 0)
    && w.pcs == map[] && w.clock == 0
    && |w.log| == keep + n && (forall a <- w.log :: a.origin == FastPath)
    && (forall id: nat :: id in w.out <==> id < keep)
    && w.entries == [] && w.stale == 0
  }

  lemma TripOnce(o: NormalOptions, w: World, keep: nat, n: nat)
    requires n < o.failuresToOpen && Tripping(o, w, keep, n)
    ensures var v := Step(o, w, Load(0));
      keep + n in v.out && Tripping(o, Step(o, v, ReportFailure(keep + n)), keep, n + 1)
  {
    assert Step(o, w, Load(0)) == Admit(w, FastPath);
  }

  lemma {:induction false} Leave(o: NormalOptions, keep: nat) returns (run: seq<Action>)
    ensures ReportsOnce(o, 0, run) && Tripping(o, Exec(o, 0, run), keep, 0)
  {
    if keep == 0 {
      run := [];
    } else {
      var before := Leave(o, keep - 1);
      ExecSnoc(o, 0, before, Load(0));
      run := before + [Load(0)];
    }
  }

  lemma {:induction false} Trip(o: NormalOptions, keep: nat, n: nat) returns (run: seq<Action>)
    requires n <= o.failuresToOpen
    ensures ReportsOnce(o, 0, run) && Tripping(o, Exec(o, 0, run), keep, n)
  {
    if n == 0 {
      run := Leave(o, keep);
    } else {
      var before := Trip(o, keep, n - 1);
      TripOnce(o, Exec(o, 0, before), keep, n - 1);
      ExecSnoc(o, 0, before, Load(0));
      ExecSnoc(o, 0, before + [Load(0)], ReportFailure(keep + n - 1));
      run := before + [Load(0)] + [ReportFailure(keep + n - 1)];
    }
  }

  /** The world in which caller 0, after a pause, holds the lock. */
  ghost function AtLock(w: World, pause: nat): World {
    w.(clock := w.clock + pause,
       pcs := w.pcs[0 := Loaded][0 := Timed(w.clock + pause)][0 := Idle])
  }

  /** Caller 0 goes through the whole of AllowRequest, pausing before it reads the clock. */
  lemma Visit(o: NormalOptions, run: seq<Action>, pause: nat) returns (more: seq<Action>)
    requires ReportsOnce(o, 0, run)
    requires PcOf(Exec(o, 0, run), 0) == Idle && Exec(o, 0, run).core.state != Closed
    ensures ReportsOnce(o, 0, more)
    ensures var v := AtLock(Exec(o, 0, run), pause);
      Exec(o, 0, more) == Enter(o, v, v.clock)
  {
    var w := Exec(o, 0, run);
    ExecSnoc(o, 0, run, Load(0));
    var r1 := run + [Load(0)];
    ExecSnoc(o, 0, r1, Tick(pause));
    var r2 := r1 + [Tick(pause)];
    ExecSnoc(o, 0, r2, ReadClock(0));
    var r3 := r2 + [ReadClock(0)];
    var timed := w.(clock := w.clock + pause, pcs := w.pcs[0 := Loaded][0 := Timed(w.clock + pause)]);
    assert Exec(o, 0, r3) == timed;
    ExecSnoc(o, 0, r3, TakeLock(0));
    more := r3 + [TakeLock(0)];
  }

  ghost predicate AllIdle(w: World) {
    forall t: nat :: PcOf(w, t) == Idle
  }

  /** After caller 0 has come and gone everyone is where they were. */
  lemma StillIdle(o: NormalOptions, w: World, pause: nat)
    requires AllIdle(w)
    ensures var v := AtLock(w, pause);
      AllIdle(v) && AllIdle(Enter(o, v, v.clock))
  {
    var v := AtLock(w, pause);
    forall t: nat
      ensures PcOf(v, t) == Idle && PcOf(Enter(o, v, v.clock), t) == Idle
    {
      assert PcOf(w, t) == Idle;
    }
  }

  /** The first half-open episode is running, all callers are idle, `left` calls from before it are
      still out, and each of the others that has reported was a success. */
  ghost predicate InFirstEpisode(w: World, left: nat, inflight: nat, successes: nat, probes: nat) {
    && w.core.state == HalfOpen && w.core.inflight == inflight && w.core.successes == successes
    && w.core.openedAt == 0 && |w.entries| == 1 && w.stale == successes && AllIdle(w)
    && (forall id <- w.out :: id < |w.log|)
    && (forall id: nat | id < left :: id in w.out && !w.log[id].origin.Probe?)
    && |Outstanding(w)| == probes
  }

  lemma BeginEpisode(o: NormalOptions, w: World, keep: nat, pause: nat)
    requires Tripping(o, w, keep, o.failuresToOpen) && pause >= o.openInterval
    ensures var v := AtLock(w, pause);
      InFirstEpisode(Enter(o, v, v.clock), keep, 1, 0, 1)
  {
    StillIdle(o, w, pause);
    var v := AtLock(w, pause);
    var entered := v.(entries := [Entry(v.clock, v.clock)]);
    OutstandingNewEpisode(v, Entry(v.clock, v.clock));
    OutstandingAdmit(entered, Probe(1));
    var z := Enter(o, v, v.clock);
    assert z.log == Admit(entered, Probe(1)).log && z.out == Admit(entered, Probe(1)).out;
    assert Outstanding(z) == Outstanding(Admit(entered, Probe(1)));
  }

  lemma EnterOne(o: NormalOptions, w: World, left: nat, inflight: nat, successes: nat, probes: nat)
    requires InFirstEpisode(w, left, inflight, successes, probes) && inflight < o.maxInflight
    ensures var v := AtLock(w, 0);
      InFirstEpisode(Enter(o, v, v.clock), left, inflight + 1, successes, probes + 1)
  {
    StillIdle(o, w, 0);
    var v := AtLock(w, 0);
    assert Outstanding(v) == Outstanding(w);
    OutstandingAdmit(v, Probe(1));
    assert Outstanding(Enter(o, v, v.clock)) == Outstanding(Admit(v, Probe(1)));
  }

  /** A success of a call from before the episode frees a probe's slot. */
  lemma ReportOld(o: NormalOptions, w: World, left: nat, successes: nat, probes: nat)
    requires left > 0 && successes + 1 < o.successesToClose
    requires InFirstEpisode(w, left, o.maxInflight, successes, probes)
    ensures InFirstEpisode(Callback(o, w, left - 1, Success), left - 1, o.maxInflight - 1,
                           successes + 1, probes)
  {
    OutstandingCallback(o, w, left - 1, Success);
    var v := Callback(o, w, left - 1, Success);
    forall t: nat
      ensures PcOf(v, t) == Idle
    {
      assert PcOf(w, t) == Idle;
    }
  }

  ghost predicate FirstEpisode(o: NormalOptions, run: seq<Action>,
                               left: nat, inflight: nat, successes: nat, probes: nat) {
    && ReportsOnce(o, 0, run)
    && InFirstEpisode(Exec(o, 0, run), left, inflight, successes, probes)
  }

  lemma {:induction false} Fill(o: NormalOptions, keep: nat, inflight: nat) returns (run: seq<Action>)
    requires 1 <= inflight <= o.maxInflight
    ensures FirstEpisode(o, run, keep, inflight, 0, inflight)
  {
    if inflight == 1 {
      var before := Trip(o, keep, o.failuresToOpen);
      var pause: nat := if o.openInterval > 0 then o.openInterval else 0;
      run := Visit(o, before, pause);
      BeginEpisode(o, Exec(o, 0, before), keep, pause);
    } else {
      var before := Fill(o, keep, inflight - 1);
      run := Visit(o, before, 0);
      EnterOne(o, Exec(o, 0, before), keep, inflight - 1, 0, inflight - 1);
    }
  }

  /** Each old success before the closing one lets one more probe out. */
  lemma {:induction false} Exchange(o: NormalOptions, left: nat, successes: nat) returns (run: seq<Action>)
    requires successes < o.successesToClose
    ensures FirstEpisode(o, run, left, o.maxInflight, successes, o.maxInflight + successes)
    decreases successes
  {
    if successes == 0 {
      run := Fill(o, left, o.maxInflight);
    } else {
      var before := Exchange(o, left + 1, successes - 1);
      var w := Exec(o, 0, before);
      ExecSnoc(o, 0, before, ReportSuccess(left));
      ReportOld(o, w, left + 1, successes - 1, o.maxInflight + successes - 1);
      var reported := before + [ReportSuccess(left)];
      run := Visit(o, reported, 0);
      EnterOne(o, Exec(o, 0, reported), left, o.maxInflight - 1, successes, o.maxInflight + successes - 1);
    }
  }

  // ----- The most probes that can be out -----

  /** Each admitted call has reported at most once, and the breaker is half-open. */
  ghost predicate HonestHalfOpen(o: NormalOptions, start: int, run: seq<Action>) {
    ReportsOnce(o, start, run) && Exec(o, start, run).core.state == HalfOpen
  }

  /** For every choice of options the quota of an episode is the largest number of its probes
      that are ever out at once: no run has more, and some honest run has that many. */
  lemma MostProbesOut(o: NormalOptions)
    ensures forall start, run :: |Outstanding(Exec(o, start, run))| <= Quota(o)
    ensures exists run :: HonestHalfOpen(o, 0, run) && |Outstanding(Exec(o, 0, run))| == Quota(o)
  {
    forall start, run
      ensures |Outstanding(Exec(o, start, run))| <= Quota(o)
    {
      OutstandingWithinQuota(o, start, run);
    }
    var run := Exchange(o, 0, o.successesToClose - 1);
    assert HonestHalfOpen(o, 0, run);
  }

  /** maxInflight bounds the probes that are really out if and only if a single success closes
      the breaker. Otherwise a late success of a call admitted before the breaker opened frees
      the slot of a probe that is still out. */
  lemma SlotsBoundProbesIff(o: NormalOptions)
    ensures (forall start, run | HonestHalfOpen(o, start, run) ::
               |Outstanding(Exec(o, start, run))| <= o.maxInflight)
       <==> o.successesToClose == 1
  {
    MostProbesOut(o);
  }

  /** The bound on the probes that one episode admits is reached too, for all options. */
  lemma QuotaIsReached(o: NormalOptions)
    ensures exists run :: ReportsOnce(o, 0, run) && ProbesOf(Exec(o, 0, run).log, 1) == Quota(o)
  {
    var run := Exchange(o, 0, o.successesToClose - 1);
    ProbesAreLogged(Exec(o, 0, run));
    HalfOpenIsThrottled(o, 0, run);
    assert ReportsOnce(o, 0, run) && ProbesOf(Exec(o, 0, run).log, 1) == Quota(o);
  }

  /** Caller t has loaded a state other than closed and sampled the clock. */
  lemma Approach(o: NormalOptions, run: seq<Action>, t: nat) returns (more: seq<Action>)
    requires ReportsOnce(o, 0, run)
    requires PcOf(Exec(o, 0, run), t) == Idle && Exec(o, 0, run).core.state != Closed
    ensures ReportsOnce(o, 0, more)
    ensures var w := Exec(o, 0, run);
      Exec(o, 0, more) == w.(pcs := w.pcs[t := Loaded][t := Timed(w.clock)])
  {
    ExecSnoc(o, 0, run, Load(t));
    var loaded := run + [Load(t)];
    ExecSnoc(o, 0, loaded, ReadClock(t));
    more := loaded + [ReadClock(t)];
  }

  /** The callers `from` to n hold a clock value and wait for the lock. */
  ghost predicate AtTheLock(w: World, from: nat, n: nat) {
    forall t: nat | from <= t <= n :: PcOf(w, t).Timed?
  }

  lemma {:induction false} ApproachAll(o: NormalOptions, run: seq<Action>, n: nat) returns (more: seq<Action>)
    requires ReportsOnce(o, 0, run)
    requires Exec(o, 0, run).core.state != Closed && AllIdle(Exec(o, 0, run))
    ensures ReportsOnce(o, 0, more)
    ensures var w, v := Exec(o, 0, run), Exec(o, 0, more);
      && v == w.(pcs := v.pcs) && AtTheLock(v, 1, n)
      && forall t: nat | t > n :: PcOf(v, t) == Idle
  {
    if n == 0 {
      more := run;
    } else {
      var before := ApproachAll(o, run, n - 1);
      more := Approach(o, before, n);
      var u, v := Exec(o, 0, before), Exec(o, 0, more);
      forall t: nat
        ensures 1 <= t <= n ==> PcOf(v, t).Timed?
        ensures t > n ==> PcOf(v, t) == Idle
      {
        assert 1 <= t <= n - 1 ==> PcOf(u, t).Timed?;
        assert t > n ==> PcOf(u, t) == Idle;
      }
    }
  }

  /** Callers that lost the race with the close take the slots one by one. */
  lemma {:induction false} RaceAll(o: NormalOptions, run: seq<Action>, n: nat, k: nat) returns (more: seq<Action>)
    requires ReportsOnce(o, 0, run)
    requires Exec(o, 0, run).core == Core(Closed, 0, 0, 0, 0) && AtTheLock(Exec(o, 0, run), 1, n)
    requires k <= o.maxInflight && k <= n
    ensures ReportsOnce(o, 0, more)
    ensures var v := Exec(o, 0, more);
      v.core == Core(Closed, 0, 0, 0, k) && AtTheLock(v, k + 1, n)
  {
    if k == 0 {
      more := run;
    } else {
      var before := RaceAll(o, run, n, k - 1);
      ExecSnoc(o, 0, before, TakeLock(k));
      more := before + [TakeLock(k)];
      var u := Exec(o, 0, before);
      forall t: nat | k + 1 <= t <= n
        ensures PcOf(Exec(o, 0, more), t).Timed?
      {
        assert PcOf(u, t).Timed? && PcOf(u, k).Timed?;
      }
    }
  }

  /** maxInflight + 1 callers load the half-open state; then the last success, of an old call,
      closes the breaker. */
  lemma CloseUnderRacers(o: NormalOptions) returns (run: seq<Action>)
    ensures ReportsOnce(o, 0, run)
    ensures var w := Exec(o, 0, run);
      w.core == Core(Closed, 0, 0, 0, 0) && AtTheLock(w, 1, o.maxInflight + 1)
  {
    var probing := Exchange(o, 1, o.successesToClose - 1);
    var waiting := ApproachAll(o, probing, o.maxInflight + 1);
    var w := Exec(o, 0, waiting);
    ExecSnoc(o, 0, waiting, ReportSuccess(0));
    run := waiting + [ReportSuccess(0)];
    forall t: nat | 1 <= t <= o.maxInflight + 1
      ensures PcOf(Exec(o, 0, run), t).Timed?
    {
      assert PcOf(w, t).Timed?;
    }
  }

  /** For every choice of options a caller can be refused by a breaker that is closed for as
      long as the caller holds the lock: those before it in the race with the close took all
      slots, which nobody will ever give back. */
  lemma ClosedBreakerRefuses(o: NormalOptions) returns (run: seq<Action>, t: nat)
    ensures ReportsOnce(o, 0, run)
    ensures var w := Exec(o, 0, run);
      && w.core.state == Closed && PcOf(w, t).Timed?
      && Step(o, w, TakeLock(t)).log == w.log
  {
    t := o.maxInflight + 1;
    var closed := CloseUnderRacers(o);
    run := RaceAll(o, closed, t, o.maxInflight);
  }
}
