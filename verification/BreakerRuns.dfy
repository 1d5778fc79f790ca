/** The breaker under concurrency. Any number of callers run AllowRequest as three separate
    steps (unlocked load, clock read, locked section); callbacks are locked sections of their
    own. Time never runs backwards. Every interleaving is a sequence of actions, and an action
    whose caller is not at that point changes nothing. */
module BreakerRuns {
  import opened Counting
  import opened Breaker

  /** Where a caller stands inside AllowRequest. */
  datatype Pc = Idle | Loaded | Timed(now: int)

  /** How a call was admitted: by the unlocked load, under a lock that found the breaker
      closed after all, or as a probe of the given half-open episode (numbered from 1). */
  datatype Origin = FastPath | RacedClosed | Probe(episode: nat)

  /** An admission's number in the log is its identity; `at` is the time it was granted. */
  datatype Admission = Admission(origin: Origin, at: int)

  /** A transition to half-open: the sampled clock that justified it, and when it happened. */
  datatype Entry = Entry(now: int, at: int)

  datatype Action =
    | Tick(delta: nat)
    | Load(tid: nat)
    | ReadClock(tid: nat)
    | TakeLock(tid: nat)
    | ReportSuccess(id: nat)
    | ReportFailure(id: nat)

  /** `core`, `clock` and `pcs` are the machine; the rest only records what happened:
      the critical sections in lock order, the half-open entries, the admissions, those that
      have not reported yet, the callbacks that reached the current half-open episode from
      admissions outside it, and the length of the log when the breaker last closed. */
  datatype World = World(
    core: Core,
    clock: int,
    pcs: map<nat, Pc>,
    events: seq<Event>,
    entries: seq<Entry>,
    log: seq<Admission>,
    out: set<nat>,
    stale: nat,
    closeMark: nat)

  ghost function Start(clock: int): World {
    World(INITIAL, clock, map[], [], [], [], {}, 0, 0)
  }

  ghost function PcOf(w: World, t: nat): Pc {
    if t in w.pcs then w.pcs[t] else Idle
  }

  ghost function Admit(w: World, origin: Origin): World {
    w.(log := w.log + [Admission(origin, w.clock)], out := w.out + {|w.log|})
  }

  ghost predicate CurrentProbe(w: World, id: nat) {
    id < |w.log| && w.log[id].origin == Probe(|w.entries|)
  }

  ghost function Enter(o: NormalOptions, w: World, now: int): World {
    var (c, ok) := AllowLocked(o, w.core, now);
    var entering := w.core.state == Open && c.state == HalfOpen;
    var v := w.(
      core := c,
      events := w.events + [Lock(now)],
      entries := if entering then w.entries + [Entry(now, w.clock)] else w.entries,
      stale := if entering then 0 else w.stale);
    if !ok then v
    else Admit(v, if c.state == Closed then RacedClosed else Probe(|v.entries|))
  }

  ghost function Callback(o: NormalOptions, w: World, id: nat, e: Event): World {
    var c := Apply(o, w.core, e);
    w.(
      core := c,
      events := w.events + [e],
      out := w.out - {id},
      stale := if w.core.state == HalfOpen && !CurrentProbe(w, id) then w.stale + 1 else w.stale,
      closeMark := if w.core.state == HalfOpen && c.state == Closed then |w.log| else w.closeMark)
  }

  ghost function Step(o: NormalOptions, w: World, a: Action): World {
    match a
    case Tick(delta) => w.(clock := w.clock + delta)
    case Load(t) =>
      if PcOf(w, t) != Idle then w
      else if w.core.state == Closed then Admit(w, FastPath)
      else w.(pcs := w.pcs[t := Loaded])
    case ReadClock(t) =>
      if PcOf(w, t) != Loaded then w else w.(pcs := w.pcs[t := Timed(w.clock)])
    case TakeLock(t) =>
      if !PcOf(w, t).Timed? then w
      else Enter(o, w.(pcs := w.pcs[t := Idle]), PcOf(w, t).now)
    case ReportSuccess(id) => Callback(o, w, id, Success)
    case ReportFailure(id) => Callback(o, w, id, Failure(w.clock))
  }

  ghost function Exec(o: NormalOptions, start: int, run: seq<Action>): World {
    if run == [] then Start(start)
    else Step(o, Exec(o, start, run[..|run| - 1]), run[|run| - 1])
  }

  /** Every interleaving drives the breaker exactly as the sequential replay of its critical
      sections in lock order does. This is the history the class records. */
  lemma {:induction false} RunLinearises(o: NormalOptions, start: int, run: seq<Action>)
    ensures var w := Exec(o, start, run);
      w.core == Replay(o, w.events) && CoreInv(o, w.core)
  {
    if run != [] {
      var w, a := Exec(o, start, run[..|run| - 1]), run[|run| - 1];
      RunLinearises(o, start, run[..|run| - 1]);
      match a {
        case TakeLock(t) =>
          if PcOf(w, t).Timed? {
            ReplaySnoc(o, w.events, Lock(PcOf(w, t).now));
          }
        case ReportSuccess(_) => ReplaySnoc(o, w.events, Success);
        case ReportFailure(_) => ReplaySnoc(o, w.events, Failure(w.clock));
        case _ =>
      }
    }
    CoreInvHolds(o, Exec(o, start, run).events);
  }

  /** Caller t loaded a state other than closed at step i and read the clock at step j, and did
      nothing else since. */
  ghost predicate Sampled(o: NormalOptions, start: int, run: seq<Action>, t: nat, i: nat, j: nat) {
    && i < j < |run| && run[i] == Load(t) && run[j] == ReadClock(t)
    && Exec(o, start, run[..i]).core.state != Closed
    && PcOf(Exec(o, start, run), t) == Timed(Exec(o, start, run[..j]).clock)
  }

  ghost predicate HasLoaded(o: NormalOptions, start: int, run: seq<Action>, t: nat) {
    exists i | 0 <= i < |run| :: run[i] == Load(t) && Exec(o, start, run[..i]).core.state != Closed
  }

  lemma LoadedLonger(o: NormalOptions, start: int, run: seq<Action>, a: Action, t: nat)
    requires HasLoaded(o, start, run, t)
    ensures HasLoaded(o, start, run + [a], t)
  {
    var i :| 0 <= i < |run| && run[i] == Load(t) && Exec(o, start, run[..i]).core.state != Closed;
    assert (run + [a])[..i] == run[..i] && (run + [a])[i] == Load(t);
  }

  lemma {:induction false} LoadedHasLoaded(o: NormalOptions, start: int, run: seq<Action>, t: nat)
    ensures PcOf(Exec(o, start, run), t) == Loaded ==> HasLoaded(o, start, run, t)
  {
    if run != [] && PcOf(Exec(o, start, run), t) == Loaded {
      var front, a := run[..|run| - 1], run[|run| - 1];
      assert run == front + [a];
      LoadedHasLoaded(o, start, front, t);
      if PcOf(Exec(o, start, front), t) == Loaded {
        LoadedLonger(o, start, front, a, t);
      } else {
        assert run[..|front|] == front && run[|front|] == Load(t);
      }
    }
  }

  lemma SampledLonger(o: NormalOptions, start: int, run: seq<Action>, a: Action, t: nat, i: nat, j: nat)
    requires Sampled(o, start, run, t, i, j)
    requires PcOf(Step(o, Exec(o, start, run), a), t) == PcOf(Exec(o, start, run), t)
    ensures Sampled(o, start, run + [a], t, i, j)
  {
    var longer := run + [a];
    assert longer[..i] == run[..i] && longer[..j] == run[..j] && longer[..|run|] == run;
  }

  lemma SampledNow(o: NormalOptions, start: int, run: seq<Action>, t: nat)
    requires PcOf(Exec(o, start, run), t) == Loaded && HasLoaded(o, start, run, t)
    ensures exists i: nat, j: nat :: Sampled(o, start, run + [ReadClock(t)], t, i, j)
  {
    var longer := run + [ReadClock(t)];
    var i :| 0 <= i < |run| && run[i] == Load(t) && Exec(o, start, run[..i]).core.state != Closed;
    assert longer[..i] == run[..i] && longer[..|run|] == run;
    assert Sampled(o, start, longer, t, i, |run|);
  }

  lemma TimedByReading(o: NormalOptions, w: World, a: Action, t: nat)
    requires PcOf(Step(o, w, a), t).Timed?
    ensures PcOf(w, t).Timed? || (PcOf(w, t) == Loaded && a == ReadClock(t))
    ensures PcOf(w, t).Timed? ==> PcOf(Step(o, w, a), t) == PcOf(w, t)
  {
  }

  /** A caller takes the lock only with a clock value that it read after it had loaded a state
      other than closed. */
  lemma {:induction false} TimedHasSampled(o: NormalOptions, start: int, run: seq<Action>, t: nat)
    requires PcOf(Exec(o, start, run), t).Timed?
    ensures exists i: nat, j: nat :: Sampled(o, start, run, t, i, j)
  {
    var front, a := run[..|run| - 1], run[|run| - 1];
    assert run == front + [a];
    TimedByReading(o, Exec(o, start, front), a, t);
    if PcOf(Exec(o, start, front), t).Timed? {
      TimedHasSampled(o, start, front, t);
      var i: nat, j: nat :| Sampled(o, start, front, t, i, j);
      SampledLonger(o, start, front, a, t, i, j);
    } else {
      LoadedHasLoaded(o, start, front, t);
      SampledNow(o, start, front, t);
    }
  }

  // ----- Throttling -----

  ghost function OriginIs(x: Origin): Admission -> bool {
    (a: Admission) => a.origin == x
  }

  ghost function ProbesOf(log: seq<Admission>, episode: nat): nat {
    Count(log, OriginIs(Probe(episode)))
  }

  ghost function Quota(o: NormalOptions): nat {
    o.maxInflight + o.successesToClose - 1
  }

  /** Later than every entry so far. */
  ghost predicate AfterEntries(w: World, t: int) {
    forall e <- w.entries :: e.at <= t
  }

  ghost predicate Timing(o: NormalOptions, w: World) {
    && AfterEntries(w, w.clock)
    && (forall t :: t in w.pcs && w.pcs[t].Timed? ==> w.pcs[t].now <= w.clock)
    && (w.core.state == Open ==> AfterEntries(w, w.core.openedAt) && w.core.openedAt <= w.clock)
    && (w.core.state == HalfOpen ==> w.entries != [])
    && (forall e <- w.entries :: e.now <= e.at)
    && (forall i, j | 0 <= i < j < |w.entries| ::
          w.entries[j].now - w.entries[i].at >= o.openInterval)
  }

  /** Each probe was admitted between its episode's entry and the next one. */
  ghost predicate LogTiming(w: World) {
    forall a <- w.log | a.origin.Probe? ::
      var e := a.origin.episode;
      && 1 <= e <= |w.entries|
      && w.entries[e - 1].at <= a.at <= w.clock
      && (e < |w.entries| ==> a.at <= w.entries[e].at)
  }

  /** No episode exceeds the quota; the running one is bounded by what the counters show. */
  ghost predicate Quotas(o: NormalOptions, w: World) {
    && (forall e: nat {:trigger ProbesOf(w.log, e)} :: ProbesOf(w.log, e) <= Quota(o))
    && (forall e: nat {:trigger ProbesOf(w.log, e)} :: e > |w.entries| ==> ProbesOf(w.log, e) == 0)
    && (w.core.state == HalfOpen ==>
          ProbesOf(w.log, |w.entries|) <= w.core.inflight + w.core.successes)
  }

  lemma ProbesOfAdmit(w: World, origin: Origin, e: nat)
    ensures ProbesOf(Admit(w, origin).log, e)
         == ProbesOf(w.log, e) + (if origin == Probe(e) then 1 else 0)
  {
    CountSnoc(w.log, Admission(origin, w.clock), OriginIs(Probe(e)));
  }

  lemma TimingStep(o: NormalOptions, w: World, a: Action)
    requires Timing(o, w)
    ensures Timing(o, Step(o, w, a))
  {
  }

  lemma LogTimingEnter(o: NormalOptions, w: World, now: int)
    requires Timing(o, w) && LogTiming(w)
    ensures LogTiming(Enter(o, w, now))
  {
    var v := Enter(o, w, now);
    forall a <- v.log | a.origin.Probe?
      ensures var e := a.origin.episode;
        && 1 <= e <= |v.entries|
        && v.entries[e - 1].at <= a.at <= v.clock
        && (e < |v.entries| ==> a.at <= v.entries[e].at)
    {
      assert a in w.log || a == v.log[|w.log|];
    }
  }

  lemma LogTimingStep(o: NormalOptions, w: World, a: Action)
    requires Timing(o, w) && LogTiming(w)
    ensures LogTiming(Step(o, w, a))
  {
    match a {
      case TakeLock(t) =>
        if PcOf(w, t).Timed? {
          LogTimingEnter(o, w.(pcs := w.pcs[t := Idle]), PcOf(w, t).now);
        }
      case Load(t) =>
      case _ =>
        assert Step(o, w, a).log == w.log;
    }
  }

  lemma QuotasAdmit(o: NormalOptions, w: World, origin: Origin)
    requires Quotas(o, w)
    requires !origin.Probe?
    ensures Quotas(o, Admit(w, origin))
  {
    forall e: nat
      ensures ProbesOf(Admit(w, origin).log, e) == ProbesOf(w.log, e)
    {
      ProbesOfAdmit(w, origin, e);
    }
  }

  lemma QuotasEnter(o: NormalOptions, w: World, now: int)
    requires CoreInv(o, w.core) && Quotas(o, w)
    requires w.core.state == HalfOpen ==> w.entries != []
    ensures Quotas(o, Enter(o, w, now))
  {
    var (c, ok) := AllowLocked(o, w.core, now);
    var v := Enter(o, w, now);
    var current := |v.entries|;
    if ok {
      var origin := if c.state == Closed then RacedClosed else Probe(current);
      assert v.log == Admit(w, origin).log;
      forall e: nat
        ensures ProbesOf(v.log, e) == ProbesOf(w.log, e) + (if origin == Probe(e) then 1 else 0)
      {
        ProbesOfAdmit(w, origin, e);
      }
    }
    assert ProbesOf(w.log, current) <= Quota(o);
  }

  lemma QuotasStep(o: NormalOptions, w: World, a: Action)
    requires CoreInv(o, w.core) && Quotas(o, w)
    requires w.core.state == HalfOpen ==> w.entries != []
    ensures Quotas(o, Step(o, w, a))
  {
    match a {
      case TakeLock(t) =>
        if PcOf(w, t).Timed? {
          QuotasEnter(o, w.(pcs := w.pcs[t := Idle]), PcOf(w, t).now);
        }
      case Load(t) =>
        if PcOf(w, t) == Idle && w.core.state == Closed {
          QuotasAdmit(o, w, FastPath);
        }
      case _ =>
        assert Step(o, w, a).log == w.log;
    }
  }

  lemma {:induction false} RunInvariants(o: NormalOptions, start: int, run: seq<Action>)
    ensures var w := Exec(o, start, run);
      Timing(o, w) && LogTiming(w) && Quotas(o, w)
  {
    if run != [] {
      var front := run[..|run| - 1];
      var w, a := Exec(o, start, front), run[|run| - 1];
      RunInvariants(o, start, front);
      RunLinearises(o, start, front);
      TimingStep(o, w, a);
      LogTimingStep(o, w, a);
      QuotasStep(o, w, a);
    }
  }

  /** In every run, a half-open entry comes at least the open interval after the one before,
      and no episode admits more than maxInflight + successesToClose - 1 probes. Callbacks
      here may come from anywhere, any number of times. */
  lemma HalfOpenIsThrottled(o: NormalOptions, start: int, run: seq<Action>)
    ensures var w := Exec(o, start, run);
      && (forall i | 0 < i < |w.entries| ::
            w.entries[i].at - w.entries[i - 1].at >= o.openInterval)
      && (forall e: nat {:trigger ProbesOf(w.log, e)} :: ProbesOf(w.log, e) <= Quota(o))
  {
    RunInvariants(o, start, run);
  }

  // ----- Admissions in a time window -----

  ghost function EpisodeBetween(lo: nat, hi: int): Admission -> bool {
    (a: Admission) => a.origin.Probe? && lo <= a.origin.episode <= hi
  }

  ghost function ProbeWithin(from: int, to: int): Admission -> bool {
    (a: Admission) => a.origin.Probe? && from <= a.at <= to
  }

  lemma {:induction false} ProbesBetweenBound(log: seq<Admission>, lo: nat, hi: int, quota: nat)
    requires lo <= hi + 1
    requires forall e: nat {:trigger ProbesOf(log, e)} :: ProbesOf(log, e) <= quota
    ensures Count(log, EpisodeBetween(lo, hi)) <= (hi - lo + 1) * quota
    decreases hi - lo + 1
  {
    if hi < lo {
      CountNone(log, EpisodeBetween(lo, hi));
    } else {
      ProbesBetweenBound(log, lo, hi - 1, quota);
      CountSplit(log, EpisodeBetween(lo, hi - 1), OriginIs(Probe(hi)), EpisodeBetween(lo, hi));
      assert ProbesOf(log, hi) <= quota;
    }
  }

  /** The first episode from e on that had not yet ended before `t`. */
  ghost function FirstLive(entries: seq<Entry>, t: int, e: nat): (r: nat)
    requires e <= |entries|
    ensures e <= r <= |entries|
    ensures forall j | e <= j < r :: entries[j].at < t
    ensures r < |entries| ==> entries[r].at >= t
    decreases |entries| - e
  {
    if e == |entries| || entries[e].at >= t then e else FirstLive(entries, t, e + 1)
  }

  /** The last episode up to e that had begun by `t`. */
  ghost function LastBegun(entries: seq<Entry>, t: int, e: nat): (r: nat)
    requires e <= |entries|
    ensures r <= e
    ensures forall j | r <= j < e :: entries[j].at > t
    ensures r > 0 ==> entries[r - 1].at <= t
  {
    if e == 0 || entries[e - 1].at <= t then e else LastBegun(entries, t, e - 1)
  }

  lemma {:induction false} EntriesSpread(o: NormalOptions, w: World, i: nat, j: nat)
    requires Timing(o, w) && i <= j < |w.entries|
    ensures w.entries[j].at - w.entries[i].at >= (j - i) * o.openInterval
    decreases j - i
  {
    if i < j {
      EntriesSpread(o, w, i, j - 1);
      assert w.entries[j].now - w.entries[j - 1].at >= o.openInterval;
      assert w.entries[j] in w.entries;
      assert (j - i) * o.openInterval == (j - 1 - i) * o.openInterval + o.openInterval;
    }
  }

  lemma ScaleMonotone(a: int, b: int, scale: nat)
    requires a <= b
    ensures a * scale <= b * scale
  {
  }

  lemma ScaleCancel(a: int, b: int, scale: nat)
    requires a * scale < b * scale
    ensures a < b
  {
    if b <= a {
      ScaleMonotone(b, a, scale);
    }
  }

  lemma NextMultiple(span: int, interval: int)
    requires interval > 0
    ensures span < (span / interval + 1) * interval
  {
    assert span == (span / interval) * interval + span % interval;
  }

  /** At most this many episodes are live at some moment of a window shorter than q + 1
      open intervals. */
  lemma LiveEpisodes(o: NormalOptions, w: World, from: int, to: int, q: int)
    requires Timing(o, w) && w.entries != []
    requires o.openInterval > 0 && from <= to
    requires to - from < (q + 1) * o.openInterval
    ensures q >= 0
    ensures LastBegun(w.entries, to, |w.entries|) - FirstLive(w.entries, from, 1) <= q + 1
  {
    ScaleCancel(0, q + 1, o.openInterval);
    var lo := FirstLive(w.entries, from, 1);
    var hi := LastBegun(w.entries, to, |w.entries|);
    if lo < hi {
      EntriesSpread(o, w, lo, hi - 1);
      ScaleCancel(hi - 1 - lo, q + 1, o.openInterval);
    }
  }

  lemma WindowInEpisodes(o: NormalOptions, w: World, from: int, to: int)
    requires LogTiming(w) && w.entries != []
    ensures Count(w.log, ProbeWithin(from, to)) <=
      Count(w.log, EpisodeBetween(FirstLive(w.entries, from, 1), LastBegun(w.entries, to, |w.entries|)))
  {
    var lo := FirstLive(w.entries, from, 1);
    var hi := LastBegun(w.entries, to, |w.entries|);
    forall a <- w.log | ProbeWithin(from, to)(a)
      ensures EpisodeBetween(lo, hi)(a)
    {
      var e := a.origin.episode;
      assert w.entries[e - 1].at <= to;
    }
    CountMonotone(w.log, ProbeWithin(from, to), EpisodeBetween(lo, hi));
  }

  lemma WindowBound(o: NormalOptions, w: World, from: int, to: int, live: nat, quota: nat)
    requires LogTiming(w) && w.entries != []
    requires forall e: nat {:trigger ProbesOf(w.log, e)} :: ProbesOf(w.log, e) <= quota
    requires LastBegun(w.entries, to, |w.entries|) - FirstLive(w.entries, from, 1) < live
    ensures Count(w.log, ProbeWithin(from, to)) <= live * quota
  {
    var lo := FirstLive(w.entries, from, 1);
    var hi := LastBegun(w.entries, to, |w.entries|);
    WindowInEpisodes(o, w, from, to);
    if hi < lo {
      CountNone(w.log, EpisodeBetween(lo, hi));
    } else {
      ProbesBetweenBound(w.log, lo, hi, quota);
      ScaleMonotone(hi - lo + 1, live, quota);
    }
  }

  lemma WorldRateBound(o: NormalOptions, w: World, from: int, to: int, live: int, quota: nat)
    requires Timing(o, w) && LogTiming(w)
    requires forall e: nat {:trigger ProbesOf(w.log, e)} :: ProbesOf(w.log, e) <= quota
    requires o.openInterval > 0 && from <= to
    requires to - from < (live - 1) * o.openInterval
    ensures Count(w.log, ProbeWithin(from, to)) <= live * quota
  {
    if w.entries == [] {
      CountNone(w.log, ProbeWithin(from, to));
      ScaleCancel(0, live - 1, o.openInterval);
      ScaleMonotone(0, live, quota);
    } else {
      LiveEpisodes(o, w, from, to, live - 2);
      WindowBound(o, w, from, to, live, quota);
    }
  }

  /** In any time window the breaker lets through at most one quota of probes for each
      half-open entry that fits in the window, and one more for an episode already running. */
  lemma HalfOpenRateBound(o: NormalOptions, start: int, run: seq<Action>, from: int, to: int)
    requires o.openInterval > 0 && from <= to
    ensures Count(Exec(o, start, run).log, ProbeWithin(from, to))
         <= ((to - from) / o.openInterval + 2) * Quota(o)
  {
    RunInvariants(o, start, run);
    NextMultiple(to - from, o.openInterval);
    WorldRateBound(o, Exec(o, start, run), from, to, (to - from) / o.openInterval + 2, Quota(o));
  }

  // ----- Callers that lose the race with a close -----

  /** Locked-path admissions since the breaker last closed. */
  ghost function Racers(w: World): nat
    requires w.closeMark <= |w.log|
  {
    Count(w.log[w.closeMark..], OriginIs(RacedClosed))
  }

  ghost predicate RacersCounted(w: World) {
    && w.closeMark <= |w.log|
    && (w.core.state == Closed ==> w.core.inflight == Racers(w))
  }

  lemma RacersAdmit(w: World, origin: Origin)
    requires w.closeMark <= |w.log|
    ensures Racers(Admit(w, origin)) == Racers(w) + (if origin == RacedClosed then 1 else 0)
  {
    var x := Admission(origin, w.clock);
    assert (w.log + [x])[w.closeMark..] == w.log[w.closeMark..] + [x];
    CountSnoc(w.log[w.closeMark..], x, OriginIs(RacedClosed));
  }

  lemma RacersEnter(o: NormalOptions, w: World, now: int)
    requires CoreInv(o, w.core) && RacersCounted(w)
    ensures RacersCounted(Enter(o, w, now))
  {
    if w.core.state == Closed && w.core.inflight < o.maxInflight {
      RacersAdmit(w, RacedClosed);
      assert Enter(o, w, now).log == Admit(w, RacedClosed).log;
    }
  }

  lemma RacersStep(o: NormalOptions, w: World, a: Action)
    requires CoreInv(o, w.core) && RacersCounted(w)
    ensures RacersCounted(Step(o, w, a))
  {
    match a {
      case TakeLock(t) =>
        if PcOf(w, t).Timed? {
          RacersEnter(o, w.(pcs := w.pcs[t := Idle]), PcOf(w, t).now);
        }
      case Load(t) =>
        if PcOf(w, t) == Idle && w.core.state == Closed {
          RacersAdmit(w, FastPath);
        }
      case _ =>
        assert Step(o, w, a).log == w.log;
    }
  }

  lemma {:induction false} RacersAreCounted(o: NormalOptions, start: int, run: seq<Action>)
    ensures RacersCounted(Exec(o, start, run))
  {
    if run != [] {
      var front := run[..|run| - 1];
      RacersAreCounted(o, start, front);
      RunLinearises(o, start, front);
      RacersStep(o, Exec(o, start, front), run[|run| - 1]);
    }
  }

  /** The in-flight counter stays within its maximum in every state, and a caller that finds
      the breaker closed under the lock is refused exactly when maxInflight other callers lost
      the same race since the breaker closed. */
  lemma RefusedByClosedBreaker(o: NormalOptions, start: int, run: seq<Action>, t: nat)
    requires PcOf(Exec(o, start, run), t).Timed?
    requires Exec(o, start, run).core.state == Closed
    ensures var w := Exec(o, start, run);
      && w.closeMark <= |w.log|
      && Racers(w) <= o.maxInflight
      && (Step(o, w, TakeLock(t)).log == w.log <==> Racers(w) == o.maxInflight)
  {
    RacersAreCounted(o, start, run);
    RunLinearises(o, start, run);
  }

  // ----- Probe accounting -----

  /** Every callback comes from an admitted call that has not reported before. */
  ghost predicate ReportsOnce(o: NormalOptions, start: int, run: seq<Action>) {
    run == [] ||
    var front, a := run[..|run| - 1], run[|run| - 1];
    && ReportsOnce(o, start, front)
    && (a.ReportSuccess? || a.ReportFailure? ==> a.id in Exec(o, start, front).out)
  }

  /** Probes of the current episode that have not reported. */
  ghost function Outstanding(w: World): set<nat> {
    set id | id in w.out && CurrentProbe(w, id)
  }

  /** Every callback that a half-open episode survives is a success, the stale ones too. */
  ghost predicate Accounted(w: World) {
    && (forall id <- w.out :: id < |w.log|)
    && (w.core.state == HalfOpen ==>
          && w.core.inflight <= |Outstanding(w)| <= w.core.inflight + w.stale
          && w.stale <= w.core.successes)
  }

  lemma OutstandingCallback(o: NormalOptions, w: World, id: nat, e: Event)
    requires id in w.out && !e.Lock?
    ensures var v := Callback(o, w, id, e);
      |Outstanding(v)| == |Outstanding(w)| - (if CurrentProbe(w, id) then 1 else 0)
  {
    assert Outstanding(Callback(o, w, id, e)) == Outstanding(w) - {id};
  }

  lemma OutstandingAdmit(w: World, origin: Origin)
    requires forall id <- w.out :: id < |w.log|
    ensures |Outstanding(Admit(w, origin))|
         == |Outstanding(w)| + (if origin == Probe(|w.entries|) then 1 else 0)
  {
    var v := Admit(w, origin);
    assert forall id: nat | id < |w.log| :: v.log[id] == w.log[id];
    if origin == Probe(|w.entries|) {
      assert Outstanding(v) == Outstanding(w) + {|w.log|};
    } else {
      assert Outstanding(v) == Outstanding(w);
    }
  }

  lemma OutstandingNewEpisode(w: World, entry: Entry)
    requires forall a <- w.log :: a.origin.Probe? ==> a.origin.episode <= |w.entries|
    ensures Outstanding(w.(entries := w.entries + [entry])) == {}
  {
    var v := w.(entries := w.entries + [entry]);
    forall id | id in w.out
      ensures !CurrentProbe(v, id)
    {
      if id < |w.log| {
        assert w.log[id] in w.log;
      }
    }
  }

  lemma AccountedEnter(o: NormalOptions, w: World, now: int)
    requires CoreInv(o, w.core) && LogTiming(w) && Accounted(w)
    ensures Accounted(Enter(o, w, now))
  {
    var (c, ok) := AllowLocked(o, w.core, now);
    var entering := w.core.state == Open && c.state == HalfOpen;
    var u := if entering then w.(entries := w.entries + [Entry(now, w.clock)]) else w;
    if entering {
      OutstandingNewEpisode(w, Entry(now, w.clock));
    }
    var v := Enter(o, w, now);
    if ok {
      var origin := if c.state == Closed then RacedClosed else Probe(|u.entries|);
      OutstandingAdmit(u, origin);
      assert Outstanding(v) == Outstanding(Admit(u, origin));
    } else {
      assert Outstanding(v) == Outstanding(u);
    }
  }

  lemma AccountedCallback(o: NormalOptions, w: World, id: nat, e: Event)
    requires CoreInv(o, w.core) && Accounted(w) && id in w.out && !e.Lock?
    ensures Accounted(Callback(o, w, id, e))
  {
    OutstandingCallback(o, w, id, e);
    if CurrentProbe(w, id) {
      assert id in Outstanding(w);
    }
  }

  lemma AccountedStep(o: NormalOptions, w: World, a: Action)
    requires CoreInv(o, w.core) && LogTiming(w) && Accounted(w)
    requires a.ReportSuccess? || a.ReportFailure? ==> a.id in w.out
    ensures Accounted(Step(o, w, a))
  {
    match a {
      case TakeLock(t) =>
        if PcOf(w, t).Timed? {
          var u := w.(pcs := w.pcs[t := Idle]);
          assert Outstanding(u) == Outstanding(w);
          AccountedEnter(o, u, PcOf(w, t).now);
        }
      case Load(t) =>
        if w.core.state != Closed {
          assert Outstanding(Step(o, w, a)) == Outstanding(w);
        }
      case ReportSuccess(id) => AccountedCallback(o, w, id, Success);
      case ReportFailure(id) => AccountedCallback(o, w, id, Failure(w.clock));
      case _ =>
        assert Outstanding(Step(o, w, a)) == Outstanding(w);
    }
  }

  lemma {:induction false} ProbeAccounting(o: NormalOptions, start: int, run: seq<Action>)
    requires ReportsOnce(o, start, run)
    ensures Accounted(Exec(o, start, run))
  {
    if run != [] {
      var front := run[..|run| - 1];
      ProbeAccounting(o, start, front);
      RunLinearises(o, start, front);
      RunInvariants(o, start, front);
      AccountedStep(o, Exec(o, start, front), run[|run| - 1]);
    }
  }

  lemma {:induction false} PositionsCounted(log: seq<Admission>, ids: set<nat>, p: Admission -> bool)
    requires forall id <- ids :: id < |log| && p(log[id])
    ensures |ids| <= Count(log, p)
    decreases |log|
  {
    if log == [] {
      assert ids == {};
    } else {
      var last := |log| - 1;
      var rest := ids - {last};
      PositionsCounted(log[..last], rest, p);
      if last in ids {
        assert ids == rest + {last};
      } else {
        assert ids == rest;
      }
    }
  }

  lemma ProbesAreLogged(w: World)
    ensures |Outstanding(w)| <= ProbesOf(w.log, |w.entries|)
  {
    PositionsCounted(w.log, Outstanding(w), OriginIs(Probe(|w.entries|)));
  }

  /** However callbacks arrive, no more probes of one episode are out than its quota. */
  lemma OutstandingWithinQuota(o: NormalOptions, start: int, run: seq<Action>)
    ensures |Outstanding(Exec(o, start, run))| <= Quota(o)
  {
    ProbesAreLogged(Exec(o, start, run));
    HalfOpenIsThrottled(o, start, run);
  }

  /** A refusal by a half-open breaker means that maxInflight probes of this episode really
      are out; without stale callbacks the counter is their exact number, so a refusal happens
      exactly then. */
  lemma HalfOpenRefusal(o: NormalOptions, start: int, run: seq<Action>, t: nat)
    requires ReportsOnce(o, start, run)
    requires PcOf(Exec(o, start, run), t).Timed?
    requires Exec(o, start, run).core.state == HalfOpen
    ensures var w := Exec(o, start, run);
      var refused := Step(o, w, TakeLock(t)).log == w.log;
      && (refused ==> |Outstanding(w)| >= o.maxInflight)
      && (|Outstanding(w)| >= o.maxInflight + w.stale ==> refused)
      && (w.stale == 0 ==> w.core.inflight == |Outstanding(w)|)
  {
    ProbeAccounting(o, start, run);
    RunLinearises(o, start, run);
  }
}
