/** The circuit breaker of src/resilience/circuit_breaker.cpp.

    The four critical sections are first written as functions on the five guarded fields,
    so that the interleaving model (BreakerRuns) and the reference machine (BreakerHistory)
    can speak about them; the class below has the real fields and is proved against them. */
module Breaker {

  type uint32 = x: int | 0 <= x < 0x1_0000_0000

  /** `++x` on a std::uint32_t. */
  function Inc32(x: uint32): uint32 {
    (x + 1) % 0x1_0000_0000
  }

  datatype CircuitState = Closed | Open | HalfOpen

  datatype Options = Options(
    failuresToOpen: uint32,
    openInterval: int,
    maxInflight: uint32,
    successesToClose: uint32)

  predicate IsNormal(o: Options) {
    o.failuresToOpen > 0 && o.maxInflight > 0 && o.successesToClose > 0
  }

  /** Options as the constructor leaves them. */
  type NormalOptions = o: Options | IsNormal(o) witness Options(1, 0, 1, 1)

  function AtLeastOne(x: uint32): uint32 {
    if x == 0 then 1 else x
  }

  function Normalise(raw: Options): (o: NormalOptions)
    ensures o.openInterval == raw.openInterval
    ensures if raw.failuresToOpen == 0 then o.failuresToOpen == 1 else o.failuresToOpen == raw.failuresToOpen
    ensures if raw.maxInflight == 0 then o.maxInflight == 1 else o.maxInflight == raw.maxInflight
    ensures if raw.successesToClose == 0 then o.successesToClose == 1 else o.successesToClose == raw.successesToClose
  {
    Options(AtLeastOne(raw.failuresToOpen), raw.openInterval,
            AtLeastOne(raw.maxInflight), AtLeastOne(raw.successesToClose))
  }

  /** The fields guarded by `mu_`. Times are integers on the steady clock. */
  datatype Core = Core(
    state: CircuitState,
    failures: uint32,
    successes: uint32,
    openedAt: int,
    inflight: uint32)

  const INITIAL := Core(Closed, 0, 0, 0, 0)

  function TryHalfOpen(o: NormalOptions, c: Core, now: int): Core {
    if c.state != Open then c
    else if now - c.openedAt < o.openInterval then c
    else Core(HalfOpen, 0, 0, c.openedAt, 0)
  }

  /** The part of AllowRequest that runs under the lock. The state found there need not be
      the state that the earlier unlocked load saw: it can even be Closed. */
  function AllowLocked(o: NormalOptions, c: Core, now: int): (Core, bool) {
    var d := TryHalfOpen(o, c, now);
    if d.state == Open then (d, false)
    else if d.inflight >= o.maxInflight then (d, false)
    else (d.(inflight := Inc32(d.inflight)), true)
  }

  function Succeed(o: NormalOptions, c: Core): Core {
    match c.state
    case Closed => c.(failures := 0)
    case HalfOpen =>
      var inflight := if c.inflight > 0 then c.inflight - 1 else c.inflight;
      var successes := Inc32(c.successes);
      if successes >= o.successesToClose then Core(Closed, 0, 0, c.openedAt, 0)
      else c.(inflight := inflight, successes := successes)
    case Open => c
  }

  function Fail(o: NormalOptions, c: Core, now: int): Core {
    match c.state
    case Closed =>
      var failures := Inc32(c.failures);
      if failures >= o.failuresToOpen
      then c.(state := Open, failures := failures, openedAt := now, successes := 0)
      else c.(failures := failures)
    case HalfOpen => Core(Open, 0, 0, now, 0)
    case Open => c
  }

  /** One critical section, with the clock value it uses. The order in which callers hold
      the lock is the linearised history. */
  datatype Event = Lock(now: int) | Success | Failure(now: int)

  function Apply(o: NormalOptions, c: Core, e: Event): Core {
    match e
    case Lock(now) => AllowLocked(o, c, now).0
    case Success => Succeed(o, c)
    case Failure(now) => Fail(o, c, now)
  }

  function Replay(o: NormalOptions, h: seq<Event>): Core {
    if h == [] then INITIAL
    else Apply(o, Replay(o, h[..|h| - 1]), h[|h| - 1])
  }

  lemma ReplaySnoc(o: NormalOptions, h: seq<Event>, e: Event)
    ensures Replay(o, h + [e]) == Apply(o, Replay(o, h), e)
  {
    assert (h + [e])[..|h|] == h;
  }

  /** What every critical section keeps. The strict bounds also say that no 32-bit counter
      ever wraps: each `++` starts below an option value. */
  ghost predicate CoreInv(o: NormalOptions, c: Core) {
    && c.inflight <= o.maxInflight
    && (c.state == Closed ==> c.failures < o.failuresToOpen)
    && (c.state == HalfOpen ==> c.failures == 0)
    && (c.successes > 0 ==> c.state == HalfOpen && c.successes < o.successesToClose)
  }

  lemma {:induction false} CoreInvHolds(o: NormalOptions, h: seq<Event>)
    ensures CoreInv(o, Replay(o, h))
  {
    if h != [] {
      CoreInvHolds(o, h[..|h| - 1]);
    }
  }

  /** No critical section entered while the breaker was closed: what remains when the
      unlocked load and the locked part of AllowRequest are one atomic step. */
  ghost predicate AtomicHistory(o: NormalOptions, h: seq<Event>) {
    forall i | 0 <= i < |h| && h[i].Lock? :: Replay(o, h[..i]).state != Closed
  }

  /** Without racing callers a closed breaker has no half-open residue, so its lock would
      never refuse. */
  lemma {:induction false} ClosedAtomicNeverRefuses(o: NormalOptions, h: seq<Event>, now: int)
    requires AtomicHistory(o, h)
    requires Replay(o, h).state == Closed
    ensures Replay(o, h).inflight == 0
    ensures AllowLocked(o, Replay(o, h), now).1
  {
    if h != [] {
      var front := h[..|h| - 1];
      assert forall i | 0 <= i < |front| :: front[..i] == h[..i];
      assert h[..|h| - 1] == front;
      CoreInvHolds(o, front);
      if Replay(o, front).state == Closed {
        ClosedAtomicNeverRefuses(o, front, now);
      }
    }
  }

  class CircuitBreaker {
    const opts: NormalOptions
    var state: CircuitState
    var consecutiveFailures: uint32
    var consecutiveSuccesses: uint32
    var openedAt: int
    var halfOpenInflight: uint32
    ghost var history: seq<Event>

    ghost function Fields(): Core
      reads this
    {
      Core(state, consecutiveFailures, consecutiveSuccesses, openedAt, halfOpenInflight)
    }

    /** The fields are exactly what the linearised history produces. */
    ghost predicate Valid()
      reads this
    {
      Fields() == Replay(opts, history)
    }

    constructor (raw: Options)
      ensures Valid() && history == []
      ensures opts == Normalise(raw)
    {
      var f, m, s := raw.failuresToOpen, raw.maxInflight, raw.successesToClose;
      if f == 0 {
        f := 1;
      }
      if m == 0 {
        m := 1;
      }
      if s == 0 {
        s := 1;
      }
      opts := Options(f, raw.openInterval, m, s);
      state, consecutiveFailures, consecutiveSuccesses := Closed, 0, 0;
      openedAt, halfOpenInflight := 0, 0;
      history := [];
    }

    method TryTransitionToHalfOpenLocked(now: int)
      modifies this
      ensures Fields() == TryHalfOpen(opts, old(Fields()), now)
      ensures history == old(history)
    {
      if state != Open {
        return;
      }
      if now - openedAt < opts.openInterval {
        return;
      }
      state := HalfOpen;
      consecutiveFailures := 0;
      consecutiveSuccesses := 0;
      halfOpenInflight := 0;
    }

    /** AllowRequest from the lock acquisition on, for a caller that sampled `now` before. */
    method AllowRequestLocked(now: int) returns (ok: bool)
      requires Valid()
      modifies this
      ensures Valid() && history == old(history) + [Lock(now)]
      ensures ok == AllowLocked(opts, old(Fields()), now).1
      ensures ok ==> state != Open && halfOpenInflight <= opts.maxInflight
      ensures !ok ==> state == Open || halfOpenInflight == opts.maxInflight
    {
      ReplaySnoc(opts, history, Lock(now));
      CoreInvHolds(opts, history);
      history := history + [Lock(now)];
      TryTransitionToHalfOpenLocked(now);
      if state == Open {
        return false;
      }
      if halfOpenInflight >= opts.maxInflight {
        return false;
      }
      halfOpenInflight := Inc32(halfOpenInflight);
      return true;
    }

    /** AllowRequest run without interference between its load and its lock. */
    method AllowRequest(now: int) returns (ok: bool)
      requires Valid()
      modifies this
      ensures Valid()
      ensures old(state) == Closed ==> ok && history == old(history) && Fields() == old(Fields())
      ensures old(state) != Closed ==>
                history == old(history) + [Lock(now)] && ok == AllowLocked(opts, old(Fields()), now).1
    {
      var st := state;
      if st == Closed {
        return true;
      }
      ok := AllowRequestLocked(now);
    }

    method OnSuccess()
      requires Valid()
      modifies this
      ensures Valid() && history == old(history) + [Success]
    {
      ReplaySnoc(opts, history, Success);
      history := history + [Success];
      if state == Closed {
        consecutiveFailures := 0;
        return;
      }
      if state == HalfOpen {
        if halfOpenInflight > 0 {
          halfOpenInflight := halfOpenInflight - 1;
        }
        consecutiveSuccesses := Inc32(consecutiveSuccesses);
        if consecutiveSuccesses >= opts.successesToClose {
          state := Closed;
          consecutiveFailures := 0;
          consecutiveSuccesses := 0;
          halfOpenInflight := 0;
        }
        return;
      }
    }

    /** `now` is the clock as read inside the critical section. */
    method OnFailure(now: int)
      requires Valid()
      modifies this
      ensures Valid() && history == old(history) + [Failure(now)]
    {
      ReplaySnoc(opts, history, Failure(now));
      history := history + [Failure(now)];
      if state == Closed {
        consecutiveFailures := Inc32(consecutiveFailures);
        if consecutiveFailures >= opts.failuresToOpen {
          state := Open;
          openedAt := now;
          consecutiveSuccesses := 0;
        }
        return;
      }
      if state == HalfOpen {
        if halfOpenInflight > 0 {
          halfOpenInflight := halfOpenInflight - 1;
        }
        state := Open;
        openedAt := now;
        consecutiveFailures := 0;
        consecutiveSuccesses := 0;
        halfOpenInflight := 0;
        return;
      }
    }
  }
}
