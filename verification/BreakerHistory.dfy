/** A counter-free account of the breaker: what the linearised history of critical sections
    means, told by looking back at the callbacks themselves. */
module BreakerHistory {
  import opened Breaker

  /** Which phase a history has led to, with the callbacks received since it began. */
  datatype Phase =
    | InClosed(seen: seq<Event>)
    | InOpen(since: int)
    | InHalfOpen(seen: seq<Event>)

  /** The last n callbacks exist and are all failures. */
  ghost predicate EndsInFailures(seen: seq<Event>, n: nat) {
    && n <= |seen|
    && forall i | |seen| - n <= i < |seen| :: seen[i].Failure?
  }

  ghost function Next(o: NormalOptions, p: Phase, e: Event): Phase {
    match p
    case InClosed(seen) =>
      if e.Lock? then p
      else if e.Failure? && EndsInFailures(seen + [e], o.failuresToOpen) then InOpen(e.now)
      else InClosed(seen + [e])
    case InOpen(since) =>
      if e.Lock? && e.now - since >= o.openInterval then InHalfOpen([]) else p
    case InHalfOpen(seen) =>
      match e {
        case Lock(_) => p
        case Failure(now) => InOpen(now)
        case Success =>
          if |seen| + 1 == o.successesToClose then InClosed([]) else InHalfOpen(seen + [e])
      }
  }

  ghost function PhaseAfter(o: NormalOptions, h: seq<Event>): Phase {
    if h == [] then InClosed([])
    else Next(o, PhaseAfter(o, h[..|h| - 1]), h[|h| - 1])
  }

  ghost predicate Agree(o: NormalOptions, c: Core, p: Phase) {
    match p
    case InClosed(seen) =>
      && c.state == Closed
      && EndsInFailures(seen, c.failures)
      && !EndsInFailures(seen, c.failures + 1)
    case InOpen(since) => c.state == Open && c.openedAt == since
    case InHalfOpen(seen) =>
      && c.state == HalfOpen
      && c.successes == |seen|
      && (forall e <- seen :: e.Success?)
  }

  lemma AgreeStep(o: NormalOptions, c: Core, p: Phase, e: Event)
    requires CoreInv(o, c) && Agree(o, c, p)
    ensures Agree(o, Apply(o, c, e), Next(o, p, e))
  {
    if p.InClosed? && e.Failure? {
      var seen := p.seen + [e];
      var n: nat := c.failures;
      assert EndsInFailures(seen, n + 1) by {
        forall i | |seen| - (n + 1) <= i < |seen|
          ensures seen[i].Failure?
        {
          if i < |p.seen| {
            assert seen[i] == p.seen[i];
          }
        }
      }
      if EndsInFailures(seen, n + 2) {
        forall i | |p.seen| - (n + 1) <= i < |p.seen|
          ensures p.seen[i].Failure?
        {
          assert seen[i] == p.seen[i];
        }
        assert false;
      }
    } else if p.InClosed? && e.Success? {
      var seen := p.seen + [e];
      assert !seen[|seen| - 1].Failure?;
    }
  }

  /** The state, the failure counter while closed, the opening time while open and the success
      counter while half-open are determined by the history through the counter-free machine.
      The in-flight counter, which decides admissions but no transition, is not part of this. */
  lemma {:induction false} StateIsFunctionOfHistory(o: NormalOptions, h: seq<Event>)
    ensures Agree(o, Replay(o, h), PhaseAfter(o, h))
  {
    if h != [] {
      var front, e := h[..|h| - 1], h[|h| - 1];
      StateIsFunctionOfHistory(o, front);
      CoreInvHolds(o, front);
      AgreeStep(o, Replay(o, front), PhaseAfter(o, front), e);
    }
  }

  /** When each transition happens: in both directions, for every history and next event. */
  lemma ExactTransitions(o: NormalOptions, h: seq<Event>, e: Event)
    ensures var c, d := Replay(o, h), Replay(o, h + [e]);
      match PhaseAfter(o, h)
      case InClosed(seen) =>
        && c.state == Closed && d.state != HalfOpen
        && (d.state == Open <==> e.Failure? && EndsInFailures(seen + [e], o.failuresToOpen))
      case InOpen(since) =>
        && c.state == Open && d.state != Closed
        && (d.state == HalfOpen <==> e.Lock? && e.now - since >= o.openInterval)
      case InHalfOpen(seen) =>
        && c.state == HalfOpen && (forall x <- seen :: x.Success?)
        && (d.state == Closed <==> e.Success? && |seen| + 1 == o.successesToClose)
        && (d.state == Open <==> e.Failure?)
  {
    StateIsFunctionOfHistory(o, h);
    StateIsFunctionOfHistory(o, h + [e]);
    assert (h + [e])[..|h|] == h;
  }
}
