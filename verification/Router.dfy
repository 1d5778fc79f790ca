/** The router's middleware chain, src/http/router.cpp. A middleware is a finite script of
    effects and synchronous calls of its `next`; all the `next`s of one request share one
    mutable index, so a second call does not run the same inner chain again. */
module Router {
  import opened Counting
  import opened Text

  datatype Action = Effect(tag: string) | Next

  type Script = seq<Action>

  datatype Trace = Enter(middleware: nat) | Did(middleware: nat, tag: string) | Handler(name: string)

  function NextCalls(s: Script): nat {
    if s == [] then 0 else (if s[0].Next? then 1 else 0) + NextCalls(s[1..])
  }

  // ----- The chain as a function: (index, trace) to (index, trace) -----

  datatype Chain = Chain(idx: nat, trace: seq<Trace>)

  /** One call of the shared closure `run`, with h the route's handler. */
  function Run(mws: seq<Script>, h: string, c: Chain): (d: Chain)
    requires c.idx <= |mws|
    ensures c.idx <= d.idx <= |mws|
    ensures c.idx < |mws| ==> c.idx < d.idx
    decreases |mws| - c.idx, 0
  {
    if c.idx < |mws| then
      Interpret(mws, h, c.idx, mws[c.idx], Chain(c.idx + 1, c.trace + [Enter(c.idx)]))
    else Chain(c.idx, c.trace + [Handler(h)])
  }

  function Interpret(mws: seq<Script>, h: string, mw: nat, s: Script, c: Chain): (d: Chain)
    requires c.idx <= |mws|
    ensures c.idx <= d.idx <= |mws|
    decreases |mws| - c.idx, 1 + |s|
  {
    if s == [] then c
    else
      match s[0]
      case Effect(tag) => Interpret(mws, h, mw, s[1..], Chain(c.idx, c.trace + [Did(mw, tag)]))
      case Next => Interpret(mws, h, mw, s[1..], Run(mws, h, c))
  }

  // ----- Which middlewares run, and how often the handler does -----

  ghost function IsHandler(): Trace -> bool {
    (x: Trace) => x.Handler?
  }

  ghost function Handlers(trace: seq<Trace>): nat {
    Count(trace, IsHandler())
  }

  /** The middlewares entered, in order. */
  function Entered(trace: seq<Trace>): seq<nat> {
    if trace == [] then []
    else
      var last := trace[|trace| - 1];
      Entered(trace[..|trace| - 1]) + (if last.Enter? then [last.middleware] else [])
  }

  /** The first n naturals. */
  function Upto(n: nat): seq<nat> {
    seq(n, i => i)
  }

  /** `next` calls in the scripts of middlewares from (inclusive) to upto (exclusive). */
  function CallsBetween(mws: seq<Script>, start: nat, end: nat): nat
    requires start <= end <= |mws|
    decreases end
  {
    if start == end then 0 else CallsBetween(mws, start, end - 1) + NextCalls(mws[end - 1])
  }

  lemma TraceSnoc(trace: seq<Trace>, x: Trace)
    ensures Handlers(trace + [x]) == Handlers(trace) + (if x.Handler? then 1 else 0)
    ensures Entered(trace + [x]) == Entered(trace) + (if x.Enter? then [x.middleware] else [])
  {
    CountSnoc(trace, x, IsHandler());
    assert (trace + [x])[..|trace|] == trace;
  }

  lemma {:induction false} CallsConcat(mws: seq<Script>, a: nat, b: nat, c: nat)
    requires a <= b <= c <= |mws|
    ensures CallsBetween(mws, a, c) == CallsBetween(mws, a, b) + CallsBetween(mws, b, c)
    decreases c
  {
    if b < c {
      CallsConcat(mws, a, b, c - 1);
    }
  }

  /** The middlewares entered so far are the first idx of them, each once, in order. */
  ghost predicate PrefixEntered(c: Chain) {
    Entered(c.trace) == Upto(c.idx)
  }

  /** No handler but this one ran. */
  ghost predicate OnlyHandler(trace: seq<Trace>, h: string) {
    forall x <- trace :: x.Handler? ==> x.name == h
  }

  /** Every call of `run` either enters a new middleware or reaches the handler: handler calls,
      plus middlewares entered, are the calls made: one from outside and those that the entered
      scripts make. */
  lemma {:induction false} RunAccounting(mws: seq<Script>, h: string, c: Chain)
    requires c.idx <= |mws| && PrefixEntered(c)
    ensures var d := Run(mws, h, c);
      && PrefixEntered(d)
      && Handlers(d.trace) + (d.idx - c.idx)
      == Handlers(c.trace) + 1 + CallsBetween(mws, c.idx, d.idx)
      && (Handlers(d.trace) > Handlers(c.trace) ==> d.idx == |mws|)
      && (OnlyHandler(c.trace, h) ==> OnlyHandler(d.trace, h))
    decreases |mws| - c.idx, 0
  {
    if c.idx < |mws| {
      var s := mws[c.idx];
      TraceSnoc(c.trace, Enter(c.idx));
      assert Upto(c.idx + 1) == Upto(c.idx) + [c.idx];
      var e := Chain(c.idx + 1, c.trace + [Enter(c.idx)]);
      InterpretAccounting(mws, h, c.idx, s, e);
      CallsConcat(mws, c.idx, c.idx + 1, Run(mws, h, c).idx);
    } else {
      TraceSnoc(c.trace, Handler(h));
    }
  }

  lemma {:induction false} InterpretAccounting(mws: seq<Script>, h: string, mw: nat, s: Script, c: Chain)
    requires c.idx <= |mws| && PrefixEntered(c)
    ensures var d := Interpret(mws, h, mw, s, c);
      && PrefixEntered(d)
      && Handlers(d.trace) + (d.idx - c.idx)
      == Handlers(c.trace) + NextCalls(s) + CallsBetween(mws, c.idx, d.idx)
      && (Handlers(d.trace) > Handlers(c.trace) ==> d.idx == |mws|)
      && (OnlyHandler(c.trace, h) ==> OnlyHandler(d.trace, h))
    decreases |mws| - c.idx, 1 + |s|
  {
    if s != [] {
      match s[0] {
        case Effect(tag) =>
          TraceSnoc(c.trace, Did(mw, tag));
          InterpretAccounting(mws, h, mw, s[1..], Chain(c.idx, c.trace + [Did(mw, tag)]));
        case Next =>
          RunAccounting(mws, h, c);
          var r := Run(mws, h, c);
          InterpretAccounting(mws, h, mw, s[1..], r);
          CallsConcat(mws, c.idx, r.idx, Interpret(mws, h, mw, s, c).idx);
      }
    }
  }

  // ----- How far the chain gets, read off the scripts alone -----

  /** With `pending` calls of `run` still to be made and middlewares from j on not yet entered:
      how many middlewares are entered in the end, and how many calls are then left over. */
  function Reach(mws: seq<Script>, j: nat, pending: nat): (r: (nat, nat))
    requires j <= |mws|
    ensures j <= r.0 <= |mws|
    decreases |mws| - j
  {
    if pending == 0 || j == |mws| then (j, pending)
    else Reach(mws, j + 1, pending - 1 + NextCalls(mws[j]))
  }

  /** Reach splits: first serve some of the pending calls, then the rest. */
  lemma {:induction false} ReachSplits(mws: seq<Script>, j: nat, first: nat, later: nat)
    requires j <= |mws|
    ensures var (k, left) := Reach(mws, j, first);
      Reach(mws, j, first + later) == Reach(mws, k, left + later)
    decreases |mws| - j
  {
    if first > 0 && j < |mws| {
      ReachSplits(mws, j + 1, first - 1 + NextCalls(mws[j]), later);
    }
  }

  lemma {:induction false} RunReaches(mws: seq<Script>, h: string, c: Chain)
    requires c.idx <= |mws|
    ensures var d := Run(mws, h, c);
      var (k, left) := Reach(mws, c.idx, 1);
      d.idx == k && Handlers(d.trace) == Handlers(c.trace) + left
    decreases |mws| - c.idx, 0
  {
    if c.idx < |mws| {
      TraceSnoc(c.trace, Enter(c.idx));
      InterpretReaches(mws, h, c.idx, mws[c.idx], Chain(c.idx + 1, c.trace + [Enter(c.idx)]));
    } else {
      TraceSnoc(c.trace, Handler(h));
    }
  }

  lemma {:induction false} InterpretReaches(mws: seq<Script>, h: string, mw: nat, s: Script, c: Chain)
    requires c.idx <= |mws|
    ensures var d := Interpret(mws, h, mw, s, c);
      var (k, left) := Reach(mws, c.idx, NextCalls(s));
      d.idx == k && Handlers(d.trace) == Handlers(c.trace) + left
    decreases |mws| - c.idx, 1 + |s|
  {
    if s != [] {
      match s[0] {
        case Effect(tag) =>
          TraceSnoc(c.trace, Did(mw, tag));
          InterpretReaches(mws, h, mw, s[1..], Chain(c.idx, c.trace + [Did(mw, tag)]));
        case Next =>
          RunReaches(mws, h, c);
          var r := Run(mws, h, c);
          InterpretReaches(mws, h, mw, s[1..], r);
          var (k, left) := Reach(mws, c.idx, 1);
          ReachSplits(mws, c.idx, 1, NextCalls(s[1..]));
          ReachLeft(mws, c.idx, 1);
          ReachAdd(mws, k, left, NextCalls(s[1..]));
      }
    }
  }

  /** Calls are left over only at the end of the list. */
  lemma {:induction false} ReachLeft(mws: seq<Script>, j: nat, pending: nat)
    requires j <= |mws|
    ensures Reach(mws, j, pending).1 > 0 ==> Reach(mws, j, pending).0 == |mws|
    decreases |mws| - j
  {
    if pending > 0 && j < |mws| {
      ReachLeft(mws, j + 1, pending - 1 + NextCalls(mws[j]));
    }
  }

  lemma ReachAdd(mws: seq<Script>, k: nat, left: nat, more: nat)
    requires k <= |mws| && (left > 0 ==> k == |mws|)
    ensures Reach(mws, k, left + more).0 == Reach(mws, k, more).0
    ensures Reach(mws, k, left + more).1 == left + Reach(mws, k, more).1
  {
  }

  /** For arbitrary scripts: what one request enters and how often it reaches the handler. */
  lemma ChainMeaning(mws: seq<Script>, h: string)
    ensures var d := Run(mws, h, Chain(0, []));
      && Entered(d.trace) == Upto(d.idx)
      && Handlers(d.trace) + d.idx == 1 + CallsBetween(mws, 0, d.idx)
      && (Handlers(d.trace) > 0 ==> d.idx == |mws|)
      && OnlyHandler(d.trace, h)
  {
    assert PrefixEntered(Chain(0, []));
    RunAccounting(mws, h, Chain(0, []));
  }

  /** The same from the scripts' `next` counts alone. */
  lemma ChainReach(mws: seq<Script>, h: string)
    ensures var d := Run(mws, h, Chain(0, []));
      d.idx == Reach(mws, 0, 1).0 && Handlers(d.trace) == Reach(mws, 0, 1).1
  {
    RunReaches(mws, h, Chain(0, []));
  }

  // ----- The onion -----

  /** The trace of a script with at most one `next` call, which stands for `inner`. */
  function Wrap(mw: nat, s: Script, inner: seq<Trace>): seq<Trace> {
    if s == [] then []
    else
      (match s[0]
       case Effect(tag) => [Did(mw, tag)]
       case Next => inner)
      + Wrap(mw, s[1..], inner)
  }

  /** Nested composition: each middleware around everything after it, the handler inside. A
      middleware without `next` has nothing inside, so the onion is cut there. */
  function Onion(mws: seq<Script>, h: string, i: nat): seq<Trace>
    requires i <= |mws|
    decreases |mws| - i
  {
    if i == |mws| then [Handler(h)] else [Enter(i)] + Wrap(i, mws[i], Onion(mws, h, i + 1))
  }

  /** How many middlewares are entered: up to and including the first without `next`. */
  function Depth(mws: seq<Script>, i: nat): (d: nat)
    requires i <= |mws|
    ensures i <= d <= |mws|
    decreases |mws| - i
  {
    if i == |mws| then i
    else if NextCalls(mws[i]) == 0 then i + 1
    else Depth(mws, i + 1)
  }

  ghost predicate AtMostOneNext(mws: seq<Script>) {
    forall i | 0 <= i < |mws| :: NextCalls(mws[i]) <= 1
  }

  lemma {:induction false} RunIsOnion(mws: seq<Script>, h: string, c: Chain)
    requires c.idx <= |mws| && AtMostOneNext(mws)
    ensures Run(mws, h, c) == Chain(Depth(mws, c.idx), c.trace + Onion(mws, h, c.idx))
    decreases |mws| - c.idx, 0
  {
    if c.idx < |mws| {
      var e := Chain(c.idx + 1, c.trace + [Enter(c.idx)]);
      var inner := Onion(mws, h, c.idx + 1);
      if NextCalls(mws[c.idx]) == 0 {
        InterpretEffects(mws, h, c.idx, mws[c.idx], e, inner);
      } else {
        InterpretIsWrap(mws, h, c.idx, mws[c.idx], e);
      }
      assert e.trace + Wrap(c.idx, mws[c.idx], inner) == c.trace + Onion(mws, h, c.idx);
    }
  }

  /** Before its one `next` call a script is at the index of the rest of the chain. */
  lemma {:induction false} InterpretIsWrap(mws: seq<Script>, h: string, mw: nat, s: Script, c: Chain)
    requires c.idx <= |mws| && NextCalls(s) == 1 && AtMostOneNext(mws)
    ensures Interpret(mws, h, mw, s, c) == Chain(Depth(mws, c.idx), c.trace + Wrap(mw, s, Onion(mws, h, c.idx)))
    decreases |mws| - c.idx, 1 + |s|
  {
    var inner := Onion(mws, h, c.idx);
    match s[0] {
      case Effect(tag) =>
        InterpretIsWrap(mws, h, mw, s[1..], Chain(c.idx, c.trace + [Did(mw, tag)]));
        assert c.trace + [Did(mw, tag)] + Wrap(mw, s[1..], inner) == c.trace + Wrap(mw, s, inner);
      case Next =>
        RunIsOnion(mws, h, c);
        InterpretEffects(mws, h, mw, s[1..], Run(mws, h, c), inner);
        assert c.trace + inner + Wrap(mw, s[1..], inner) == c.trace + Wrap(mw, s, inner);
    }
  }

  /** A script without `next` only adds its effects. */
  lemma {:induction false} InterpretEffects(mws: seq<Script>, h: string, mw: nat, s: Script, c: Chain,
                                            inner: seq<Trace>)
    requires c.idx <= |mws| && NextCalls(s) == 0
    ensures Interpret(mws, h, mw, s, c) == Chain(c.idx, c.trace + Wrap(mw, s, inner))
    decreases |s|
  {
    if s == [] {
      assert c.trace + [] == c.trace;
    } else {
      var e := Chain(c.idx, c.trace + [Did(mw, s[0].tag)]);
      InterpretEffects(mws, h, mw, s[1..], e, inner);
      assert e.trace + Wrap(mw, s[1..], inner) == c.trace + Wrap(mw, s, inner);
    }
  }

  // ----- Arbitrary scripts: nothing of a middleware is lost -----

  /** The effects of a script, in order. */
  function Effects(s: Script): seq<string> {
    if s == [] then []
    else (if s[0].Effect? then [s[0].tag] else []) + Effects(s[1..])
  }

  /** The effects that one middleware has in a trace, in order. */
  function EffectsBy(trace: seq<Trace>, i: nat): seq<string> {
    if trace == [] then []
    else
      var last := trace[|trace| - 1];
      EffectsBy(trace[..|trace| - 1], i) + (if last.Did? && last.middleware == i then [last.tag] else [])
  }

  lemma EffectsBySnoc(trace: seq<Trace>, x: Trace, i: nat)
    ensures EffectsBy(trace + [x], i)
         == EffectsBy(trace, i) + (if x.Did? && x.middleware == i then [x.tag] else [])
  {
    assert (trace + [x])[..|trace|] == trace;
  }

  /** A call of `run` does all that the middlewares it enters have to do, and nothing more. */
  lemma {:induction false} RunDoesAll(mws: seq<Script>, h: string, c: Chain, i: nat)
    requires c.idx <= |mws| && (i >= c.idx ==> EffectsBy(c.trace, i) == [])
    ensures var d := Run(mws, h, c);
      EffectsBy(d.trace, i) == if c.idx <= i < d.idx then Effects(mws[i]) else EffectsBy(c.trace, i)
    decreases |mws| - c.idx, 0
  {
    if c.idx < |mws| {
      var e := Chain(c.idx + 1, c.trace + [Enter(c.idx)]);
      EffectsBySnoc(c.trace, Enter(c.idx), i);
      InterpretDoesAll(mws, h, c.idx, mws[c.idx], e, i);
    } else {
      EffectsBySnoc(c.trace, Handler(h), i);
    }
  }

  lemma {:induction false} InterpretDoesAll(mws: seq<Script>, h: string, mw: nat, s: Script, c: Chain, i: nat)
    requires mw < c.idx <= |mws| && (i >= c.idx ==> EffectsBy(c.trace, i) == [])
    ensures var d := Interpret(mws, h, mw, s, c);
      EffectsBy(d.trace, i) ==
        if i == mw then EffectsBy(c.trace, i) + Effects(s)
        else if c.idx <= i < d.idx then Effects(mws[i])
        else EffectsBy(c.trace, i)
    decreases |mws| - c.idx, 1 + |s|
  {
    if s != [] {
      match s[0] {
        case Effect(tag) =>
          EffectsBySnoc(c.trace, Did(mw, tag), i);
          InterpretDoesAll(mws, h, mw, s[1..], Chain(c.idx, c.trace + [Did(mw, tag)]), i);
        case Next =>
          RunDoesAll(mws, h, c, i);
          InterpretDoesAll(mws, h, mw, s[1..], Run(mws, h, c), i);
      }
    }
  }

  /** What one action does, for any chain so far. */
  lemma OneAction(mws: seq<Script>, h: string, mw: nat, tag: string, c: Chain)
    requires c.idx <= |mws|
    ensures Interpret(mws, h, mw, [Effect(tag)], c) == Chain(c.idx, c.trace + [Did(mw, tag)])
    ensures Interpret(mws, h, mw, [Next], c) == Run(mws, h, c)
    ensures Run(mws, h, c) ==
      if c.idx == |mws| then Chain(c.idx, c.trace + [Handler(h)])
      else Interpret(mws, h, c.idx, mws[c.idx], Chain(c.idx + 1, c.trace + [Enter(c.idx)]))
  {
    assert [Effect(tag)][1..] == [] && [Next][1..] == [];
  }

  /** Doing a script in two parts is doing the one and then the other, wherever it is cut: in
      particular what follows a `next` is done after all that this `next` did. */
  lemma {:induction false} InterpretInParts(mws: seq<Script>, h: string, mw: nat, first: Script, later: Script, c: Chain)
    requires c.idx <= |mws|
    ensures Interpret(mws, h, mw, first + later, c)
         == Interpret(mws, h, mw, later, Interpret(mws, h, mw, first, c))
    decreases |first|
  {
    if first == [] {
      assert first + later == later;
    } else {
      assert (first + later)[1..] == first[1..] + later;
      match first[0] {
        case Effect(tag) =>
          InterpretInParts(mws, h, mw, first[1..], later, Chain(c.idx, c.trace + [Did(mw, tag)]));
        case Next =>
          InterpretInParts(mws, h, mw, first[1..], later, Run(mws, h, c));
      }
    }
  }

  /** For arbitrary scripts: every middleware that a request enters does all of its own effects,
      in script order, and the others do nothing. */
  lemma NothingIsLost(mws: seq<Script>, h: string, i: nat)
    ensures var d := Run(mws, h, Chain(0, []));
      EffectsBy(d.trace, i) == if i < d.idx then Effects(mws[i]) else []
  {
    RunDoesAll(mws, h, Chain(0, []), i);
  }

  /** What one request leaves in the trace. */
  lemma HandleTrace(mws: seq<Script>, h: string)
    ensures var trace := Run(mws, h, Chain(0, [])).trace;
      && (forall i | 0 <= i < |mws| ::
            EffectsBy(trace, i) == if i < |Entered(trace)| then Effects(mws[i]) else [])
      && (AtMostOneNext(mws) ==> trace == Onion(mws, h, 0))
  {
    ChainMeaning(mws, h);
    forall i | 0 <= i < |mws|
      ensures var d := Run(mws, h, Chain(0, []));
        EffectsBy(d.trace, i) == if i < d.idx then Effects(mws[i]) else []
    {
      NothingIsLost(mws, h, i);
    }
    if AtMostOneNext(mws) {
      RunIsOnion(mws, h, Chain(0, []));
    }
  }

  // ----- The object -----

  datatype RouteKey = RouteKey(verb: string, path: string)

  datatype Response = Response(status: nat, contentType: string, body: string)

  /** The captured locals of one Handle call: the shared index, and the log of what ran. */
  class Continuation {
    const middleware: seq<Script>
    const handler: string
    var idx: nat
    var trace: seq<Trace>

    constructor (middleware: seq<Script>, handler: string)
      ensures this.middleware == middleware && this.handler == handler && idx == 0 && trace == []
    {
      this.middleware, this.handler := middleware, handler;
      idx, trace := 0, [];
    }

    /** The closure `run`. */
    method Invoke()
      requires idx <= |middleware|
      modifies this
      ensures idx <= |middleware|
      ensures Chain(idx, trace) == Run(middleware, handler, old(Chain(idx, trace)))
      decreases |middleware| - idx, 0
    {
      if idx < |middleware| {
        var mw := idx;
        trace := trace + [Enter(mw)];
        idx := idx + 1;
        Perform(mw, middleware[mw]);
        return;
      }
      trace := trace + [Handler(handler)];
    }

    /** A middleware runs its script, calling back into `run`. */
    method Perform(mw: nat, s: Script)
      requires idx <= |middleware|
      modifies this
      ensures idx <= |middleware|
      ensures Chain(idx, trace) == Interpret(middleware, handler, mw, s, old(Chain(idx, trace)))
      decreases |middleware| - idx, 1 + |s|
    {
      if s == [] {
        return;
      }
      match s[0] {
        case Effect(tag) => trace := trace + [Did(mw, tag)];
        case Next => Invoke();
      }
      Perform(mw, s[1..]);
    }
  }

  class HttpRouter {
    var middleware: seq<Script>
    var routes: map<RouteKey, string>

    constructor ()
      ensures middleware == [] && routes == map[]
    {
      middleware, routes := [], map[];
    }

    method Use(mw: Script)
      modifies this`middleware
      ensures middleware == old(middleware) + [mw]
    {
      middleware := middleware + [mw];
    }

    /** A later registration of the same verb and path replaces the handler. */
    method AddRoute(verb: string, path: string, handler: string)
      modifies this`routes
      ensures routes == old(routes)[RouteKey(verb, path) := handler]
    {
      routes := routes[RouteKey(verb, path) := handler];
    }

    /** What ran, and the response that the router itself writes: only when no route matched.
        What the middlewares and the handler write is up to them. */
    method Handle(verb: string, path: string) returns (written: Option<Response>, trace: seq<Trace>)
      ensures RouteKey(verb, path) in routes ==>
        written == None && trace == Run(middleware, routes[RouteKey(verb, path)], Chain(0, [])).trace
      ensures RouteKey(verb, path) in routes ==>
        forall i | 0 <= i < |middleware| ::
          EffectsBy(trace, i) == if i < |Entered(trace)| then Effects(middleware[i]) else []
      ensures RouteKey(verb, path) in routes && AtMostOneNext(middleware) ==>
        trace == Onion(middleware, routes[RouteKey(verb, path)], 0)
      ensures RouteKey(verb, path) !in routes ==>
        && trace == []
        && written == Some(Response(404, "application/json; charset=utf-8", "{\"error\":\"not_found\"}"))
    {
      if RouteKey(verb, path) !in routes {
        return Some(Response(404, "application/json; charset=utf-8", "{\"error\":\"not_found\"}")), [];
      }
      var chain := new Continuation(middleware, routes[RouteKey(verb, path)]);
      chain.Invoke();
      HandleTrace(middleware, routes[RouteKey(verb, path)]);
      return None, chain.trace;
    }
  }
}
