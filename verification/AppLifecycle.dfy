/** The run/stop protocol of src/runtime/app.cpp together with the start/stop gate of
    src/runtime/io_context_pool.cpp: one call of Run and any number of calls of Stop, none of
    them on a pool worker, interleaved step by step. */
module AppLifecycle {
  import opened Counting
  import opened Runs

  /** Where Run stands. Checking holds the mutex just long enough to test `stopped_`; going to
      sleep releases it in the same step, as condition_variable::wait does. */
  datatype Runner =
    | NotCalled
    | Cleared
    | Reset
    | Spawning(next: nat)
    | StartingServers(next: nat)
    | Checking
    | Asleep
    | Returned

  /** Where a call of Stop stands; Finished also covers the calls that lost the exchange. */
  datatype Stopper =
    | StoppingServers(next: nat)
    | StoppingPool
    | Joining
    | Storing
    | Notifying
    | Finished

  /** Milestones, in the order in which they happened. */
  datatype Mark = ClearedStopped | ResetRequest | StartedAll | Won(stopper: nat) | Stored(stopper: nat)

  datatype Action = RunStep | SpuriousWakeup | CallStop(id: nat) | StopStep(id: nat)

  /** `workers` counts the pool's threads that have been started and not joined. One that is
      started after the pool was stopped finds its context stopped and ends by itself, but
      counts until it is joined. */
  datatype World = World(
    threads: nat,
    stopRequested: bool,
    stopped: bool,
    poolStarted: bool,
    workers: nat,
    up: seq<bool>,
    runner: Runner,
    stoppers: map<nat, Stopper>,
    marks: seq<Mark>)

  ghost function Start(threads: nat, servers: nat): World {
    World(threads, false, false, false, 0, seq(servers, i => false), NotCalled, map[], [])
  }

  ghost function Marked(w: World, m: Mark): World {
    w.(marks := w.marks + [m])
  }

  ghost function RunnerStep(w: World): World {
    match w.runner
    case NotCalled =>
      Marked(w.(stopped := false, runner := Cleared), ClearedStopped)
    case Cleared =>
      Marked(w.(stopRequested := false, runner := Reset), ResetRequest)
    case Reset =>
      if w.poolStarted then w.(runner := StartingServers(0))
      else w.(poolStarted := true, runner := Spawning(0))
    case Spawning(k) =>
      if k < w.threads then w.(workers := w.workers + 1, runner := Spawning(k + 1))
      else w.(runner := StartingServers(0))
    case StartingServers(i) =>
      if i < |w.up| then w.(up := w.up[i := true], runner := StartingServers(i + 1))
      else Marked(w.(runner := Checking), StartedAll)
    case Checking => w.(runner := if w.stopped then Returned else Asleep)
    case Asleep => w
    case Returned => w
  }

  ghost function At(w: World, id: nat, s: Stopper): World {
    w.(stoppers := w.stoppers[id := s])
  }

  ghost function StopperStep(w: World, id: nat): World
    requires id in w.stoppers
  {
    match w.stoppers[id]
    case StoppingServers(i) =>
      if i < |w.up| then At(w.(up := w.up[i := false]), id, StoppingServers(i + 1))
      else At(w, id, StoppingPool)
    case StoppingPool =>
      if w.poolStarted then At(w.(poolStarted := false), id, Joining)
      else At(w, id, Storing)
    case Joining => At(w.(workers := 0), id, Storing)
    case Storing => Marked(At(w.(stopped := true), id, Notifying), Stored(id))
    case Notifying =>
      At(w.(runner := if w.runner == Asleep then Checking else w.runner), id, Finished)
    case Finished => w
  }

  ghost function Step(w: World, a: Action): World {
    match a
    case RunStep => RunnerStep(w)
    case SpuriousWakeup => if w.runner == Asleep then w.(runner := Checking) else w
    case CallStop(id) =>
      if id in w.stoppers then w
      else if w.stopRequested then At(w, id, Finished)
      else Marked(At(w.(stopRequested := true), id, StoppingServers(0)), Won(id))
    case StopStep(id) => if id in w.stoppers then StopperStep(w, id) else w
  }

  ghost function Exec(threads: nat, servers: nat, run: seq<Action>): World {
    if run == [] then Start(threads, servers)
    else Step(Exec(threads, servers, run[..|run| - 1]), run[|run| - 1])
  }

  /** The milestone a step passes, if any. */
  ghost function NewMarks(w: World, a: Action): (m: seq<Mark>)
    ensures |m| <= 1
  {
    match a
    case RunStep =>
      if w.runner == NotCalled then [ClearedStopped]
      else if w.runner == Cleared then [ResetRequest]
      else if w.runner.StartingServers? && w.runner.next >= |w.up| then [StartedAll]
      else []
    case SpuriousWakeup => []
    case CallStop(id) => if id !in w.stoppers && !w.stopRequested then [Won(id)] else []
    case StopStep(id) => if id in w.stoppers && w.stoppers[id] == Storing then [Stored(id)] else []
  }

  lemma StepMarks(w: World, a: Action)
    ensures Step(w, a).marks == w.marks + NewMarks(w, a)
  {
    match a {
      case RunStep => assert w.marks + [] == w.marks;
      case SpuriousWakeup => assert w.marks + [] == w.marks;
      case CallStop(_) => assert w.marks + [] == w.marks;
      case StopStep(_) => assert w.marks + [] == w.marks;
    }
  }

  // ----- Shutdown bodies are counted by resets -----

  ghost function IsWin(): Mark -> bool {
    (m: Mark) => m.Won?
  }

  ghost function IsReset(): Mark -> bool {
    (m: Mark) => m.ResetRequest?
  }

  ghost function Wins(marks: seq<Mark>): nat {
    Count(marks, IsWin())
  }

  ghost function Resets(marks: seq<Mark>): nat {
    Count(marks, IsReset())
  }

  ghost predicate EarlyRunner(r: Runner) {
    r.NotCalled? || r.Cleared?
  }

  ghost predicate BodiesBounded(marks: seq<Mark>, requested: bool, early: bool) {
    && Wins(marks) <= Resets(marks) + (if requested then 1 else 0)
    && Resets(marks) == (if early then 0 else 1)
  }

  /** How a milestone moves the two flags that the bound depends on. */
  lemma GateStep(w: World, a: Action)
    ensures var v, m := Step(w, a), NewMarks(w, a);
      if m != [] && m[0].Won? then
        !w.stopRequested && v.stopRequested && EarlyRunner(v.runner) == EarlyRunner(w.runner)
      else if m != [] && m[0].ResetRequest? then
        EarlyRunner(w.runner) && !EarlyRunner(v.runner) && !v.stopRequested
      else v.stopRequested == w.stopRequested && EarlyRunner(v.runner) == EarlyRunner(w.runner)
  {
    match a {
      case RunStep =>
      case SpuriousWakeup =>
      case CallStop(_) =>
      case StopStep(_) =>
    }
  }

  lemma BodiesGrow(marks: seq<Mark>, m: Mark, requested: bool, early: bool)
    requires BodiesBounded(marks, requested, early)
    ensures m.Won? && !requested ==> BodiesBounded(marks + [m], true, early)
    ensures m.ResetRequest? && early ==> BodiesBounded(marks + [m], false, false)
    ensures !m.Won? && !m.ResetRequest? ==> BodiesBounded(marks + [m], requested, early)
  {
    CountSnoc(marks, m, IsWin());
    CountSnoc(marks, m, IsReset());
  }

  /** The exchange lets at most one shutdown body in for each reset, and one more; with the one
      Run there are at most two. */
  lemma {:induction false} BodiesAreBounded(threads: nat, servers: nat, run: seq<Action>)
    ensures var w := Exec(threads, servers, run);
      && BodiesBounded(w.marks, w.stopRequested, EarlyRunner(w.runner))
      && Wins(w.marks) <= 1 + Resets(w.marks) <= 2
  {
    if run != [] {
      var w, a := Exec(threads, servers, run[..|run| - 1]), run[|run| - 1];
      BodiesAreBounded(threads, servers, run[..|run| - 1]);
      StepMarks(w, a);
      GateStep(w, a);
      var m := NewMarks(w, a);
      if m == [] {
        assert w.marks + m == w.marks;
      } else {
        assert m == [m[0]];
        BodiesGrow(w.marks, m[0], w.stopRequested, EarlyRunner(w.runner));
      }
    }
  }

  // ----- Run returns only after a shutdown, and is always woken -----

  /** Some shutdown stored `stopped_` after Run had cleared it. */
  ghost predicate ShutDownSinceClear(marks: seq<Mark>) {
    exists i, j | 0 <= i < j < |marks| :: marks[i] == ClearedStopped && marks[j].Stored?
  }

  ghost predicate Notifiable(w: World) {
    exists id :: id in w.stoppers && w.stoppers[id] == Notifying
  }

  ghost predicate Recorded(w: World) {
    && (w.runner != NotCalled ==> ClearedStopped in w.marks)
    && (w.runner != NotCalled && w.stopped ==> ShutDownSinceClear(w.marks))
  }

  ghost predicate Waiting(w: World) {
    && (w.runner == Returned ==> w.stopped)
    && (w.runner == Asleep && w.stopped ==> Notifiable(w))
  }

  lemma ShutDownExtends(marks: seq<Mark>, m: Mark)
    ensures ShutDownSinceClear(marks) ==> ShutDownSinceClear(marks + [m])
    ensures ClearedStopped in marks && m.Stored? ==> ShutDownSinceClear(marks + [m])
  {
    var longer := marks + [m];
    if ShutDownSinceClear(marks) {
      var i, j :| 0 <= i < j < |marks| && marks[i] == ClearedStopped && marks[j].Stored?;
      assert longer[i] == ClearedStopped && longer[j].Stored?;
    } else if ClearedStopped in marks && m.Stored? {
      var i :| 0 <= i < |marks| && marks[i] == ClearedStopped;
      assert longer[i] == ClearedStopped && longer[|marks|].Stored?;
    }
  }

  lemma RecordedStep(w: World, a: Action)
    requires Recorded(w)
    ensures Recorded(Step(w, a))
  {
    StepMarks(w, a);
    var m := NewMarks(w, a);
    if m != [] {
      ShutDownExtends(w.marks, m[0]);
    }
  }

  /** A Stop about to notify stays so until it takes that very step. */
  lemma NotifiableStays(w: World, a: Action)
    requires Notifiable(w)
    ensures Notifiable(Step(w, a)) || Step(w, a).runner != Asleep
  {
    var n :| n in w.stoppers && w.stoppers[n] == Notifying;
    var v := Step(w, a);
    if a != StopStep(n) {
      assert n in v.stoppers && v.stoppers[n] == Notifying;
    }
  }

  lemma WaitingStop(w: World, id: nat)
    requires Waiting(w) && id in w.stoppers
    ensures Waiting(StopperStep(w, id))
  {
    var v := StopperStep(w, id);
    if w.stoppers[id] == Storing {
      assert id in v.stoppers && v.stoppers[id] == Notifying;
    } else if v.runner == Asleep && v.stopped {
      NotifiableStays(w, StopStep(id));
    }
  }

  lemma WaitingStep(w: World, a: Action)
    requires Waiting(w)
    ensures Waiting(Step(w, a))
  {
    match a {
      case StopStep(id) =>
        if id in w.stoppers {
          WaitingStop(w, id);
        }
      case _ =>
        if w.runner == Asleep && w.stopped {
          NotifiableStays(w, a);
        }
    }
  }

  lemma {:induction false} RunWaits(threads: nat, servers: nat, run: seq<Action>)
    ensures Recorded(Exec(threads, servers, run)) && Waiting(Exec(threads, servers, run))
  {
    if run != [] {
      var w, a := Exec(threads, servers, run[..|run| - 1]), run[|run| - 1];
      RunWaits(threads, servers, run[..|run| - 1]);
      RecordedStep(w, a);
      WaitingStep(w, a);
    }
  }

  /** Run returns only if a shutdown finished after its reset of `stopped_`. And no wakeup is
      lost: while Run sleeps on a finished shutdown, some Stop is about to notify, and that
      notification followed by Run's own check makes Run return. */
  lemma RunReturnsWhenStopped(threads: nat, servers: nat, run: seq<Action>)
    ensures var w := Exec(threads, servers, run);
      && (w.runner == Returned ==> ShutDownSinceClear(w.marks))
      && (w.runner == Asleep && w.stopped ==>
            exists id {:trigger w.stoppers[id]} :: id in w.stoppers && w.stoppers[id] == Notifying
              && Step(Step(w, StopStep(id)), RunStep).runner == Returned)
      && (w.runner == Checking && w.stopped ==> Step(w, RunStep).runner == Returned)
  {
    RunWaits(threads, servers, run);
  }

  // ----- What is stopped when Run returns -----

  /** In the part of Stop that can still change servers, pool or `stopped_`. */
  ghost predicate InBody(s: Stopper) {
    s.StoppingServers? || s.StoppingPool? || s.Joining? || s.Storing?
  }

  /** No shutdown is under way and none has finished since Run began. */
  ghost predicate Clean(w: World) {
    !w.stopped && forall id <- w.stoppers :: !InBody(w.stoppers[id])
  }

  ghost predicate ServersUpTo(w: World, n: nat) {
    n <= |w.up| && forall i | 0 <= i < n :: w.up[i]
  }

  /** Exactly what Run has started so far is running. */
  ghost predicate RunningSoFar(w: World) {
    match w.runner
    case NotCalled => !w.poolStarted && w.workers == 0
    case Cleared => !w.poolStarted && w.workers == 0
    case Reset => !w.poolStarted && w.workers == 0
    case Spawning(k) => w.poolStarted && w.workers == k <= w.threads
    case StartingServers(i) => w.poolStarted && w.workers == w.threads && ServersUpTo(w, i)
    case _ => w.poolStarted && w.workers == w.threads && ServersUpTo(w, |w.up|)
  }

  ghost predicate StartedSoFar(w: World) {
    RunningSoFar(w) && (EarlyRunner(w.runner) || !w.stopRequested)
  }

  /** Before Run is called nothing has been started, whatever stoppers do; from then on a clean
      world shows exactly what Run has started. */
  ghost predicate Startup(w: World) {
    && (EarlyRunner(w.runner) ==> !w.poolStarted && w.workers == 0)
    && (Clean(w) ==> StartedSoFar(w))
  }

  /** A call of Stop keeps its place, or moves on; out of its body it stays out. */
  lemma BodyOnlyLeft(w: World, a: Action, id: nat)
    requires id in w.stoppers && InBody(w.stoppers[id])
    ensures var v := Step(w, a);
      id in v.stoppers && (InBody(v.stoppers[id]) || v.stopped || w.runner == NotCalled)
  {
    match a {
      case RunStep =>
      case SpuriousWakeup =>
      case CallStop(_) =>
      case StopStep(_) =>
    }
  }

  lemma CleanBefore(w: World, a: Action)
    requires w.runner != NotCalled && Clean(Step(w, a))
    ensures Clean(w)
  {
    forall id <- w.stoppers
      ensures !InBody(w.stoppers[id])
    {
      if InBody(w.stoppers[id]) {
        BodyOnlyLeft(w, a, id);
      }
    }
    assert w.stopped ==> Step(w, a).stopped;
  }

  lemma StartupRunStep(w: World)
    requires Startup(w)
    ensures Startup(RunnerStep(w))
  {
    var v := RunnerStep(w);
    if Clean(v) && w.runner != NotCalled {
      CleanBefore(w, RunStep);
    }
  }

  lemma StartupStopStep(w: World, id: nat)
    requires Startup(w) && id in w.stoppers
    ensures Startup(StopperStep(w, id))
  {
    var v := StopperStep(w, id);
    if Clean(v) && w.runner != NotCalled {
      CleanBefore(w, StopStep(id));
    }
  }

  lemma StartupCallStop(w: World, id: nat)
    requires Startup(w)
    ensures Startup(Step(w, CallStop(id)))
  {
    var v := Step(w, CallStop(id));
    if Clean(v) {
      if id !in w.stoppers {
        assert !InBody(v.stoppers[id]);
      }
      if w.runner != NotCalled {
        CleanBefore(w, CallStop(id));
      }
    }
  }

  lemma StartupStep(w: World, a: Action)
    requires Startup(w)
    ensures Startup(Step(w, a))
  {
    match a {
      case RunStep => StartupRunStep(w);
      case SpuriousWakeup =>
      case CallStop(id) => StartupCallStop(w, id);
      case StopStep(id) =>
        if id in w.stoppers {
          StartupStopStep(w, id);
        }
    }
  }

  lemma {:induction false} RunStartsUp(threads: nat, servers: nat, run: seq<Action>)
    ensures Startup(Exec(threads, servers, run))
  {
    if run != [] {
      RunStartsUp(threads, servers, run[..|run| - 1]);
      StartupStep(Exec(threads, servers, run[..|run| - 1]), run[|run| - 1]);
    }
  }

  ghost predicate ServersDownTo(w: World, n: nat) {
    forall i | 0 <= i < n && i < |w.up| :: !w.up[i]
  }

  /** All servers are down, and the pool is stopped with every worker joined. */
  ghost predicate AllStopped(w: World) {
    ServersDownTo(w, |w.up|) && !w.poolStarted && w.workers == 0
  }

  /** Run still has a pool, a worker or a server to start. */
  ghost predicate StillStarting(w: World) {
    match w.runner
    case NotCalled => true
    case Cleared => true
    case Reset => true
    case Spawning(k) => k < w.threads || |w.up| > 0
    case StartingServers(i) => i < |w.up|
    case _ => false
  }

  ghost predicate StartedRunner(r: Runner) {
    r.Checking? || r.Asleep? || r.Returned?
  }

  /** A Stop that finds the pool started joins the workers; one that does not leaves them. */
  ghost predicate PoolInReach(w: World) {
    w.poolStarted || w.workers == 0
  }

  /** If this call of Stop is the next to set `stopped_`, all is stopped by then. */
  ghost predicate Covered(w: World, s: Stopper) {
    match s
    case StoppingServers(i) => ServersDownTo(w, i) && PoolInReach(w)
    case StoppingPool => ServersDownTo(w, |w.up|) && PoolInReach(w)
    case Joining => ServersDownTo(w, |w.up|) && !w.poolStarted
    case Storing => AllStopped(w)
    case Notifying => true
    case Finished => true
  }

  ghost predicate BothInBody(stoppers: map<nat, Stopper>, a: nat, b: nat) {
    && a in stoppers && InBody(stoppers[a])
    && b in stoppers && InBody(stoppers[b])
  }

  /** No two calls of Stop are, or can come to be, in their bodies. */
  ghost predicate OneBodyAtMost(w: World) {
    && (forall a, b | BothInBody(w.stoppers, a, b) :: a == b)
    && (w.stopRequested || forall id <- w.stoppers :: !InBody(w.stoppers[id]))
  }

  /** Whichever call of Stop, present or future, is the next to set `stopped_` leaves nothing
      behind: each one in its body is covered, so is one that would be called now, and no other
      can take the pool away and let it pass by workers that are still to be joined. */
  ghost predicate Safe(w: World) {
    if w.stopped then AllStopped(w)
    else
      && (forall id <- w.stoppers :: Covered(w, w.stoppers[id]))
      && (!w.stopRequested ==> PoolInReach(w))
      && (w.poolStarted && w.workers > 0 ==> OneBodyAtMost(w))
  }

  ghost predicate Assured(w: World) {
    && !StillStarting(w) && Safe(w)
    && (w.runner == Returned ==> w.stopped)
  }

  lemma AssuredRun(w: World)
    requires Assured(w)
    ensures Assured(RunnerStep(w))
  {
    var v := RunnerStep(w);
    assert v == w.(runner := v.runner, marks := v.marks);
    if !w.stopped {
      forall id <- v.stoppers
        ensures Covered(v, v.stoppers[id])
      {
        assert Covered(w, w.stoppers[id]);
      }
    }
  }

  lemma AssuredCall(w: World, id: nat)
    requires Assured(w)
    ensures Assured(Step(w, CallStop(id)))
  {
    var v := Step(w, CallStop(id));
    if !w.stopped {
      forall x <- v.stoppers
        ensures Covered(v, v.stoppers[x])
      {
        assert x in w.stoppers ==> Covered(w, w.stoppers[x]);
      }
      assert forall a, b | BothInBody(v.stoppers, a, b) && a != id && b != id :: BothInBody(w.stoppers, a, b);
    }
  }

  /** One step in the body of a covered Stop covers it again. */
  lemma StopCoversItself(w: World, id: nat)
    requires id in w.stoppers && Covered(w, w.stoppers[id])
    ensures var v := StopperStep(w, id);
      && Covered(v, v.stoppers[id])
      && (v.stopped && !w.stopped ==> AllStopped(v))
  {
    match w.stoppers[id] {
      case StoppingServers(_) =>
      case StoppingPool =>
      case _ =>
    }
  }

  /** And the others, unless it takes the pool from under them. */
  lemma StopCoversOther(w: World, id: nat, x: nat)
    requires id in w.stoppers && x in w.stoppers && x != id
    requires Covered(w, w.stoppers[x])
    requires w.stoppers[id] == StoppingPool && w.poolStarted && w.workers > 0 ==> !InBody(w.stoppers[x])
    ensures var v := StopperStep(w, id);
      v.stoppers[x] == w.stoppers[x] && Covered(v, v.stoppers[x])
  {
    match w.stoppers[id] {
      case StoppingServers(_) =>
      case StoppingPool =>
      case _ =>
    }
  }

  /** Nor does it let more bodies in. */
  lemma StopKeepsBodies(w: World, id: nat)
    requires id in w.stoppers
    ensures var v := StopperStep(w, id);
      && v.stopRequested == w.stopRequested
      && (OneBodyAtMost(w) ==> OneBodyAtMost(v))
  {
    var v := StopperStep(w, id);
    forall x <- v.stoppers
      ensures x in w.stoppers && (InBody(v.stoppers[x]) ==> InBody(w.stoppers[x]))
    {
    }
    assert forall a, b | BothInBody(v.stoppers, a, b) :: BothInBody(w.stoppers, a, b);
  }

  lemma AssuredStop(w: World, id: nat)
    requires Assured(w) && id in w.stoppers
    ensures Assured(StopperStep(w, id))
  {
    var v := StopperStep(w, id);
    if !w.stopped {
      forall x <- v.stoppers
        ensures Covered(v, v.stoppers[x])
      {
        assert x in w.stoppers && Covered(w, w.stoppers[x]);
        assert InBody(w.stoppers[id]) && InBody(w.stoppers[x]) ==> BothInBody(w.stoppers, id, x);
        if x == id {
          StopCoversItself(w, id);
        } else {
          StopCoversOther(w, id, x);
        }
      }
      StopCoversItself(w, id);
      StopKeepsBodies(w, id);
    }
  }

  lemma AssuredStep(w: World, a: Action)
    requires Assured(w)
    ensures Assured(Step(w, a))
  {
    match a {
      case RunStep => AssuredRun(w);
      case SpuriousWakeup =>
      case CallStop(id) => AssuredCall(w, id);
      case StopStep(id) =>
        if id in w.stoppers {
          AssuredStop(w, id);
        }
    }
  }

  /** Continue a run from a world. */
  ghost function ExecFrom(w: World, more: seq<Action>): World {
    Fold(Step, w, more)
  }

  lemma {:induction false} AssuredLasts(w: World, more: seq<Action>)
    requires Assured(w)
    ensures Assured(ExecFrom(w, more))
  {
    if more != [] {
      AssuredLasts(w, more[..|more| - 1]);
      AssuredStep(ExecFrom(w, more[..|more| - 1]), more[|more| - 1]);
    }
  }

  /** However the run goes on, all is stopped when Run returns. */
  ghost predicate AlwaysAllStopped(w: World) {
    forall more :: ExecFrom(w, more).runner == Returned ==> AllStopped(ExecFrom(w, more))
  }

  lemma AssuredIsStopped(w: World)
    requires Assured(w)
    ensures AlwaysAllStopped(w)
  {
    forall more
      ensures ExecFrom(w, more).runner == Returned ==> AllStopped(ExecFrom(w, more))
    {
      AssuredLasts(w, more);
    }
  }

  /** In particular if no shutdown is under way and none has finished when Run has nothing more
      to start. */
  lemma StoppedAfterCleanStart(threads: nat, servers: nat, run: seq<Action>)
    requires var w := Exec(threads, servers, run);
      Clean(w) && !StillStarting(w)
    ensures AlwaysAllStopped(Exec(threads, servers, run))
  {
    RunStartsUp(threads, servers, run);
    RunWaits(threads, servers, run);
    AssuredIsStopped(Exec(threads, servers, run));
  }

  // ----- A shutdown that comes too early -----

  lemma FromThen(w: World, first: seq<Action>, later: seq<Action>)
    ensures ExecFrom(w, first + later) == ExecFrom(ExecFrom(w, first), later)
  {
    FoldConcat(Step, w, first, later);
  }

  lemma FirstStep(w: World, a: Action, later: seq<Action>)
    ensures ExecFrom(w, [a] + later) == ExecFrom(Step(w, a), later)
  {
    FromThen(w, [a], later);
    FoldOne(Step, w, a);
  }

  lemma {:induction false} ExecFromStart(threads: nat, servers: nat, run: seq<Action>)
    ensures Exec(threads, servers, run) == ExecFrom(Start(threads, servers), run)
  {
    if run != [] {
      ExecFromStart(threads, servers, run[..|run| - 1]);
    }
  }

  lemma FreshId(ids: set<nat>) returns (bound: nat)
    ensures forall id <- ids :: id < bound
    decreases ids
  {
    if ids == {} {
      bound := 0;
    } else {
      var id :| id in ids;
      var rest := FreshId(ids - {id});
      bound := if id < rest then rest else id + 1;
      assert forall x <- ids :: x == id || x in ids - {id};
    }
  }

  lemma {:induction false} StopServers(w: World, id: nat, i: nat) returns (more: seq<Action>)
    requires id in w.stoppers && w.stoppers[id] == StoppingServers(i)
    ensures var v := ExecFrom(w, more);
      && v == w.(up := v.up, stoppers := v.stoppers) && |v.up| == |w.up|
      && id in v.stoppers && v.stoppers[id] == StoppingPool
      && (forall x <- w.stoppers | x != id :: x in v.stoppers && v.stoppers[x] == w.stoppers[x])
      && (forall j | 0 <= j < i && j < |w.up| :: v.up[j] == w.up[j])
    decreases |w.up| - i
  {
    var v := Step(w, StopStep(id));
    if i < |w.up| {
      more := StopServers(v, id, i + 1);
    } else {
      more := [];
    }
    FirstStep(w, StopStep(id), more);
    more := [StopStep(id)] + more;
  }

  /** From the end of its server loop Stop goes on until it has set `stopped_`. */
  lemma StopPool(w: World, id: nat) returns (more: seq<Action>)
    requires id in w.stoppers && w.stoppers[id] == StoppingPool
    ensures var v := ExecFrom(w, more);
      && v.stopped && !v.poolStarted && v.workers == (if w.poolStarted then 0 else w.workers)
      && v.runner == w.runner && v.threads == w.threads && v.up == w.up
  {
    var u := Step(w, StopStep(id));
    if w.poolStarted {
      var v := Step(u, StopStep(id));
      FirstStep(v, StopStep(id), []);
      FirstStep(u, StopStep(id), [StopStep(id)]);
      more := [StopStep(id)] + [StopStep(id)];
    } else {
      FirstStep(u, StopStep(id), []);
      more := [StopStep(id)] + [];
    }
    FirstStep(w, StopStep(id), more);
    more := [StopStep(id)] + more;
  }

  /** A whole Stop, by a caller that has not called yet, while Run stands still. */
  lemma WholeStop(w: World) returns (more: seq<Action>)
    requires !w.stopRequested
    ensures var v := ExecFrom(w, more);
      && v.stopped && !v.poolStarted && v.workers == (if w.poolStarted then 0 else w.workers)
      && v.runner == w.runner && v.threads == w.threads && |v.up| == |w.up|
  {
    var id := FreshId(w.stoppers.Keys);
    assert id !in w.stoppers.Keys;
    var called := Step(w, CallStop(id));
    var servers := StopServers(called, id, 0);
    var pool := StopPool(ExecFrom(called, servers), id);
    FromThen(called, servers, pool);
    FirstStep(w, CallStop(id), servers + pool);
    more := [CallStop(id)] + (servers + pool);
  }

  /** How many kinds of steps Run still has before it, and how many of the present kind. */
  ghost function PhasesLeft(r: Runner): nat {
    match r
    case Reset => 4
    case Spawning(_) => 3
    case StartingServers(_) => 2
    case Checking => 1
    case _ => 0
  }

  ghost function StepsLeft(w: World): int {
    match w.runner
    case Spawning(k) => w.threads - k
    case StartingServers(i) => |w.up| - i
    case _ => 0
  }

  ghost predicate PastReset(r: Runner) {
    !EarlyRunner(r) && r != Asleep
  }

  lemma RunStepKeepsRunning(w: World)
    requires PastReset(w.runner) && (w.runner == Checking ==> w.stopped) && RunningSoFar(w)
    ensures RunningSoFar(RunnerStep(w))
  {
    match w.runner {
      case Spawning(_) =>
      case StartingServers(_) =>
      case _ =>
    }
  }

  /** A step of Run stops nothing. */
  lemma RunStepStarts(w: World)
    requires w.stopped && PastReset(w.runner)
    ensures var v := RunnerStep(w);
      && v.stopped && PastReset(v.runner) && v.threads == w.threads && |v.up| == |w.up|
      && (StillStarting(w) || !AllStopped(w) ==> StillStarting(v) || !AllStopped(v))
  {
    var v := RunnerStep(w);
    assert w.runner.StartingServers? || v.up == w.up;
    match w.runner {
      case StartingServers(i) =>
        if i < |w.up| {
          assert v.up[i];
        }
      case _ =>
    }
  }

  /** Left alone after a shutdown has finished, Run goes through and returns. */
  lemma {:induction false} RunAlone(w: World) returns (more: seq<Action>)
    requires w.stopped && PastReset(w.runner)
    ensures var v := ExecFrom(w, more);
      && v.runner == Returned && v.threads == w.threads && |v.up| == |w.up|
      && (StillStarting(w) || !AllStopped(w) ==> !AllStopped(v))
      && (RunningSoFar(w) ==> RunningSoFar(v))
    decreases PhasesLeft(w.runner), StepsLeft(w)
  {
    if w.runner == Returned {
      more := [];
    } else {
      RunStepStarts(w);
      if RunningSoFar(w) {
        RunStepKeepsRunning(w);
      }
      more := RunAlone(RunnerStep(w));
      FirstStep(w, RunStep, more);
      more := [RunStep] + more;
    }
  }

  /** A Stop as a whole, and then Run as a whole. */
  lemma StopThenRun(w: World) returns (more: seq<Action>)
    requires PastReset(w.runner) && !w.stopRequested
    ensures var v := ExecFrom(w, more);
      && v.runner == Returned && v.threads == w.threads && |v.up| == |w.up|
      && (StillStarting(w) ==> !AllStopped(v))
      && (w.runner == Reset && RunningSoFar(w) ==> RunningSoFar(v))
  {
    var stop := WholeStop(w);
    var run := RunAlone(ExecFrom(w, stop));
    FromThen(w, stop, run);
    more := stop + run;
  }

  /** The first two steps of Run, which open the gate for stoppers again. */
  lemma UpToReset(w: World) returns (more: seq<Action>)
    requires EarlyRunner(w.runner)
    ensures var v := ExecFrom(w, more);
      v.runner == Reset && v == w.(runner := Reset, stopped := v.stopped, stopRequested := false, marks := v.marks)
  {
    FirstStep(Step(w, RunStep), RunStep, []);
    FirstStep(w, RunStep, []);
    FirstStep(w, RunStep, [RunStep]);
    more := if w.runner == NotCalled then [RunStep] + [RunStep] else [RunStep] + [];
    assert [RunStep] + [] == [RunStep];
  }

  /** A shutdown that has won since the reset is under way, or a shutdown has finished. */
  ghost predicate Underway(w: World) {
    w.stopRequested && !EarlyRunner(w.runner) ==>
      w.stopped || exists id :: id in w.stoppers && InBody(w.stoppers[id])
  }

  lemma UnderwayStep(w: World, a: Action)
    requires Underway(w)
    ensures Underway(Step(w, a))
  {
    var v := Step(w, a);
    if v.stopRequested && !EarlyRunner(v.runner) && !v.stopped {
      if w.stopRequested {
        var id :| id in w.stoppers && InBody(w.stoppers[id]);
        BodyOnlyLeft(w, a, id);
      } else {
        assert InBody(v.stoppers[a.id]);
      }
    }
  }

  lemma {:induction false} RunIsUnderway(threads: nat, servers: nat, run: seq<Action>)
    ensures Underway(Exec(threads, servers, run))
  {
    if run != [] {
      RunIsUnderway(threads, servers, run[..|run| - 1]);
      UnderwayStep(Exec(threads, servers, run[..|run| - 1]), run[|run| - 1]);
    }
  }

  /** What is left of a Stop, while Run stands still. */
  lemma FinishBody(w: World, id: nat) returns (more: seq<Action>)
    requires id in w.stoppers && InBody(w.stoppers[id])
    ensures var v := ExecFrom(w, more);
      && v.stopped && v.runner == w.runner && v.threads == w.threads && |v.up| == |w.up|
      && (AllStopped(v) ==> Covered(w, w.stoppers[id]))
  {
    var u := Step(w, StopStep(id));
    match w.stoppers[id] {
      case StoppingServers(i) =>
        var servers := StopServers(w, id, i);
        var mid := ExecFrom(w, servers);
        var pool := StopPool(mid, id);
        FromThen(w, servers, pool);
        more := servers + pool;
        assert ServersDownTo(mid, |mid.up|) ==> ServersDownTo(w, i);
      case StoppingPool => more := StopPool(w, id);
      case Joining =>
        FirstStep(u, StopStep(id), []);
        FirstStep(w, StopStep(id), [StopStep(id)] + []);
        more := [StopStep(id)] + ([StopStep(id)] + []);
      case Storing =>
        FirstStep(w, StopStep(id), []);
        more := [StopStep(id)] + [];
    }
  }

  ghost predicate CanReturnTooEarly(w: World) {
    exists more :: ExecFrom(w, more).runner == Returned && !AllStopped(ExecFrom(w, more))
  }

  lemma TooEarlyLater(w: World, first: seq<Action>)
    requires CanReturnTooEarly(ExecFrom(w, first))
    ensures CanReturnTooEarly(w)
  {
    var u := ExecFrom(w, first);
    var more :| ExecFrom(u, more).runner == Returned && !AllStopped(ExecFrom(u, more));
    FromThen(w, first, more);
  }

  /** After a shutdown has finished nothing need stop any more what Run leaves behind. */
  lemma ReturnsUnstopped(w: World)
    requires w.stopped && !EarlyRunner(w.runner)
    requires StillStarting(w) || !AllStopped(w)
    ensures CanReturnTooEarly(w)
  {
    if w.runner == Asleep {
      var rest := RunAlone(Step(w, SpuriousWakeup));
      FirstStep(w, SpuriousWakeup, rest);
    } else {
      var rest := RunAlone(w);
    }
  }

  /** A shutdown that Run outlives: it finishes, and then Run goes through. */
  lemma StoppedTooEarly(w: World)
    requires StillStarting(w) && Underway(w)
    ensures CanReturnTooEarly(w)
  {
    if EarlyRunner(w.runner) {
      var begun := UpToReset(w);
      var rest := StopThenRun(ExecFrom(w, begun));
      TooEarlyLater(w, begun);
    } else if !w.stopRequested {
      var rest := StopThenRun(w);
    } else if w.stopped {
      ReturnsUnstopped(w);
    } else {
      var id :| id in w.stoppers && InBody(w.stoppers[id]);
      var finish := FinishBody(w, id);
      ReturnsUnstopped(ExecFrom(w, finish));
      TooEarlyLater(w, finish);
    }
  }

  /** An uncovered Stop can be the next to set `stopped_`. */
  lemma UncoveredFails(w: World, id: nat)
    requires !EarlyRunner(w.runner)
    requires id in w.stoppers && !Covered(w, w.stoppers[id])
    ensures CanReturnTooEarly(w)
  {
    var finish := FinishBody(w, id);
    ReturnsUnstopped(ExecFrom(w, finish));
    TooEarlyLater(w, finish);
  }

  /** A Stop that has taken the pool and is still to join its workers. */
  lemma TakePool(w: World, id: nat) returns (more: seq<Action>)
    requires id in w.stoppers && w.poolStarted
    requires w.stoppers[id].StoppingServers? || w.stoppers[id] == StoppingPool
    ensures var v := ExecFrom(w, more);
      && !v.poolStarted && v.workers == w.workers && v.runner == w.runner
      && (forall x <- w.stoppers | x != id :: x in v.stoppers && v.stoppers[x] == w.stoppers[x])
  {
    more := [];
    if w.stoppers[id].StoppingServers? {
      more := StopServers(w, id, w.stoppers[id].next);
    }
    FirstStep(ExecFrom(w, more), StopStep(id), []);
    FromThen(w, more, [StopStep(id)] + []);
    more := more + ([StopStep(id)] + []);
  }

  /** Of two Stops the one can take the pool, and the other then passes it by. */
  lemma TwoBodiesFail(w: World, a: nat, b: nat)
    requires !EarlyRunner(w.runner) && w.poolStarted && w.workers > 0
    requires BothInBody(w.stoppers, a, b) && a != b
    ensures CanReturnTooEarly(w)
  {
    if !Covered(w, w.stoppers[a]) {
      UncoveredFails(w, a);
    } else if !Covered(w, w.stoppers[b]) {
      UncoveredFails(w, b);
    } else {
      var take := TakePool(w, a);
      UncoveredFails(ExecFrom(w, take), b);
      TooEarlyLater(w, take);
    }
  }

  lemma CallLater(w: World, id: nat)
    requires CanReturnTooEarly(Step(w, CallStop(id)))
    ensures CanReturnTooEarly(w)
  {
    FirstStep(w, CallStop(id), []);
    TooEarlyLater(w, [CallStop(id)] + []);
  }

  lemma UnsafeFails(w: World)
    requires !StillStarting(w) && !Safe(w)
    ensures CanReturnTooEarly(w)
  {
    var another := FreshId(w.stoppers.Keys);
    assert another !in w.stoppers.Keys;
    var called := Step(w, CallStop(another));
    if w.stopped {
      ReturnsUnstopped(w);
    } else if id :| id in w.stoppers && !Covered(w, w.stoppers[id]) {
      UncoveredFails(w, id);
    } else if !w.stopRequested && !PoolInReach(w) {
      UncoveredFails(called, another);
      CallLater(w, another);
    } else if a, b :| BothInBody(w.stoppers, a, b) && a != b {
      TwoBodiesFail(w, a, b);
    } else {
      var id :| id in w.stoppers && InBody(w.stoppers[id]);
      TwoBodiesFail(called, id, another);
      CallLater(w, another);
    }
  }

  /** For every reachable world, exactly when Run is sure to return with everything stopped: when
      it has nothing left to start, and no call of Stop can set `stopped_` too soon. */
  lemma AlwaysAllStoppedIff(threads: nat, servers: nat, run: seq<Action>)
    ensures var w := Exec(threads, servers, run);
      AlwaysAllStopped(w) <==> !StillStarting(w) && Safe(w)
  {
    var w := Exec(threads, servers, run);
    if StillStarting(w) {
      RunIsUnderway(threads, servers, run);
      StoppedTooEarly(w);
    } else if !Safe(w) {
      UnsafeFails(w);
    } else {
      RunWaits(threads, servers, run);
      AssuredIsStopped(w);
    }
  }

  /** It can be as bad as possible, for any number of threads and servers: a Stop that runs
      between Run's reset and the start of the pool lets Run return with everything running. */
  lemma EarlyStopLeavesAllRunning(threads: nat, servers: nat) returns (run: seq<Action>)
    ensures var w := Exec(threads, servers, run);
      && w.runner == Returned && w.poolStarted && w.workers == threads
      && |w.up| == servers && ServersUpTo(w, servers)
  {
    var w := Start(threads, servers);
    var begun := UpToReset(w);
    var rest := StopThenRun(ExecFrom(w, begun));
    run := begun + rest;
    FromThen(w, begun, rest);
    ExecFromStart(threads, servers, run);
  }

  // ----- Stops that only begin after startup -----

  /** Every winning exchange so far came after Run had started everything. */
  ghost predicate WinsAfterStart(marks: seq<Mark>) {
    forall j | 0 <= j < |marks| && marks[j].Won? :: exists i | 0 <= i < j :: marks[i] == StartedAll
  }

  ghost predicate NoWins(marks: seq<Mark>) {
    forall j | 0 <= j < |marks| :: !marks[j].Won?
  }

  ghost predicate QuietUntilWon(w: World) {
    && (NoWins(w.marks) ==> Clean(w) && !w.stopRequested)
    && (StartedAll in w.marks <==> StartedRunner(w.runner))
  }

  lemma NoWinsBefore(marks: seq<Mark>, more: seq<Mark>)
    requires NoWins(marks + more)
    ensures NoWins(marks) && NoWins(more)
  {
    var longer := marks + more;
    assert forall j | 0 <= j < |marks| :: longer[j] == marks[j];
    assert forall j | 0 <= j < |more| :: longer[|marks| + j] == more[j];
  }

  /** A step that nobody wins keeps a clean world clean. */
  lemma CleanStep(w: World, a: Action)
    requires Clean(w) && !w.stopRequested
    requires NewMarks(w, a) == [] || !NewMarks(w, a)[0].Won?
    ensures Clean(Step(w, a)) && !Step(w, a).stopRequested
  {
    match a {
      case CallStop(id) =>
      case StopStep(id) =>
        assert id in w.stoppers ==> !InBody(w.stoppers[id]);
      case _ =>
    }
  }

  lemma StartedStep(w: World, a: Action)
    ensures StartedRunner(Step(w, a).runner) <==> StartedRunner(w.runner) || StartedAll in NewMarks(w, a)
  {
    match a {
      case RunStep =>
      case SpuriousWakeup =>
      case CallStop(_) =>
      case StopStep(_) =>
    }
  }

  lemma QuietStep(w: World, a: Action)
    requires QuietUntilWon(w)
    ensures QuietUntilWon(Step(w, a))
  {
    StepMarks(w, a);
    StartedStep(w, a);
    if NoWins(Step(w, a).marks) {
      var m := NewMarks(w, a);
      NoWinsBefore(w.marks, m);
      assert m != [] ==> !m[0].Won?;
      CleanStep(w, a);
    }
  }

  lemma {:induction false} NoWinsIsClean(threads: nat, servers: nat, run: seq<Action>)
    ensures QuietUntilWon(Exec(threads, servers, run))
  {
    if run != [] {
      NoWinsIsClean(threads, servers, run[..|run| - 1]);
      QuietStep(Exec(threads, servers, run[..|run| - 1]), run[|run| - 1]);
    }
  }

  lemma WinsAfterStartBefore(marks: seq<Mark>, more: seq<Mark>)
    requires WinsAfterStart(marks + more)
    ensures WinsAfterStart(marks)
    ensures StartedAll !in marks ==> NoWins(marks)
  {
    var longer := marks + more;
    forall j | 0 <= j < |marks| && marks[j].Won?
      ensures exists i | 0 <= i < j :: marks[i] == StartedAll
    {
      assert longer[j].Won?;
      var i :| 0 <= i < j && longer[i] == StartedAll;
      assert marks[i] == StartedAll;
    }
  }

  lemma BecomesStarted(w: World, a: Action)
    requires Startup(w) && Clean(w) && !w.stopRequested
    requires !StartedRunner(w.runner) && StartedRunner(Step(w, a).runner)
    ensures Assured(Step(w, a))
  {
  }

  lemma {:induction false} LateStopsKeepOrder(threads: nat, servers: nat, run: seq<Action>)
    requires WinsAfterStart(Exec(threads, servers, run).marks)
    ensures var w := Exec(threads, servers, run);
      StartedRunner(w.runner) ==> Assured(w)
  {
    if run != [] {
      var front, a := run[..|run| - 1], run[|run| - 1];
      var w, v := Exec(threads, servers, front), Exec(threads, servers, run);
      StepMarks(w, a);
      WinsAfterStartBefore(w.marks, NewMarks(w, a));
      LateStopsKeepOrder(threads, servers, front);
      if StartedRunner(w.runner) {
        AssuredStep(w, a);
      } else if StartedRunner(v.runner) {
        NoWinsIsClean(threads, servers, front);
        RunStartsUp(threads, servers, front);
        BecomesStarted(w, a);
      }
    }
  }

  /** If every winning exchange happens after Run has started everything, all servers and all
      pool workers are stopped when Run returns. */
  lemma LateStopsStopEverything(threads: nat, servers: nat, run: seq<Action>)
    requires WinsAfterStart(Exec(threads, servers, run).marks)
    ensures var w := Exec(threads, servers, run);
      w.runner == Returned ==> AllStopped(w)
  {
    LateStopsKeepOrder(threads, servers, run);
  }
}
