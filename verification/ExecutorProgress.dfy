/** The executor keeps going: no send ever blocks, the dispatcher only waits for results that
    are under way, and every worker-only stretch of a run ends with a result. */
module ExecutorProgress {
  import opened Wrappers
  import opened SequentialRuntime
  import opened Executor
  import opened ExecutorCounting
  import opened ExecutorAccounting
  import opened ExecutorModes
  import opened ExecutorContents
  import opened ExecutorInvariant

  // ---------------------------------------------------------------- actions have outcomes

  /** An enabled action determines the next state. */
  lemma AtMostOneOutcome(cfg: Config, st: State, a: Action, next: State, other: State)
    requires Step(cfg, st, a, next) && Step(cfg, st, a, other)
    ensures next == other
  {
    if IsWorkerAction(a) {
      WorkerOutcome(cfg, st, a, next, other);
    } else if a.CommitNext? {
      CommitOutcome(cfg, st, a.diverted, next, other);
    }
  }

  lemma WorkerOutcome(cfg: Config, st: State, a: Action, next: State, other: State)
    requires IsWorkerAction(a) && Step(cfg, st, a, next) && Step(cfg, st, a, other)
    ensures next == other
  {
  }

  lemma CommitOutcome(cfg: Config, st: State, diverted: nat, next: State, other: State)
    requires Enabled(cfg, st, CommitNext(diverted))
    requires Commits(cfg, st, next, diverted) && Commits(cfg, st, other, diverted)
    ensures next == other
  {
  }

  ghost predicate HasOutcome(cfg: Config, st: State, a: Action) {
    exists st' :: Step(cfg, st, a, st')
  }

  lemma CommitHasOutcome(cfg: Config, st: State, diverted: nat)
    requires Enabled(cfg, st, CommitNext(diverted))
    ensures HasOutcome(cfg, st, CommitNext(diverted))
  {
    var r := st.pending[st.nextCommit];
    var fatal := FatalAfter(st, r);
    var raised := st.fatal.None? && fatal.Some?;
    var moved := st.(
      fatal := fatal, stopLaunching := st.stopLaunching || raised, shutdown := st.shutdown || raised,
      pending := st.pending - {st.nextCommit}, cursor := r.clid + 1, nextCommit := st.nextCommit + 1,
      activeKeyframe := if st.activeKeyframe == Some(r.clid) then None else st.activeKeyframe);
    if fatal.Some? {
      var kept := moved.(free := if r.culist.Some? then st.free + [r.culist.value] else st.free);
      assert Commits(cfg, st, kept, diverted);
      assert Step(cfg, st, CommitNext(diverted), kept);
    } else {
      var culist := r.culist.value.(msgs := Submission(cfg, r).msgs);
      var logged := moved.(log := st.log + [Submission(cfg, r)]);
      var queued := st.submitted + [culist];
      var next := if cfg.asyncIo
                  then logged.(submitted := queued[diverted..], diverted := st.diverted + queued[..diverted])
                  else logged.(free := st.free + [culist]);
      assert Commits(cfg, st, next, diverted);
      assert Step(cfg, st, CommitNext(diverted), next);
    }
  }

  lemma LaunchHasOutcome(cfg: Config, st: State, rate: bool, stop: bool)
    requires Enabled(cfg, st, Launch(rate, stop))
    ensures HasOutcome(cfg, st, Launch(rate, stop))
  {
    var job := NewJob(cfg, st);
    var next := st.(
      queues := st.queues[0 := st.queues[0] + [job]], free := st.free[..|st.free| - 1],
      launched := st.launched + [job.culist.msgs], stopLaunching := st.stopLaunching || stop,
      inFlight := st.inFlight + 1, nextLaunch := st.nextLaunch + 1,
      activeKeyframe := if cfg.captures(st.nextLaunch) then Some(st.nextLaunch) else st.activeKeyframe);
    assert Step(cfg, st, Launch(rate, stop), next);
  }

  lemma ActHasOutcome(cfg: Config, st: State, s: nat)
    requires Enabled(cfg, st, Act(s))
    ensures HasOutcome(cfg, st, Act(s))
  {
    var out := st.workers[s].phase.out;
    var next := st.(
      workers := st.workers[s := Acted(st, s)], shutdown := st.shutdown || out.Fail? || out.Panic?,
      lost := if out.Panic? then st.lost + [st.workers[s].job.culist.box] else st.lost);
    assert Step(cfg, st, Act(s), next);
  }

  lemma WorkerHasOutcome(cfg: Config, st: State, a: Action)
    requires IsWorkerAction(a) && Enabled(cfg, st, a)
    ensures HasOutcome(cfg, st, a)
  {
    match a
    case Recv(s) =>
      assert Step(cfg, st, a, st.(queues := st.queues[s := st.queues[s][1..]],
                                  workers := st.workers[s := Busy(st.queues[s][0], Received)]));
    case Check(s) =>
      var job := st.workers[s].job;
      var w := if st.shutdown then Ends(job, Failure(ShuttingDown)) else Busy(job, Running);
      assert Step(cfg, st, a, st.(workers := st.workers[s := w]));
    case RunStep(s) =>
      var job := st.workers[s].job;
      var out := cfg.step(s, st.comps[s], job.clid, job.culist.msgs[..s]);
      var w := Busy(AfterStep(cfg, s, st.comps[s], job), Stepped(out));
      assert Step(cfg, st, a, st.(workers := st.workers[s := w], comps := st.comps[s := out.comp],
                                  seen := st.seen[s := job.clid + 1]));
    case Act(s) => ActHasOutcome(cfg, st, s);
    case Forward(s) =>
      assert Step(cfg, st, a, st.(queues := st.queues[s + 1 := st.queues[s + 1] + [st.workers[s].job]],
                                  workers := st.workers[s := Idle]));
    case Report(s) =>
      assert Step(cfg, st, a, st.(done := st.done + [st.workers[s].result],
                                  workers := st.workers[s := Idle]));
  }

  /** Every enabled action can be taken: the step relation leaves no action without outcome. */
  lemma EnabledActionsHaveOutcomes(cfg: Config, st: State, a: Action)
    requires Enabled(cfg, st, a)
    ensures HasOutcome(cfg, st, a)
  {
    if IsWorkerAction(a) {
      WorkerHasOutcome(cfg, st, a);
    } else {
      match a
      case Launch(rate, stop) => LaunchHasOutcome(cfg, st, rate, stop);
      case CommitNext(diverted) => CommitHasOutcome(cfg, st, diverted);
      case Receive =>
        assert Step(cfg, st, a, st.(mode := Committing, done := st.done[1..], inFlight := SaturatingDec(st.inFlight),
                                    pending := st.pending[st.done[0].clid := st.done[0]]));
      case Reclaim =>
        assert Step(cfg, st, a, st.(free := st.free + [st.submitted[0]], submitted := st.submitted[1..]));
      case WaitReclaim(_) =>
        assert Step(cfg, st, a, st.(free := st.free + [st.submitted[0]], submitted := st.submitted[1..]));
      case WaitRate(_) => assert Step(cfg, st, a, st);
      case Await(_, _) => assert Step(cfg, st, a, st.(mode := Waiting));
      case Exit => assert Step(cfg, st, a, st.(mode := Exited));
      case TimeOut(stop) => assert Step(cfg, st, a, st.(mode := Top, stopLaunching := st.stopLaunching || stop));
      case EndCommits(stop) => assert Step(cfg, st, a, st.(mode := Top, stopLaunching := st.stopLaunching || stop));
    }
  }

  lemma FirstState(cfg: Config) returns (first: State)
    requires cfg.Valid()
    ensures Init(cfg, first) && Reachable(cfg, first)
  {
    first := State(
      Top, false, None, 0, cfg.start, cfg.start, map[], None, cfg.start,
      seq(cfg.limit, b requires 0 <= b => CopperList(b, Blank(cfg))), [], [],
      false, seq(cfg.stages, s requires 0 <= s => []), seq(cfg.stages, s requires 0 <= s => Idle),
      cfg.init, [], [], [], seq(cfg.stages, s requires 0 <= s => cfg.start), []);
    StartReachable(cfg, first);
  }

  lemma StartReachable(cfg: Config, first: State)
    requires Init(cfg, first)
    ensures Reachable(cfg, first)
  {
    assert IsRun(cfg, Start(first));
  }

  lemma StepReachable(cfg: Config, st: State, a: Action, st': State)
    requires Reachable(cfg, st) && Step(cfg, st, a, st')
    ensures Reachable(cfg, st')
  {
    var run :| IsRun(cfg, run) && run.st == st;
    assert IsRun(cfg, Then(run, a, st'));
  }

  // ---------------------------------------------------------------- no send blocks

  /** The queues are never full when somebody wants to send. */
  lemma NoSendBlocks(cfg: Config, st: State)
    requires cfg.Valid() && Reachable(cfg, st)
    ensures forall rate, stop :: st.mode.Top? && Sampled(cfg, rate) && LaunchReady(cfg, st, rate) ==>
              Enabled(cfg, st, Launch(rate, stop))
    ensures forall s: nat :: s + 1 < cfg.stages && Holds(st, s, Forwarding) ==> Enabled(cfg, st, Forward(s))
  {
    InvariantReachable(cfg, st);
    StageHolds(Any, st.queues, st.workers, 0, cfg.stages);
    CountAny(st.queues[0]);
    forall s: nat | s + 1 < cfg.stages && Holds(st, s, Forwarding)
      ensures Enabled(cfg, st, Forward(s))
    {
      RoomToForward(cfg, st, s);
    }
  }

  lemma RoomToForward(cfg: Config, st: State, s: nat)
    requires Accounted(cfg, st) && s + 1 < cfg.stages && Holds(st, s, Forwarding)
    ensures Enabled(cfg, st, Forward(s))
  {
    TwoStagesHold(Any, st.queues, st.workers, s, s + 1, cfg.stages);
    CountAny(st.queues[s + 1]);
  }

  /** A list that stage `s` holds can be moved on. */
  lemma StageMove(cfg: Config, st: State, s: nat) returns (a: Action)
    requires Invariant(cfg, st) && s < cfg.stages && (st.queues[s] != [] || !st.workers[s].Idle?)
    ensures IsWorkerAction(a) && a.s == s && Enabled(cfg, st, a) && (a.Recv? <==> st.workers[s].Idle?)
  {
    assert StageOk(cfg, st, s);
    var w := st.workers[s];
    a := if w.Idle? then Recv(s) else if w.Reporting? then Report(s)
         else match w.phase
              case Received => Check(s)
              case Running => RunStep(s)
              case Stepped(_) => Act(s)
              case Forwarding => Forward(s);
    if w.Busy? && w.phase.Forwarding? {
      LastStageNeverForwards(cfg, st, s);
      RoomToForward(cfg, st, s);
    }
  }

  lemma LastStageNeverForwards(cfg: Config, st: State, s: nat)
    requires Invariant(cfg, st) && s < cfg.stages && Holds(st, s, Forwarding)
    ensures s + 1 < cfg.stages
  {
    assert StageOk(cfg, st, s);
  }

  // ---------------------------------------------------------------- the dispatcher never stalls

  /** While lists are in flight, a result is there or a worker can step. */
  lemma InFlightMoves(cfg: Config, st: State)
    requires Invariant(cfg, st) && st.inFlight > 0
    ensures st.done != [] || exists a :: IsWorkerAction(a) && Enabled(cfg, st, a)
  {
    if st.done == [] {
      var s := SomeStageHolds(Any, st.queues, st.workers, cfg.stages);
      CountAny(st.queues[s]);
      var a := StageMove(cfg, st, s);
    }
  }

  /** Without a rate limiter the dispatcher only waits with something in flight, and whenever it
      waits a result is already there or some worker can step. */
  lemma WaitingIsNeverInVain(cfg: Config, st: State)
    requires cfg.Valid() && !cfg.limited && cfg.limit > 0 && Reachable(cfg, st) && st.mode.Waiting?
    ensures st.inFlight > 0
    ensures Enabled(cfg, st, Receive) || exists a :: IsWorkerAction(a) && Enabled(cfg, st, a)
  {
    CountsReachable(cfg, st);
    ReachableMoves(cfg, st);
  }

  lemma ReachableMoves(cfg: Config, st: State)
    requires cfg.Valid() && Reachable(cfg, st) && st.inFlight > 0
    ensures st.done != [] || exists a :: IsWorkerAction(a) && Enabled(cfg, st, a)
  {
    InvariantReachable(cfg, st);
    InFlightMoves(cfg, st);
  }

  /** With nothing in flight, no error and an empty pool every list is with the list manager, so
      the I/O is asynchronous; the blocking reclaim has something to wait for exactly if the
      manager has not taken all of them into its own pool. */
  lemma ReclaimHasAListToWaitFor(cfg: Config, st: State)
    requires cfg.Valid() && cfg.limit > 0 && Reachable(cfg, st)
    requires st.mode.Top? && st.inFlight == 0 && st.fatal.None? && st.free == []
    ensures cfg.asyncIo && |st.submitted| + |st.diverted| == cfg.limit
    ensures st.submitted != [] <==> |st.diverted| < cfg.limit
  {
    CountsReachable(cfg, st);
    NothingInFlight(cfg, st);
  }

  /** The commit loop never meets a result it would panic on. */
  lemma CommitsNeverPanic(cfg: Config, st: State)
    requires cfg.Valid() && Reachable(cfg, st) && st.mode.Committing? && st.nextCommit in st.pending
    ensures forall diverted: nat :: (diverted <= if cfg.asyncIo then |st.submitted| + 1 else 0) ==>
              Enabled(cfg, st, CommitNext(diverted))
  {
    CollectedReachable(cfg, st);
    OnlyFailuresLackAList(cfg, st, st.nextCommit);
  }

  // ---------------------------------------------------------------- the two ways to get stuck

  /** Nothing in flight, an empty pool, and nothing the list manager will ever give back. */
  predicate Starved(st: State) {
    st.mode.Top? && st.inFlight == 0 && !Stopping(st) && st.free == [] && st.submitted == []
  }

  /** Blocked on the done channel with nothing in flight. */
  predicate Stranded(st: State) {
    st.mode.Waiting? && st.inFlight == 0
  }

  /** At the head of its loop the dispatcher has something to do unless it is starved. */
  lemma TopAlwaysMoves(cfg: Config, st: State)
    requires cfg.Valid() && cfg.limit > 0 && Reachable(cfg, st) && st.mode.Top?
    ensures (exists a :: !IsWorkerAction(a) && Enabled(cfg, st, a)) <==> !Starved(st)
  {
    NoSendBlocks(cfg, st);
    var a :=
      if LaunchReady(cfg, st, true) then Launch(true, false)
      else if st.inFlight > 0 then Await(true, true)
      else if Stopping(st) then Exit
      else if st.free == [] then WaitReclaim(true)
      else Await(true, true);
    assert Sampled(cfg, true);
    if !Starved(st) {
      assert !IsWorkerAction(a) && Enabled(cfg, st, a);
    }
  }

  lemma EmptyPipeline(cfg: Config, st: State, s: nat)
    requires Accounted(cfg, st) && st.inFlight == 0 && s < cfg.stages
    ensures st.queues[s] == [] && st.workers[s].Idle?
  {
    StageHolds(Any, st.queues, st.workers, s, cfg.stages);
    CountAny(st.queues[s]);
  }

  lemma NoWorkerMoves(cfg: Config, st: State, a: Action)
    requires Accounted(cfg, st) && st.inFlight == 0 && IsWorkerAction(a)
    ensures !Enabled(cfg, st, a)
  {
    if a.s < cfg.stages { EmptyPipeline(cfg, st, a.s); }
  }

  lemma StuckMeansStuck(cfg: Config, st: State, a: Action)
    requires Accounted(cfg, st) && Modes(cfg, st) && (Starved(st) || Stranded(st))
    ensures !Enabled(cfg, st, a)
  {
    CountAnyResult(st.done);
    if IsWorkerAction(a) { NoWorkerMoves(cfg, st, a); }
  }

  lemma CommittingMoves(cfg: Config, st: State)
    requires cfg.Valid() && Reachable(cfg, st) && st.mode.Committing?
    ensures exists a :: Enabled(cfg, st, a)
  {
    if st.nextCommit in st.pending {
      CommitsNeverPanic(cfg, st);
      assert Enabled(cfg, st, CommitNext(0));
    } else {
      assert Enabled(cfg, st, EndCommits(false));
    }
  }

  lemma MovesWhenNotStuck(cfg: Config, st: State)
    requires cfg.Valid() && cfg.limit > 0 && Reachable(cfg, st)
    requires !st.mode.Exited? && !Starved(st) && !Stranded(st)
    ensures exists a :: Enabled(cfg, st, a)
  {
    match st.mode
    case Top => TopAlwaysMoves(cfg, st);
    case Waiting =>
      ReachableMoves(cfg, st);
      assert st.done != [] ==> Enabled(cfg, st, Receive);
    case Committing => CommittingMoves(cfg, st);
  }

  /** Until the dispatcher has left its loop the executor is deadlocked exactly when it is starved
      of lists or stranded on the done channel. */
  lemma DeadlockedIff(cfg: Config, st: State)
    requires cfg.Valid() && cfg.limit > 0 && Reachable(cfg, st) && !st.mode.Exited?
    ensures (forall a :: !Enabled(cfg, st, a)) <==> Starved(st) || Stranded(st)
  {
    if Starved(st) || Stranded(st) {
      CountsReachable(cfg, st);
      forall a { StuckMeansStuck(cfg, st, a); }
    } else {
      MovesWhenNotStuck(cfg, st);
    }
  }

  /** No deadlock with synchronous list I/O and without a rate limiter: some action is enabled in
      every reachable state until the dispatcher has left its loop. */
  lemma NeverDeadlocked(cfg: Config, st: State)
    requires cfg.Valid() && !cfg.limited && !cfg.asyncIo && cfg.limit > 0
    requires Reachable(cfg, st) && !st.mode.Exited?
    ensures exists a :: Enabled(cfg, st, a)
  {
    if st.mode.Waiting? { WaitingIsNeverInVain(cfg, st); }
    if Starved(st) { ReclaimHasAListToWaitFor(cfg, st); }
    MovesWhenNotStuck(cfg, st);
  }

  ghost predicate MayWaitForNothing(cfg: Config) {
    exists st :: Reachable(cfg, st) && Stranded(st)
  }

  /** The limiter is not ready when the dispatcher first looks and ready when it looks again: it
      blocks on the channel with nothing in flight and nothing left to wake it up. */
  lemma RateLimiterCanStrand(cfg: Config, first: State)
    requires cfg.Valid() && cfg.limited && cfg.limit > 0 && Init(cfg, first)
    ensures Reachable(cfg, first.(mode := Waiting)) && Stranded(first.(mode := Waiting))
  {
    var stuck := first.(mode := Waiting);
    assert Step(cfg, first, Await(false, true), stuck);
    var run := Then(Start(first), Await(false, true), stuck);
    assert IsRun(cfg, run) && run.st == stuck;
  }

  /** Waiting with nothing in flight happens exactly in configurations with a rate limiter. */
  lemma WaitsForNothingExactlyWithARateLimiter(cfg: Config)
    requires cfg.Valid() && cfg.limit > 0
    ensures MayWaitForNothing(cfg) <==> cfg.limited
  {
    if cfg.limited {
      var first := FirstState(cfg);
      RateLimiterCanStrand(cfg, first);
    } else if MayWaitForNothing(cfg) {
      var st :| Reachable(cfg, st) && Stranded(st);
      WaitingIsNeverInVain(cfg, st);
      assert false;
    }
  }

  // ---------------------------------------------------------------- workers come to rest

  function Rest(w: Worker, budget: int): int {
    match w
    case Idle => 0
    case Reporting(_) => 1
    case Busy(_, phase) =>
      match phase
      case Received => budget - 1
      case Running => budget - 2
      case Stepped(_) => budget - 3
      case Forwarding => budget - 4
  }

  function Times(k: nat, budget: int): int {
    if k == 0 then 0 else Times(k - 1, budget) + budget
  }

  /** Worker steps still to come for the lists in the first `n` stages: at most five a stage. */
  function WorkLeft(queues: seq<seq<Job>>, workers: seq<Worker>, stages: nat, n: nat): int
    requires n <= |queues| && n <= |workers|
  {
    if n == 0 then 0
    else WorkLeft(queues, workers, stages, n - 1) +
         Times(|queues[n - 1]|, 5 * (stages - (n - 1))) + Rest(workers[n - 1], 5 * (stages - (n - 1)))
  }

  lemma {:induction false} WorkChanged(queues: seq<seq<Job>>, workers: seq<Worker>, queues': seq<seq<Job>>,
                                       workers': seq<Worker>, stages: nat, s: nat, n: nat)
    requires n <= |queues| == |queues'| && n <= |workers| == |workers'| && s < |queues| && s < |workers|
    requires forall t :: 0 <= t < n && t != s ==> queues'[t] == queues[t] && workers'[t] == workers[t]
    ensures var budget := 5 * (stages - s);
            WorkLeft(queues', workers', stages, n) - WorkLeft(queues, workers, stages, n) ==
            if s < n then Times(|queues'[s]|, budget) + Rest(workers'[s], budget)
                          - Times(|queues[s]|, budget) - Rest(workers[s], budget) else 0
  {
    if n > 0 { WorkChanged(queues, workers, queues', workers', stages, s, n - 1); }
  }

  lemma {:induction false} WorkIsNonNegative(queues: seq<seq<Job>>, workers: seq<Worker>, stages: nat, n: nat)
    requires n <= |queues| && n <= |workers| && n <= stages
    ensures WorkLeft(queues, workers, stages, n) >= 0
  {
    if n > 0 {
      WorkIsNonNegative(queues, workers, stages, n - 1);
      TimesIsNonNegative(|queues[n - 1]|, 5 * (stages - (n - 1)));
    }
  }

  lemma {:induction false} TimesIsNonNegative(k: nat, budget: nat)
    ensures Times(k, budget) >= 0
  {
    if k > 0 { TimesIsNonNegative(k - 1, budget); }
  }

  function Work(cfg: Config, st: State): int
    requires Shape(cfg, st)
  {
    WorkLeft(st.queues, st.workers, cfg.stages, cfg.stages)
  }

  lemma ForwardWearsDown(cfg: Config, st: State, s: nat, st': State)
    requires Shape(cfg, st) && Shape(cfg, st') && Enabled(cfg, st, Forward(s)) && Forwards(st, st', s)
    ensures Work(cfg, st') < Work(cfg, st)
  {
    WorkChanged(st.queues, st.workers, st.queues, st'.workers, cfg.stages, s, cfg.stages);
    WorkChanged(st.queues, st'.workers, st'.queues, st'.workers, cfg.stages, s + 1, cfg.stages);
  }

  lemma StageWearsDown(cfg: Config, st: State, a: Action, st': State)
    requires Shape(cfg, st) && IsWorkerAction(a) && !a.Forward? && Step(cfg, st, a, st')
    ensures a.s < cfg.stages && Shape(cfg, st')
    ensures forall t :: 0 <= t < cfg.stages && t != a.s ==>
              st'.queues[t] == st.queues[t] && st'.workers[t] == st.workers[t]
    ensures var budget := 5 * (cfg.stages - a.s);
            Times(|st'.queues[a.s]|, budget) + Rest(st'.workers[a.s], budget) <
            Times(|st.queues[a.s]|, budget) + Rest(st.workers[a.s], budget)
  {
  }

  /** Every worker step leaves less to do. */
  lemma WorkersWearDown(cfg: Config, st: State, a: Action, st': State)
    requires Shape(cfg, st) && IsWorkerAction(a) && Step(cfg, st, a, st')
    ensures Shape(cfg, st') && Work(cfg, st') < Work(cfg, st)
  {
    WorkersFrame(cfg, st, a, st');
    if a.Forward? {
      ForwardWearsDown(cfg, st, a.s, st');
    } else {
      StageWearsDown(cfg, st, a, st');
      WorkChanged(st.queues, st.workers, st'.queues, st'.workers, cfg.stages, a.s, cfg.stages);
    }
  }

  /** A stretch of a run in which only workers take steps. */
  predicate WorkersOnly(cfg: Config, start: State, stretch: Run) {
    match stretch
    case Start(st) => st == start
    case Then(before, a, st) =>
      WorkersOnly(cfg, start, before) && IsWorkerAction(a) && Step(cfg, before.st, a, st)
  }

  function Length(stretch: Run): nat {
    match stretch
    case Start(_) => 0
    case Then(before, _, _) => Length(before) + 1
  }

  lemma {:induction false} StretchKeeps(cfg: Config, start: State, stretch: Run)
    requires Invariant(cfg, start) && WorkersOnly(cfg, start, stretch)
    ensures Invariant(cfg, stretch.st) && SameDispatcher(start, stretch.st)
    ensures 0 <= Work(cfg, stretch.st) && Length(stretch) + Work(cfg, stretch.st) <= Work(cfg, start)
  {
    if stretch.Then? {
      StretchKeeps(cfg, start, stretch.before);
      InvariantNext(cfg, stretch.before.st, stretch.a, stretch.st);
      WorkersFrame(cfg, stretch.before.st, stretch.a, stretch.st);
      WorkersWearDown(cfg, stretch.before.st, stretch.a, stretch.st);
    }
    WorkIsNonNegative(stretch.st.queues, stretch.st.workers, cfg.stages, cfg.stages);
  }

  /** While the dispatcher waits, the workers can take only so many steps, however they are
      interleaved, and cannot stop before a result is in the channel. */
  lemma ResultsArrive(cfg: Config, start: State, stretch: Run)
    requires cfg.Valid() && !cfg.limited && cfg.limit > 0 && Reachable(cfg, start) && start.mode.Waiting?
    requires WorkersOnly(cfg, start, stretch)
    ensures Shape(cfg, start) && Length(stretch) <= Work(cfg, start)
    ensures Enabled(cfg, stretch.st, Receive) || exists a :: IsWorkerAction(a) && Enabled(cfg, stretch.st, a)
  {
    WaitingIsNeverInVain(cfg, start);
    InvariantReachable(cfg, start);
    StretchKeeps(cfg, start, stretch);
    InFlightMoves(cfg, stretch.st);
  }
}
