/** Asynchronous list I/O can starve the dispatcher: the list manager takes serialised lists back
    into a pool of its own, from which they never return. */
module ExecutorStarvation {
  import opened SequentialRuntime
  import opened Executor
  import opened ExecutorCounting
  import opened ExecutorModes
  import opened ExecutorStages
  import opened ExecutorContents
  import opened ExecutorInvariant
  import opened ExecutorProgress
  import opened ExecutorDrain
  import opened ExecutorLiveness

  ghost predicate MayStarve(cfg: Config) {
    exists st :: Reachable(cfg, st) && Starved(st)
  }

  lemma FewerFail(cfg: Config, lo: nat, hi: nat, more: nat)
    requires cfg.Valid() && cfg.start <= lo && hi <= more && NoneFails(cfg, lo, more)
    ensures NoneFails(cfg, lo, hi)
  {
  }

  /** A starved dispatcher has submitted, and lost to the manager's pool, as many lists as there
      are, so none of the first ones fails. */
  lemma StarvedHasSubmittedAll(cfg: Config, st: State)
    requires cfg.Valid() && cfg.limit > 0 && Reachable(cfg, st) && Starved(st)
    ensures cfg.asyncIo && |st.diverted| == cfg.limit && NoneFails(cfg, cfg.start, cfg.start + cfg.limit)
  {
    ReclaimHasAListToWaitFor(cfg, st);
    CountsReachable(cfg, st);
    LoggedReachable(cfg, st);
    SubmittedDoNotFail(cfg, st.log, st.launched);
    FewerFail(cfg, cfg.start, cfg.start + cfg.limit, cfg.start + |st.log|);
  }

  // ---------------------------------------------------------------- a run that starves

  /** Nobody stops, every list submitted so far was diverted at once, and the dispatcher has not
      gone to wait with nothing in flight. */
  ghost predicate Wasting(cfg: Config, st: State) {
    st.fatal.None? && !st.stopLaunching && st.submitted == [] && !Stranded(st) &&
    |st.free| + st.nextLaunch == cfg.start + cfg.limit
  }

  /** The actions of the wasting run. */
  predicate Wastes(st: State, a: Action) {
    match a
    case Launch(_, stop) => !stop
    case Await(_, _) => st.inFlight > 0
    case Receive => true
    case CommitNext(diverted) => diverted == |st.submitted| + 1
    case EndCommits(stop) => !stop
    case _ => IsWorkerAction(a)
  }

  lemma WastingMoves(cfg: Config, st: State) returns (a: Action)
    requires cfg.Valid() && cfg.asyncIo && Reachable(cfg, st) && Wasting(cfg, st) && !Starved(st)
    ensures Wastes(st, a) && Enabled(cfg, st, a)
  {
    CountsReachable(cfg, st);
    match st.mode
    case Top =>
      NoSendBlocks(cfg, st);
      if st.inFlight == 0 { NothingInFlight(cfg, st); }
      assert Sampled(cfg, true);
      a := if LaunchReady(cfg, st, true) then Launch(true, false) else Await(true, true);
    case Waiting =>
      if st.done != [] {
        a := Receive;
      } else {
        ReachableMoves(cfg, st);
        a :| IsWorkerAction(a) && Enabled(cfg, st, a);
      }
    case Committing =>
      if st.nextCommit in st.pending {
        CommitsNeverPanic(cfg, st);
        a := CommitNext(|st.submitted| + 1);
      } else {
        a := EndCommits(false);
      }
  }

  lemma FailuresShutDown(cfg: Config, st: State, k: nat)
    requires cfg.Valid() && Collected(cfg, st) && k in st.pending && st.pending[k].outcome.Failure?
    ensures st.shutdown
  {
    assert ResultOk(cfg, st.launched, st.shutdown, st.pending[k]);
  }

  lemma NoFlag(cfg: Config, st: State)
    requires cfg.Valid() && Reachable(cfg, st) && NoneFails(cfg, cfg.start, st.nextLaunch)
    ensures !st.shutdown
  {
    LoggedReachable(cfg, st);
  }

  /** As long as no launched list fails there is no failure to commit. */
  lemma NothingFailedYet(cfg: Config, st: State)
    requires cfg.Valid() && Reachable(cfg, st) && NoneFails(cfg, cfg.start, st.nextLaunch)
    requires st.nextCommit in st.pending && st.fatal.None?
    ensures FatalAfter(st, st.pending[st.nextCommit]).None?
  {
    NoFlag(cfg, st);
    CursorAgrees(cfg, st);
    CollectedReachable(cfg, st);
    if st.pending[st.nextCommit].outcome.Failure? { FailuresShutDown(cfg, st, st.nextCommit); }
  }

  lemma CursorAgrees(cfg: Config, st: State)
    requires cfg.Valid() && Reachable(cfg, st) && st.nextCommit in st.pending
    ensures st.cursor == st.pending[st.nextCommit].clid == st.nextCommit
  {
    CountsReachable(cfg, st);
  }

  /** What the wasting run has left: its lists to launch and the steps of those launched. */
  function Left(cfg: Config, st: State): int
    requires Shape(cfg, st)
  {
    Drain(cfg, st) + Times(|st.free|, PerLaunch(cfg))
  }

  lemma WastingKeeps(cfg: Config, st: State, a: Action, st': State)
    requires cfg.asyncIo && Wasting(cfg, st) && Wastes(st, a) && Step(cfg, st, a, st')
    requires a.CommitNext? ==> FatalAfter(st, st.pending[st.nextCommit]).None?
    ensures Wasting(cfg, st') && |st'.free| == if a.Launch? then |st.free| - 1 else |st.free|
  {
    if IsWorkerAction(a) { WorkersLeaveTheDispatcher(cfg, st, a, st'); }
  }

  lemma WastingGoesOn(cfg: Config, st: State, a: Action, st': State)
    requires cfg.Valid() && Shape(cfg, st) && cfg.asyncIo && Wasting(cfg, st) && Wastes(st, a) && Step(cfg, st, a, st')
    requires a.CommitNext? ==> FatalAfter(st, st.pending[st.nextCommit]).None?
    ensures Shape(cfg, st') && Wasting(cfg, st') && Left(cfg, st') < Left(cfg, st)
  {
    WastingKeeps(cfg, st, a, st');
    if a.Launch? {
      LaunchCosts(cfg, st, a.rateReady, a.stopSeen, st');
    } else {
      OtherStepsDrain(cfg, st, a, st');
    }
  }

  lemma {:induction false} WastingStarves(cfg: Config, st: State) returns (starved: State)
    requires cfg.Valid() && cfg.asyncIo && Reachable(cfg, st) && Shape(cfg, st) && Wasting(cfg, st)
    requires NoneFails(cfg, cfg.start, cfg.start + cfg.limit)
    ensures Reachable(cfg, starved) && Starved(starved)
    decreases Left(cfg, st)
  {
    if Starved(st) { return st; }
    var a := WastingMoves(cfg, st);
    FewerFail(cfg, cfg.start, st.nextLaunch, cfg.start + cfg.limit);
    if a.CommitNext? { NothingFailedYet(cfg, st); }
    EnabledActionsHaveOutcomes(cfg, st, a);
    var next :| Step(cfg, st, a, next);
    StepReachable(cfg, st, a, next);
    WastingGoesOn(cfg, st, a, next);
    WorkIsNonNegative(next.queues, next.workers, cfg.stages, cfg.stages);
    TimesIsNonNegative(|next.free|, PerLaunch(cfg));
    starved := WastingStarves(cfg, next);
  }

  // ---------------------------------------------------------------- exactly when

  /** The dispatcher can starve exactly if list I/O is asynchronous and none of the first lists, as
      many as there are, fails: each is then committed, serialised and lost to the manager's pool. */
  lemma StarvesExactlyWithAsyncIo(cfg: Config)
    requires cfg.Valid() && cfg.limit > 0
    ensures MayStarve(cfg) <==> cfg.asyncIo && NoneFails(cfg, cfg.start, cfg.start + cfg.limit)
  {
    if MayStarve(cfg) {
      var st :| Reachable(cfg, st) && Starved(st);
      StarvedHasSubmittedAll(cfg, st);
    }
    if cfg.asyncIo && NoneFails(cfg, cfg.start, cfg.start + cfg.limit) {
      var first := FirstState(cfg);
      var starved := WastingStarves(cfg, first);
    }
  }

  ghost predicate MayDeadlock(cfg: Config) {
    exists st {:trigger Reachable(cfg, st)} ::
      Reachable(cfg, st) && !st.mode.Exited? && forall a :: !Enabled(cfg, st, a)
  }

  /** The executor can deadlock exactly with a rate limiter, or with asynchronous list I/O if the
      first lists do not fail. */
  lemma DeadlocksExactly(cfg: Config)
    requires cfg.Valid() && cfg.limit > 0
    ensures MayDeadlock(cfg) <==>
            cfg.limited || (cfg.asyncIo && NoneFails(cfg, cfg.start, cfg.start + cfg.limit))
  {
    WaitsForNothingExactlyWithARateLimiter(cfg);
    StarvesExactlyWithAsyncIo(cfg);
    if MayDeadlock(cfg) {
      var st :| Reachable(cfg, st) && !st.mode.Exited? && forall a :: !Enabled(cfg, st, a);
      DeadlockedIff(cfg, st);
    }
    if MayStarve(cfg) {
      var st :| Reachable(cfg, st) && Starved(st);
      DeadlockedIff(cfg, st);
    }
    if MayWaitForNothing(cfg) {
      var st :| Reachable(cfg, st) && Stranded(st);
      DeadlockedIff(cfg, st);
    }
  }
}
