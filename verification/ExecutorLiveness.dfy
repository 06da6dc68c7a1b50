/** Without a rate limiter every launched list is committed after boundedly many steps, whatever
    the scheduler does. */
module ExecutorLiveness {
  import opened SequentialRuntime
  import opened Executor
  import opened ExecutorCounting
  import opened ExecutorAccounting
  import opened ExecutorModes
  import opened ExecutorPool
  import opened ExecutorInvariant
  import opened ExecutorProgress
  import opened ExecutorDrain

  function PerLaunch(cfg: Config): nat {
    30 * cfg.stages + 1
  }

  /** A bound on the steps until list `id` is committed: those of the lists already launched, and
      those of the lists that can be launched while `id` is not committed. */
  function CommitBound(cfg: Config, st: State, id: nat): int
    requires Shape(cfg, st) && st.nextLaunch <= id + cfg.limit
  {
    Drain(cfg, st) + Times(id + cfg.limit - st.nextLaunch, PerLaunch(cfg))
  }

  lemma LaunchCosts(cfg: Config, st: State, rate: bool, stop: bool, st': State)
    requires Shape(cfg, st) && Step(cfg, st, Launch(rate, stop), st') && cfg.stages > 0
    ensures Shape(cfg, st') && Drain(cfg, st') == Drain(cfg, st) + 30 * cfg.stages
  {
    WorkChanged(st.queues, st.workers, st'.queues, st'.workers, cfg.stages, 0, cfg.stages);
  }

  /** A launch needs a free list, so fewer lists are uncommitted than there are. */
  lemma LaunchHasRoom(cfg: Config, st: State, rate: bool, stop: bool)
    requires Accounted(cfg, st) && Pooled(cfg, st) && Enabled(cfg, st, Launch(rate, stop))
    ensures st.nextLaunch - st.nextCommit < cfg.limit
  {
  }

  /** While `id` is uncommitted every step of any thread lowers the bound. */
  lemma EveryStepCounts(cfg: Config, st: State, a: Action, st': State, id: nat)
    requires Accounted(cfg, st) && Pooled(cfg, st) && Step(cfg, st, a, st')
    requires !a.WaitRate? && !a.TimeOut? && st.nextCommit <= id
    ensures Shape(cfg, st') && st'.nextLaunch <= id + cfg.limit
    ensures CommitBound(cfg, st', id) < CommitBound(cfg, st, id)
  {
    if a.Launch? {
      LaunchCosts(cfg, st, a.rateReady, a.stopSeen, st');
      LaunchHasRoom(cfg, st, a.rateReady, a.stopSeen);
    } else {
      OtherStepsDrain(cfg, st, a, st');
      OnlyLaunchesLaunch(cfg, st, a, st');
    }
  }

  lemma OnlyLaunchesLaunch(cfg: Config, st: State, a: Action, st': State)
    requires Step(cfg, st, a, st') && !a.Launch?
    ensures st'.nextLaunch == st.nextLaunch
  {
  }

  lemma BoundIsNonNegative(cfg: Config, st: State, id: nat)
    requires Shape(cfg, st) && st.nextLaunch <= id + cfg.limit
    ensures CommitBound(cfg, st, id) >= 0
  {
    WorkIsNonNegative(st.queues, st.workers, cfg.stages, cfg.stages);
    TimesIsNonNegative(id + cfg.limit - st.nextLaunch, PerLaunch(cfg));
  }

  lemma NeverBackwards(cfg: Config, st: State, a: Action, st': State)
    requires Step(cfg, st, a, st')
    ensures st.nextLaunch <= st'.nextLaunch && st.nextCommit <= st'.nextCommit
  {
  }

  lemma {:induction false} ContinuationCounts(cfg: Config, start: State, run: Run, id: nat)
    requires Invariant(cfg, start) && !cfg.limited && Continues(cfg, start, run)
    requires start.nextCommit <= id < start.nextLaunch
    ensures Invariant(cfg, run.st) && start.nextLaunch <= run.st.nextLaunch
    ensures run.st.nextCommit <= id ==>
              Length(run) + CommitBound(cfg, run.st, id) <= CommitBound(cfg, start, id)
  {
    if run.Then? {
      ContinuationCounts(cfg, start, run.before, id);
      InvariantNext(cfg, run.before.st, run.a, run.st);
      NeverBackwards(cfg, run.before.st, run.a, run.st);
      if run.st.nextCommit <= id { EveryStepCounts(cfg, run.before.st, run.a, run.st, id); }
    }
  }

  /** Without a rate limiter every launched list is committed: a continuation of more than
      `CommitBound` steps has committed it, however the threads are interleaved, and one that has
      not can go on. */
  lemma EveryLaunchedListIsCommitted(cfg: Config, start: State, run: Run, id: nat)
    requires cfg.Valid() && !cfg.limited && cfg.limit > 0 && Reachable(cfg, start)
    requires start.nextCommit <= id < start.nextLaunch && Continues(cfg, start, run)
    ensures Shape(cfg, start) && start.nextLaunch <= id + cfg.limit
    ensures Length(run) > CommitBound(cfg, start, id) ==> run.st.nextCommit > id
    ensures run.st.nextCommit <= id ==> exists a :: Enabled(cfg, run.st, a)
  {
    InvariantReachable(cfg, start);
    ContinuationCounts(cfg, start, run, id);
    ContinuationIsReachable(cfg, start, run);
    if run.st.nextCommit <= id {
      BoundIsNonNegative(cfg, run.st, id);
      UncommittedMoves(cfg, run.st);
    }
  }

  lemma UncommittedMoves(cfg: Config, st: State)
    requires cfg.Valid() && !cfg.limited && cfg.limit > 0 && Reachable(cfg, st) && st.nextCommit < st.nextLaunch
    ensures exists a :: Enabled(cfg, st, a)
  {
    CountsReachable(cfg, st);
    if st.inFlight == 0 && !st.mode.Committing? { NothingInFlight(cfg, st); }
    MovesWhenNotStuck(cfg, st);
  }
}
