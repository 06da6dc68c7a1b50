/** Stopping: once the stop flag was seen or an error is recorded nothing new is launched, and
    every way to go on ends, after boundedly many steps, at the normal exit. */
module ExecutorDrain {
  import opened SequentialRuntime
  import opened Executor
  import opened ExecutorCounting
  import opened ExecutorModes
  import opened ExecutorInvariant
  import opened ExecutorProgress

  /** A stop flag seen at any of the places that look at it stops launching, and stopping is for
      good: nothing is launched any more. */
  lemma StoppingIsForGood(cfg: Config, st: State, a: Action, st': State)
    requires Step(cfg, st, a, st')
    ensures (a.Launch? || a.TimeOut? || a.EndCommits?) && a.stopSeen ==> st'.stopLaunching
    ensures Stopping(st) ==> Stopping(st') && st'.nextLaunch == st.nextLaunch && st'.launched == st.launched
  {
    if IsWorkerAction(a) { WorkersLeaveTheDispatcher(cfg, st, a, st'); }
  }

  lemma WorkersLeaveTheDispatcher(cfg: Config, st: State, a: Action, st': State)
    requires IsWorkerAction(a) && Step(cfg, st, a, st')
    ensures SameDispatcher(st, st')
  {
  }

  function Rank(mode: Mode): nat {
    match mode
    case Exited => 0
    case Waiting => 1
    case Top => 2
    case Committing => 3
  }

  /** A bound on the steps left once launching has stopped. */
  function Drain(cfg: Config, st: State): int
    requires Shape(cfg, st)
  {
    6 * Work(cfg, st) + 5 * |st.done| + 2 * |st.pending| + |st.submitted| + Rank(st.mode)
  }

  lemma WorkersDrain(cfg: Config, st: State, a: Action, st': State)
    requires Shape(cfg, st) && IsWorkerAction(a) && Step(cfg, st, a, st')
    ensures Shape(cfg, st') && Drain(cfg, st') < Drain(cfg, st)
  {
    WorkersWearDown(cfg, st, a, st');
    WorkersLeaveTheDispatcher(cfg, st, a, st');
    AtMostOneReport(cfg, st, a, st');
  }

  lemma AtMostOneReport(cfg: Config, st: State, a: Action, st': State)
    requires IsWorkerAction(a) && Step(cfg, st, a, st')
    ensures |st'.done| <= |st.done| + 1
  {
  }

  lemma CommitDrains(cfg: Config, st: State, diverted: nat, st': State)
    requires Shape(cfg, st) && Step(cfg, st, CommitNext(diverted), st')
    ensures Shape(cfg, st') && Drain(cfg, st') < Drain(cfg, st)
  {
    assert st'.pending.Keys == st.pending.Keys - {st.nextCommit};
    assert |st'.pending.Keys| == |st.pending.Keys| - 1;
    assert |st'.submitted| <= |st.submitted| + 1;
  }

  lemma ReceiveDrains(cfg: Config, st: State, st': State)
    requires Shape(cfg, st) && Step(cfg, st, Receive, st')
    ensures Shape(cfg, st') && Drain(cfg, st') < Drain(cfg, st)
  {
    assert st'.pending.Keys == st.pending.Keys + {st.done[0].clid};
    assert |st'.pending.Keys| <= |st.pending.Keys| + 1;
  }

  /** Every step brings the end nearer, except launching and what only a rate limiter causes. */
  lemma OtherStepsDrain(cfg: Config, st: State, a: Action, st': State)
    requires Shape(cfg, st) && Step(cfg, st, a, st') && !a.Launch? && !a.WaitRate? && !a.TimeOut?
    ensures Shape(cfg, st') && Drain(cfg, st') < Drain(cfg, st)
  {
    if IsWorkerAction(a) {
      WorkersDrain(cfg, st, a, st');
    } else {
      match a
      case CommitNext(diverted) => CommitDrains(cfg, st, diverted, st');
      case Receive => ReceiveDrains(cfg, st, st');
      case _ =>
    }
  }

  /** Once launching has stopped every step brings the end nearer. */
  lemma EveryStepDrains(cfg: Config, st: State, a: Action, st': State)
    requires Shape(cfg, st) && Stopping(st) && Step(cfg, st, a, st')
    ensures Shape(cfg, st') && Drain(cfg, st') < Drain(cfg, st)
  {
    OtherStepsDrain(cfg, st, a, st');
  }

  /** Once launching has stopped the dispatcher is never stuck, with or without a rate limiter. */
  lemma StoppingNeverSticks(cfg: Config, st: State)
    requires cfg.Valid() && Reachable(cfg, st) && Stopping(st) && !st.mode.Exited?
    ensures exists a :: Enabled(cfg, st, a)
  {
    CountsReachable(cfg, st);
    match st.mode
    case Top =>
      assert Sampled(cfg, true);
      assert if st.inFlight == 0 then Enabled(cfg, st, Exit) else Enabled(cfg, st, Await(true, true));
    case Waiting =>
      ReachableMoves(cfg, st);
      assert st.done != [] ==> Enabled(cfg, st, Receive);
    case Committing => CommittingMoves(cfg, st);
  }

  /** `run` goes on from `start`. */
  predicate Continues(cfg: Config, start: State, run: Run) {
    match run
    case Start(st) => st == start
    case Then(before, a, st) => Continues(cfg, start, before) && Step(cfg, before.st, a, st)
  }

  lemma {:induction false} ContinuationDrains(cfg: Config, start: State, run: Run)
    requires Invariant(cfg, start) && Stopping(start) && Continues(cfg, start, run)
    ensures Invariant(cfg, run.st) && Stopping(run.st) && run.st.launched == start.launched
    ensures 0 <= Drain(cfg, run.st) && Length(run) + Drain(cfg, run.st) <= Drain(cfg, start)
  {
    if run.Then? {
      ContinuationDrains(cfg, start, run.before);
      InvariantNext(cfg, run.before.st, run.a, run.st);
      StoppingIsForGood(cfg, run.before.st, run.a, run.st);
      EveryStepDrains(cfg, run.before.st, run.a, run.st);
    }
    WorkIsNonNegative(run.st.queues, run.st.workers, cfg.stages, cfg.stages);
  }

  lemma {:induction false} ContinuationIsReachable(cfg: Config, start: State, run: Run)
    requires Reachable(cfg, start) && Continues(cfg, start, run)
    ensures Reachable(cfg, run.st)
  {
    if run.Then? {
      ContinuationIsReachable(cfg, start, run.before);
      var earlier :| IsRun(cfg, earlier) && earlier.st == run.before.st;
      assert IsRun(cfg, Then(earlier, run.a, run.st));
    }
  }

  /** After a stop or an error, however the threads are interleaved: nothing more is launched, no
      continuation has more than `Drain` steps, and one that cannot go on has left the loop, with
      every launched list committed. */
  lemma StoppingDrains(cfg: Config, start: State, run: Run)
    requires cfg.Valid() && Reachable(cfg, start) && Stopping(start) && Continues(cfg, start, run)
    ensures Shape(cfg, start) && Length(run) <= Drain(cfg, start)
    ensures run.st.launched == start.launched
    ensures (forall a :: !Enabled(cfg, run.st, a)) ==>
              run.st.mode.Exited? && run.st.nextCommit == run.st.nextLaunch
  {
    InvariantReachable(cfg, start);
    ContinuationDrains(cfg, start, run);
    ContinuationIsReachable(cfg, start, run);
    StuckWhenStopping(cfg, run.st);
  }

  lemma StuckWhenStopping(cfg: Config, st: State)
    requires cfg.Valid() && Reachable(cfg, st) && Stopping(st)
    ensures (forall a :: !Enabled(cfg, st, a)) ==> st.mode.Exited? && st.nextCommit == st.nextLaunch
  {
    if st.mode.Exited? {
      CountsReachable(cfg, st);
      NothingInFlight(cfg, st);
    } else {
      StoppingNeverSticks(cfg, st);
    }
  }
}
