/** When a list is dropped: only because a younger list failed at a stage the older one had
    already passed, while both were in flight. */
module ExecutorOvertaking {
  import opened Wrappers
  import opened SequentialRuntime
  import opened Executor
  import opened ExecutorCounting
  import opened ExecutorAccounting
  import opened ExecutorModes
  import opened ExecutorPool
  import opened ExecutorStages
  import opened ExecutorOrder
  import opened ExecutorContents
  import opened ExecutorInvariant

  /** At most one of the lists `j` to `k` captures a keyframe, so they fit in flight together. */
  ghost predicate OneCapture(cfg: Config, j: nat, k: nat) {
    forall a: nat, b: nat :: j <= a < b <= k && cfg.captures(a) ==> !cfg.captures(b)
  }

  /** List `k` can fail at stage `s` while the older list `j` is past it and not finished. */
  ghost predicate Overtakes(cfg: Config, j: nat, k: nat, s: nat)
    requires cfg.Valid() && cfg.start <= j
  {
    j < k && k - j < cfg.limit && s + 1 < cfg.stages && FailsAt(cfg, k, s) &&
    WalkAt(cfg, j, s + 1).Walking? && OneCapture(cfg, j, k)
  }

  ghost predicate CanBeDropped(cfg: Config, j: nat)
    requires cfg.Valid() && cfg.start <= j
  {
    exists k: nat, s: nat {:trigger Overtakes(cfg, j, k, s)} :: Overtakes(cfg, j, k, s)
  }

  /** List `j` comes before every list that fails, and a younger one can overtake it with its
      failure. */
  ghost predicate Overtaken(cfg: Config, j: nat)
    requires cfg.Valid() && cfg.start <= j
  {
    NoneFails(cfg, cfg.start, j) && CanBeDropped(cfg, j)
  }

  // ---------------------------------------------------------------- what is behind a dropped list

  /** List `k` has raised the shutdown flag at stage `s`. */
  ghost predicate RaisedBy(cfg: Config, st: State, k: nat, s: nat)
    requires cfg.Valid() && Shape(cfg, st)
  {
    cfg.start <= k < st.nextLaunch && s < cfg.stages && FailsAt(cfg, k, s) && k < st.seen[s]
  }

  ghost predicate Raised(cfg: Config, st: State)
    requires cfg.Valid() && Shape(cfg, st)
  {
    st.shutdown ==> exists k: nat, s: nat {:trigger RaisedBy(cfg, st, k, s)} :: RaisedBy(cfg, st, k, s)
  }

  /** A list can only be dropped after an older one has failed, or when it is overtaken. */
  ghost predicate MayDrop(cfg: Config, id: nat)
    requires cfg.Valid() && cfg.start <= id
  {
    !NoneFails(cfg, cfg.start, id) || CanBeDropped(cfg, id)
  }

  ghost predicate Explained(cfg: Config, r: WorkerResult)
    requires cfg.Valid()
  {
    r.outcome == Failure(ShuttingDown) && cfg.start <= r.clid ==> MayDrop(cfg, r.clid)
  }

  ghost predicate AllExplained(cfg: Config, st: State)
    requires cfg.Valid()
  {
    (forall s :: 0 <= s < |st.workers| && st.workers[s].Reporting? ==> Explained(cfg, st.workers[s].result)) &&
    (forall i :: 0 <= i < |st.done| ==> Explained(cfg, st.done[i])) &&
    (forall k :: k in st.pending ==> Explained(cfg, st.pending[k]))
  }

  ghost predicate Traced(cfg: Config, st: State)
    requires cfg.Valid() && Shape(cfg, st)
  {
    Raised(cfg, st) && (st.fatal.None? ==> AllExplained(cfg, st)) && ErrorTraced(cfg, st)
  }

  ghost predicate ErrorTraced(cfg: Config, st: State)
    requires cfg.Valid()
  {
    st.fatal == Some(ShuttingDown) ==> Overtaken(cfg, cfg.start + |st.log|)
  }

  // ---------------------------------------------------------------- dropping is explained

  lemma WalksEarlier(cfg: Config, id: nat, s: nat, t: nat)
    requires cfg.Valid() && cfg.start <= id && s <= t <= cfg.stages && WalkAt(cfg, id, t).Walking?
    ensures WalkAt(cfg, id, s).Walking?
  {
    if WalkAt(cfg, id, s).Stopped? { StoppedStays(cfg, CompsBefore(cfg, id), id, s, t); }
  }

  lemma FailsAtStopsThere(cfg: Config, id: nat, s: nat)
    requires cfg.Valid() && cfg.start <= id && FailsAt(cfg, id, s)
    ensures s < cfg.stages && WalkAt(cfg, id, s + 1).Stopped? && Fails(cfg, id)
  {
    StopsWhereItEnds(cfg, CompsBefore(cfg, id), id, cfg.stages);
  }

  lemma HeldIsUncommitted(cfg: Config, st: State, t: nat)
    requires Accounted(cfg, st) && t < cfg.stages && st.workers[t].Busy?
    ensures st.nextCommit <= st.workers[t].job.clid < st.nextLaunch
  {
    var id := st.workers[t].job.clid;
    StageHolds(Id(id), st.queues, st.workers, t, cfg.stages);
    assert Places(cfg, st, id) > 0;
  }

  /** A worker holds the job `j`, and will drop it if the flag is up. */
  ghost predicate Droppable(cfg: Config, st: State, t: nat)
    requires cfg.Valid() && Shape(cfg, st)
  {
    t < cfg.stages && st.workers[t].Busy? && Faithful(cfg, st, t) &&
    (st.workers[t].phase.Received? ||
     (st.workers[t].phase.Stepped? && st.workers[t].phase.out.Continue?))
  }

  lemma DroppableWalks(cfg: Config, st: State, t: nat)
    requires cfg.Valid() && Shape(cfg, st) && Droppable(cfg, st, t)
    ensures cfg.start <= st.workers[t].job.clid
    ensures WalkAt(cfg, st.workers[t].job.clid, if st.workers[t].phase.Received? then t else t + 1).Walking?
  {
  }

  ghost predicate AllOrdered(cfg: Config, st: State)
    requires Shape(cfg, st)
  {
    forall u: nat {:trigger Ordered(cfg, st, u)} :: u < cfg.stages ==> Ordered(cfg, st, u)
  }

  /** A stage that the held list is still in front of, or has only just been stepped by, has not
      stepped a younger list. */
  lemma NotSeenBeyond(cfg: Config, st: State, t: nat, s: nat)
    requires cfg.Valid() && Shape(cfg, st) && t <= s < cfg.stages && AllOrdered(cfg, st) && st.workers[t].Busy?
    ensures st.seen[s] <= st.workers[t].job.clid + if s == t && !BeforeStep(st.workers[t]) then 1 else 0
  {
    assert Ordered(cfg, st, t);
    if BeforeStep(st.workers[t]) {
      AheadOfBusy(st.workers[t], st.queues[t]);
      SeenFalls(cfg, st, t, s);
    } else if t < s {
      assert Ordered(cfg, st, t + 1);
      SeenFalls(cfg, st, t + 1, s);
    }
  }

  /** With the flag raised by `k` at `s`, a list that is dropped without an older one failing has
      passed stage `s` before `k` got there. */
  lemma DroppedIsPast(cfg: Config, st: State, t: nat, k: nat, s: nat)
    requires cfg.Valid() && Shape(cfg, st) && Droppable(cfg, st, t) && AllOrdered(cfg, st)
    requires RaisedBy(cfg, st, k, s) && NoneFails(cfg, cfg.start, st.workers[t].job.clid)
    ensures st.workers[t].job.clid < k && s + 1 < cfg.stages && WalkAt(cfg, st.workers[t].job.clid, s + 1).Walking?
  {
    var j := st.workers[t].job.clid;
    DroppableWalks(cfg, st, t);
    FailsAtStopsThere(cfg, k, s);
    if t <= s { NotSeenBeyond(cfg, st, t, s); }
    WalksEarlier(cfg, j, s + 1, if st.workers[t].phase.Received? then t else t + 1);
  }

  lemma UncommittedFitTogether(cfg: Config, st: State, j: nat, k: nat)
    requires Pooled(cfg, st) && OneKeyframe(cfg, st) && st.nextCommit <= j && k < st.nextLaunch && j <= k
    ensures k - j < cfg.limit && OneCapture(cfg, j, k)
  {
  }

  lemma DropExplained(cfg: Config, st: State, t: nat)
    requires cfg.Valid() && Accounted(cfg, st) && Pooled(cfg, st) && OneKeyframe(cfg, st)
    requires Droppable(cfg, st, t) && AllOrdered(cfg, st) && Raised(cfg, st) && st.shutdown
    ensures cfg.start <= st.workers[t].job.clid
    ensures MayDrop(cfg, st.workers[t].job.clid)
  {
    var j := st.workers[t].job.clid;
    DroppableWalks(cfg, st, t);
    if NoneFails(cfg, cfg.start, j) {
      var k: nat, s: nat :| RaisedBy(cfg, st, k, s);
      DroppedIsPast(cfg, st, t, k, s);
      HeldIsUncommitted(cfg, st, t);
      UncommittedFitTogether(cfg, st, j, k);
      assert Overtakes(cfg, j, k, s);
    }
  }

  // ---------------------------------------------------------------- preservation

  lemma AllOrderedFrom(cfg: Config, st: State)
    requires cfg.Valid() && Shape(cfg, st) && StagesOk(cfg, st)
    ensures AllOrdered(cfg, st)
  {
    forall u: nat | u < cfg.stages
      ensures Ordered(cfg, st, u)
    {
      assert StageOk(cfg, st, u);
    }
  }

  lemma RaisedKept(cfg: Config, st: State, st': State)
    requires cfg.Valid() && Shape(cfg, st) && Shape(cfg, st') && Raised(cfg, st) && st'.shutdown == st.shutdown
    requires st.nextLaunch <= st'.nextLaunch && forall s :: 0 <= s < cfg.stages ==> st.seen[s] <= st'.seen[s]
    ensures Raised(cfg, st')
  {
    if st.shutdown {
      var k: nat, s: nat :| RaisedBy(cfg, st, k, s);
      assert RaisedBy(cfg, st', k, s);
    }
  }

  lemma ActRaises(cfg: Config, st: State, s: nat, st': State)
    requires cfg.Valid() && Shape(cfg, st) && Enabled(cfg, st, Act(s)) && Acts(st, st', s)
    requires Ordered(cfg, st, s) && Faithful(cfg, st, s) && st.nextLaunch == cfg.start + |st.launched|
    requires Raised(cfg, st)
    ensures Shape(cfg, st') && Raised(cfg, st')
  {
    var job, out := st.workers[s].job, st.workers[s].phase.out;
    if out.Fail? || out.Panic? {
      StopsHere(cfg, st.launched, s, job, out);
      assert RaisedBy(cfg, st', job.clid, s);
    } else {
      RaisedKept(cfg, st, st');
    }
  }

  lemma SeenGrows(cfg: Config, st: State, a: Action, st': State)
    requires Shape(cfg, st) && Step(cfg, st, a, st') && (a.RunStep? ==> Ordered(cfg, st, a.s))
    ensures Shape(cfg, st') && st.nextLaunch <= st'.nextLaunch
    ensures forall s :: 0 <= s < cfg.stages ==> st.seen[s] <= st'.seen[s]
  {
    if a.RunStep? { AheadOfBusy(st.workers[a.s], st.queues[a.s]); }
  }

  lemma RaisedNext(cfg: Config, st: State, a: Action, st': State)
    requires cfg.Valid() && Accounted(cfg, st) && StagesOk(cfg, st) && Settled(cfg, st)
    requires Raised(cfg, st) && Step(cfg, st, a, st')
    ensures Shape(cfg, st') && Raised(cfg, st')
  {
    if a.Act? {
      assert StageOk(cfg, st, a.s);
      ActRaises(cfg, st, a.s, st');
    } else {
      if a.RunStep? { assert StageOk(cfg, st, a.s); }
      SeenGrows(cfg, st, a, st');
      if a.CommitNext? { CommitKeepsFlag(cfg, st, a.diverted, st'); } else { FlagKept(cfg, st, a, st'); }
      RaisedKept(cfg, st, st');
    }
  }

  lemma CommitKeepsFlag(cfg: Config, st: State, diverted: nat, st': State)
    requires cfg.Valid() && Accounted(cfg, st) && Settled(cfg, st) && Step(cfg, st, CommitNext(diverted), st')
    ensures st'.shutdown == st.shutdown
  {
    LoggedCommit(cfg, st, diverted, st');
  }

  /** The action drops the list its worker holds. */
  predicate Drops(st: State, a: Action) {
    st.shutdown && (a.Check? || a.Act?) && a.s < |st.workers| && st.workers[a.s].Busy? &&
    (a.Act? ==> st.workers[a.s].phase.Stepped? && st.workers[a.s].phase.out.Continue?)
  }

  lemma WorkerResults(cfg: Config, st: State, a: Action, st': State)
    requires Shape(cfg, st) && IsWorkerAction(a) && Step(cfg, st, a, st')
    ensures a.s < cfg.stages && |st'.workers| == cfg.stages
    ensures forall t :: 0 <= t < cfg.stages && st'.workers[t].Reporting? && t != a.s ==> st'.workers[t] == st.workers[t]
    ensures st'.workers[a.s].Reporting? && st'.workers[a.s].result.outcome == Failure(ShuttingDown) ==>
              Drops(st, a) && st'.workers[a.s].result.clid == st.workers[a.s].job.clid
  {
  }

  /** The workers' results: only dropping makes a new one to explain. */
  lemma WorkerExplained(cfg: Config, st: State, a: Action, st': State)
    requires cfg.Valid() && Shape(cfg, st) && IsWorkerAction(a) && Step(cfg, st, a, st') && AllExplained(cfg, st)
    requires Drops(st, a) ==> cfg.start <= st.workers[a.s].job.clid && MayDrop(cfg, st.workers[a.s].job.clid)
    ensures AllExplained(cfg, st')
  {
    WorkersLists(cfg, st, a, st');
    WorkerResults(cfg, st, a, st');
  }

  lemma DropsExplained(cfg: Config, st: State, a: Action)
    requires Invariant(cfg, st) && Raised(cfg, st) && Enabled(cfg, st, a) && Drops(st, a)
    ensures cfg.start <= st.workers[a.s].job.clid && MayDrop(cfg, st.workers[a.s].job.clid)
  {
    assert StageOk(cfg, st, a.s);
    AllOrderedFrom(cfg, st);
    DropExplained(cfg, st, a.s);
  }

  lemma DispatcherExplained(cfg: Config, st: State, a: Action, st': State)
    requires cfg.Valid() && !IsWorkerAction(a) && Step(cfg, st, a, st') && AllExplained(cfg, st)
    ensures AllExplained(cfg, st')
  {
  }

  /** The shutdown error is only recorded when the next list to commit was dropped. */
  lemma CommitsDropped(cfg: Config, st: State, diverted: nat, st': State)
    requires Counters(cfg, st) && Step(cfg, st, CommitNext(diverted), st')
    requires st.fatal.None? && st'.fatal == Some(ShuttingDown)
    ensures st'.log == st.log && st.nextCommit in st.pending
    ensures st.pending[st.nextCommit].outcome == Failure(ShuttingDown)
    ensures st.pending[st.nextCommit].clid == st.nextCommit
  {
  }

  lemma CommitTraced(cfg: Config, st: State, diverted: nat, st': State)
    requires cfg.Valid() && Counters(cfg, st) && Logged(cfg, st) && Step(cfg, st, CommitNext(diverted), st')
    requires st.fatal.None? && AllExplained(cfg, st) && st'.fatal == Some(ShuttingDown)
    ensures Overtaken(cfg, cfg.start + |st'.log|)
  {
    CommitsDropped(cfg, st, diverted, st');
    assert Explained(cfg, st.pending[st.nextCommit]);
    SubmittedDoNotFail(cfg, st.log, st.launched);
  }

  /** The recorded error and the log only change when a list is committed. */
  lemma ErrorKept(cfg: Config, st: State, a: Action, st': State)
    requires Step(cfg, st, a, st')
    ensures st.fatal.Some? || !a.CommitNext? ==> st'.fatal == st.fatal && st'.log == st.log
  {
  }

  lemma ExplainedNext(cfg: Config, st: State, a: Action, st': State)
    requires Invariant(cfg, st) && Raised(cfg, st) && AllExplained(cfg, st) && Step(cfg, st, a, st')
    ensures AllExplained(cfg, st')
  {
    if IsWorkerAction(a) {
      if Drops(st, a) { DropsExplained(cfg, st, a); }
      WorkerExplained(cfg, st, a, st');
    } else {
      DispatcherExplained(cfg, st, a, st');
    }
  }

  lemma RaisedFrom(cfg: Config, st: State, a: Action, st': State)
    requires Invariant(cfg, st) && Raised(cfg, st) && Step(cfg, st, a, st')
    ensures Shape(cfg, st') && Raised(cfg, st')
  {
    RaisedNext(cfg, st, a, st');
  }

  lemma CommitTracedFrom(cfg: Config, st: State, a: Action, st': State)
    requires Invariant(cfg, st) && a.CommitNext? && Step(cfg, st, a, st')
    requires st.fatal.None? && AllExplained(cfg, st) && st'.fatal == Some(ShuttingDown)
    ensures Overtaken(cfg, cfg.start + |st'.log|)
  {
    CommitTraced(cfg, st, a.diverted, st');
  }

  lemma ErrorTracedNext(cfg: Config, st: State, a: Action, st': State)
    requires cfg.Valid() && Step(cfg, st, a, st') && ErrorTraced(cfg, st)
    requires a.CommitNext? && st.fatal.None? && st'.fatal == Some(ShuttingDown) ==>
               Overtaken(cfg, cfg.start + |st'.log|)
    ensures ErrorTraced(cfg, st') && (st'.fatal.None? ==> st.fatal.None?)
  {
    ErrorKept(cfg, st, a, st');
  }

  lemma TracedNext(cfg: Config, st: State, a: Action, st': State)
    requires Invariant(cfg, st) && Shape(cfg, st) && Traced(cfg, st) && Step(cfg, st, a, st')
    ensures Shape(cfg, st') && Traced(cfg, st')
  {
    RaisedFrom(cfg, st, a, st');
    if st.fatal.None? {
      ExplainedNext(cfg, st, a, st');
      if a.CommitNext? && st'.fatal == Some(ShuttingDown) { CommitTracedFrom(cfg, st, a, st'); }
    }
    ErrorTracedNext(cfg, st, a, st');
  }

  lemma {:induction false} TracedAlways(cfg: Config, run: Run)
    requires cfg.Valid() && IsRun(cfg, run)
    ensures Shape(cfg, run.st) && Traced(cfg, run.st)
  {
    if run.Then? {
      TracedAlways(cfg, run.before);
      InvariantAlways(cfg, run.before);
      TracedNext(cfg, run.before.st, run.a, run.st);
    }
  }

  lemma TracedReachable(cfg: Config, st: State)
    requires cfg.Valid() && Reachable(cfg, st)
    ensures Shape(cfg, st) && Traced(cfg, st)
  {
    var run :| IsRun(cfg, run) && run.st == st;
    TracedAlways(cfg, run);
  }

  /** An error that names a stage names the one where the first unsubmitted list fails; the
      shutdown error says that this list was overtaken by the failure of a younger one. */
  ghost predicate Accurate(cfg: Config, id: nat, error: Error)
    requires cfg.Valid() && cfg.start <= id
  {
    match error
    case StageFailed(s) => FailsAt(cfg, id, s)
    case StagePanicked(s) => FailsAt(cfg, id, s)
    case ShuttingDown => Overtaken(cfg, id)
    case OutOfSync => false
  }

  lemma AccurateFrom(cfg: Config, id: nat, error: Error)
    requires cfg.Valid() && cfg.start <= id && Honest(cfg, id, error)
    requires error.ShuttingDown? ==> Overtaken(cfg, id)
    ensures Accurate(cfg, id, error)
  {
  }

  lemma ErrorTracedReachable(cfg: Config, st: State)
    requires cfg.Valid() && Reachable(cfg, st)
    ensures ErrorTraced(cfg, st)
  {
    TracedReachable(cfg, st);
  }

  lemma HonestReachable(cfg: Config, st: State)
    requires cfg.Valid() && Reachable(cfg, st) && st.fatal.Some?
    ensures !NoneFails(cfg, cfg.start, st.nextLaunch) && NoneFails(cfg, cfg.start, cfg.start + |st.log|)
    ensures Honest(cfg, cfg.start + |st.log|, st.fatal.value)
  {
    LoggedReachable(cfg, st);
    SubmittedDoNotFail(cfg, st.log, st.launched);
  }

  /** The executor only ends in an error if some launched list fails sequentially too; the lists
      submitted before that all succeed; and the error is accurate about the first list that was
      not submitted.  The checkpoint error is never raised. */
  lemma ErrorsAreHonest(cfg: Config, st: State)
    requires cfg.Valid() && Reachable(cfg, st) && st.fatal.Some?
    ensures !NoneFails(cfg, cfg.start, st.nextLaunch) && NoneFails(cfg, cfg.start, cfg.start + |st.log|)
    ensures Accurate(cfg, cfg.start + |st.log|, st.fatal.value)
  {
    HonestReachable(cfg, st);
    ErrorTracedReachable(cfg, st);
    AccurateFrom(cfg, cfg.start + |st.log|, st.fatal.value);
  }
}
