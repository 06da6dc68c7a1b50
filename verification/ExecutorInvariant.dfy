/** All invariants of the executor together, and that every run keeps them. */
module ExecutorInvariant {
  import opened SequentialRuntime
  import opened Executor
  import opened ExecutorCounting
  import opened ExecutorAccounting
  import opened ExecutorModes
  import opened ExecutorOwnership
  import opened ExecutorPool
  import opened ExecutorStages
  import opened ExecutorOrder
  import opened ExecutorCoverage
  import opened ExecutorContents

  ghost predicate StageOk(cfg: Config, st: State, s: nat)
    requires cfg.Valid() && Shape(cfg, st) && s < cfg.stages
  {
    Ordered(cfg, st, s) && Covered(cfg, st, s) && InStep(cfg, st, s) && Faithful(cfg, st, s)
  }

  ghost predicate StagesOk(cfg: Config, st: State)
    requires cfg.Valid() && Shape(cfg, st)
  {
    forall s: nat {:trigger StageOk(cfg, st, s)} :: s < cfg.stages ==> StageOk(cfg, st, s)
  }

  ghost predicate Settled(cfg: Config, st: State)
    requires cfg.Valid() && cfg.start <= st.nextCommit
  {
    Collected(cfg, st) && Logged(cfg, st) && Justified(cfg, st)
  }

  ghost predicate Invariant(cfg: Config, st: State) {
    cfg.Valid() && Accounted(cfg, st) && Modes(cfg, st) && OneKeyframe(cfg, st) && Owned(cfg, st) &&
    Pooled(cfg, st) && StagesOk(cfg, st) && Settled(cfg, st)
  }

  lemma StageNext(cfg: Config, st: State, a: Action, st': State, s: nat)
    requires cfg.Valid() && Shape(cfg, st) && s < cfg.stages && Step(cfg, st, a, st')
    requires StageOk(cfg, st, s) && (s > 0 ==> StageOk(cfg, st, s - 1))
    requires Collected(cfg, st) && st.nextLaunch == cfg.start + |st.launched|
    ensures Shape(cfg, st') && StageOk(cfg, st', s)
  {
    OrderedNext(cfg, st, a, st', s);
    CoverageNext(cfg, st, a, st', s);
    InStepNext(cfg, st, a, st', s);
    FaithfulNext(cfg, st, a, st', s);
  }

  lemma CoverageNext(cfg: Config, st: State, a: Action, st': State, s: nat)
    requires cfg.Valid() && Shape(cfg, st) && s < cfg.stages && Step(cfg, st, a, st')
    requires Ordered(cfg, st, s) && Covered(cfg, st, s)
    requires s > 0 ==> Ordered(cfg, st, s - 1) && Covered(cfg, st, s - 1) && Faithful(cfg, st, s - 1)
    ensures Shape(cfg, st') && Covered(cfg, st', s)
  {
    if s > 0 && (a == RunStep(s - 1) || a == Act(s - 1)) {
      CoveredBehind(cfg, st, a, st', s - 1);
    } else {
      CoveredNext(cfg, st, a, st', s);
    }
  }

  lemma FaithfulNext(cfg: Config, st: State, a: Action, st': State, s: nat)
    requires cfg.Valid() && Shape(cfg, st) && s < cfg.stages && Step(cfg, st, a, st')
    requires Faithful(cfg, st, s) && InStep(cfg, st, s) && (s > 0 ==> Faithful(cfg, st, s - 1))
    requires Collected(cfg, st) && st.nextLaunch == cfg.start + |st.launched|
    ensures Shape(cfg, st') && Faithful(cfg, st', s)
  {
    if a.Launch? {
      FaithfulLaunch(cfg, st, st', a.stopSeen, s);
    } else if Touches(a, s) {
      FaithfulTouched(cfg, st, a, st', s);
    } else {
      FaithfulElsewhere(cfg, st, a, st', s);
    }
  }

  lemma StagesNext(cfg: Config, st: State, a: Action, st': State)
    requires cfg.Valid() && Shape(cfg, st) && Step(cfg, st, a, st') && StagesOk(cfg, st)
    requires Collected(cfg, st) && st.nextLaunch == cfg.start + |st.launched|
    ensures Shape(cfg, st') && StagesOk(cfg, st')
  {
    ShapeKept(cfg, st, a, st');
    forall s: nat | s < cfg.stages
      ensures StageOk(cfg, st', s)
    {
      assert StageOk(cfg, st, s) && (s > 0 ==> StageOk(cfg, st, s - 1));
      StageNext(cfg, st, a, st', s);
    }
  }

  /** Only launching and committing touch the log and what it is compared with. */
  lemma LogUntouched(cfg: Config, st: State, a: Action, st': State)
    requires Step(cfg, st, a, st') && !a.Launch? && !a.CommitNext?
    ensures st'.log == st.log && st'.launched == st.launched && st'.nextCommit == st.nextCommit &&
            st'.fatal == st.fatal
  {
  }

  lemma LoggedNext(cfg: Config, st: State, a: Action, st': State)
    requires cfg.Valid() && Accounted(cfg, st) && Collected(cfg, st) && Logged(cfg, st) && Step(cfg, st, a, st')
    ensures cfg.start <= st'.nextCommit && Logged(cfg, st')
  {
    if a.Launch? {
      LoggedLaunch(cfg, st, st', a.stopSeen);
    } else if a.CommitNext? {
      LoggedCommit(cfg, st, a.diverted, st');
    } else {
      LogUntouched(cfg, st, a, st');
    }
  }

  lemma JustifiedNext(cfg: Config, st: State, a: Action, st': State)
    requires cfg.Valid() && Accounted(cfg, st) && Collected(cfg, st) && Logged(cfg, st) && Step(cfg, st, a, st')
    requires Justified(cfg, st) && (a.Act? ==> Faithful(cfg, st, a.s))
    ensures Justified(cfg, st')
  {
    if a.Act? {
      JustifiedActs(cfg, st, st', a.s);
    } else if a.CommitNext? {
      LoggedCommit(cfg, st, a.diverted, st');
    } else {
      FlagKept(cfg, st, a, st');
    }
  }

  lemma FlagKept(cfg: Config, st: State, a: Action, st': State)
    requires Step(cfg, st, a, st') && !a.Act? && !a.CommitNext?
    ensures st'.shutdown == st.shutdown && st'.nextLaunch >= st.nextLaunch
  {
  }

  lemma SettledNext(cfg: Config, st: State, a: Action, st': State)
    requires cfg.Valid() && Accounted(cfg, st) && StagesOk(cfg, st) && Settled(cfg, st) && Step(cfg, st, a, st')
    ensures cfg.start <= st'.nextCommit && Settled(cfg, st')
  {
    if a.Act? || a.Report? { assert StageOk(cfg, st, a.s); }
    CollectedNext(cfg, st, a, st');
    LoggedNext(cfg, st, a, st');
    JustifiedNext(cfg, st, a, st');
  }

  lemma InvariantNext(cfg: Config, st: State, a: Action, st': State)
    requires Invariant(cfg, st) && Step(cfg, st, a, st')
    ensures Invariant(cfg, st')
  {
    AccountedNext(cfg, st, a, st');
    ModesNext(cfg, st, a, st');
    OneKeyframeNext(cfg, st, a, st');
    OwnedNext(cfg, st, a, st');
    PooledNext(cfg, st, a, st');
    StagesNext(cfg, st, a, st');
    SettledNext(cfg, st, a, st');
  }

  lemma SettledInit(cfg: Config, st: State)
    requires cfg.Valid() && Init(cfg, st)
    ensures Settled(cfg, st)
  {
    assert forall i :: 0 <= i < |st.free| ==> st.free[i] == CopperList(i, Blank(cfg));
  }

  lemma InvariantInit(cfg: Config, st: State)
    requires cfg.Valid() && Init(cfg, st)
    ensures Invariant(cfg, st)
  {
    AccountedInit(cfg, st);
    ModesInit(cfg, st);
    OwnedInit(cfg, st);
    PooledInit(cfg, st);
    SettledInit(cfg, st);
    forall s: nat | s < cfg.stages
      ensures StageOk(cfg, st, s)
    {
      OrderedInit(cfg, st, s);
      CoveredInit(cfg, st, s);
      InStepInit(cfg, st, s);
    }
  }

  lemma {:induction false} InvariantAlways(cfg: Config, run: Run)
    requires cfg.Valid() && IsRun(cfg, run)
    ensures Invariant(cfg, run.st)
  {
    match run
    case Start(st) => InvariantInit(cfg, st);
    case Then(before, a, st) =>
      InvariantAlways(cfg, before);
      InvariantNext(cfg, before.st, a, st);
  }

  lemma InvariantReachable(cfg: Config, st: State)
    requires cfg.Valid() && Reachable(cfg, st)
    ensures Invariant(cfg, st)
  {
    var run :| IsRun(cfg, run) && run.st == st;
    InvariantAlways(cfg, run);
  }

  lemma LoggedReachable(cfg: Config, st: State)
    requires cfg.Valid() && Reachable(cfg, st)
    ensures cfg.start <= st.nextCommit && Logged(cfg, st) && Justified(cfg, st)
    ensures st.fatal.Some? ==> st.shutdown
  {
    InvariantReachable(cfg, st);
  }

  lemma CountsReachable(cfg: Config, st: State)
    requires cfg.Valid() && Reachable(cfg, st)
    ensures Accounted(cfg, st) && Modes(cfg, st) && OneKeyframe(cfg, st) && Pooled(cfg, st)
  {
    InvariantReachable(cfg, st);
  }

  lemma OwnedReachable(cfg: Config, st: State)
    requires cfg.Valid() && Reachable(cfg, st)
    ensures Shape(cfg, st) && Owned(cfg, st)
  {
    InvariantReachable(cfg, st);
  }

  lemma CollectedReachable(cfg: Config, st: State)
    requires cfg.Valid() && Reachable(cfg, st)
    ensures Collected(cfg, st)
  {
    InvariantReachable(cfg, st);
  }
}
