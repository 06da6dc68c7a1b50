/** What each position of the dispatcher loop guarantees, and the keyframe gate. */
module ExecutorModes {
  import opened Wrappers
  import opened SequentialRuntime
  import opened Executor
  import opened ExecutorCounting
  import opened ExecutorAccounting

  ghost predicate Modes(cfg: Config, st: State) {
    (!st.mode.Committing? ==> st.nextCommit !in st.pending) &&
    (st.mode.Waiting? && !cfg.limited && cfg.limit > 0 ==> st.inFlight > 0) &&
    (st.mode.Waiting? && Stopping(st) ==> st.inFlight > 0) &&
    (st.mode.Exited? ==> st.inFlight == 0 && Stopping(st)) &&
    (st.fatal.Some? ==> st.stopLaunching && st.shutdown) &&
    (st.lost != [] ==> st.shutdown)
  }

  /** At most one launched, uncommitted list captures a keyframe, and it is the recorded one. */
  ghost predicate OneKeyframe(cfg: Config, st: State) {
    (forall id: nat :: st.nextCommit <= id < st.nextLaunch && cfg.captures(id) ==>
       st.activeKeyframe == Some(id)) &&
    (st.activeKeyframe.Some? ==>
       st.nextCommit <= st.activeKeyframe.value < st.nextLaunch && cfg.captures(st.activeKeyframe.value))
  }

  lemma {:induction false} NoMoreThanAny<T>(s: seq<T>, p: T -> bool, any: T -> bool)
    requires forall t :: any(t)
    ensures Count(s, p) <= Count(s, any)
  {
    if s != [] { NoMoreThanAny(s[..|s| - 1], p, any); }
  }

  lemma {:induction false} StagesNoMoreThanAny(queues: seq<seq<Job>>, workers: seq<Worker>, w: Which, n: nat)
    requires n <= |queues| && n <= |workers|
    ensures InStages(w, queues, workers, n) <= InStages(Any, queues, workers, n)
  {
    if n > 0 {
      StagesNoMoreThanAny(queues, workers, w, n - 1);
      NoMoreThanAny(queues[n - 1], JobIs(w), JobIs(Any));
    }
  }

  /** With nothing in flight and the next result not there, everything launched is committed. */
  lemma NothingInFlight(cfg: Config, st: State)
    requires Accounted(cfg, st) && st.inFlight == 0 && st.nextCommit !in st.pending
    ensures st.nextCommit == st.nextLaunch && st.pending == map[] && st.done == []
  {
    CountAnyResult(st.done);
    var w := Id(st.nextCommit);
    StagesNoMoreThanAny(st.queues, st.workers, w, cfg.stages);
    NoMoreThanAny(st.done, ResultIs(w), ResultIs(Any));
    assert Places(cfg, st, st.nextCommit) == 0;
    assert |st.pending| == 0;
  }

  lemma ModesInit(cfg: Config, st: State)
    requires Init(cfg, st)
    ensures Modes(cfg, st) && OneKeyframe(cfg, st)
  {
  }

  lemma OneKeyframeNext(cfg: Config, st: State, a: Action, st': State)
    requires Accounted(cfg, st) && OneKeyframe(cfg, st) && Step(cfg, st, a, st')
    ensures OneKeyframe(cfg, st')
  {
    if IsWorkerAction(a) { WorkersFrame(cfg, st, a, st'); }
  }

  /** Without a rate limiter the dispatcher only waits for a result that is under way. */
  lemma AwaitsSomething(cfg: Config, st: State, rate: bool, again: bool)
    requires Accounted(cfg, st) && Modes(cfg, st) && OneKeyframe(cfg, st)
    requires Enabled(cfg, st, Await(rate, again)) && !cfg.limited && cfg.limit > 0
    ensures st.inFlight > 0
  {
    if st.inFlight == 0 { NothingInFlight(cfg, st); }
  }

  lemma WorkersFlag(cfg: Config, st: State, a: Action, st': State)
    requires Shape(cfg, st) && IsWorkerAction(a) && Step(cfg, st, a, st')
    ensures (st.shutdown ==> st'.shutdown) && (st'.lost != st.lost ==> st'.shutdown)
  {
  }

  lemma ModesNext(cfg: Config, st: State, a: Action, st': State)
    requires Accounted(cfg, st) && Modes(cfg, st) && OneKeyframe(cfg, st) && Step(cfg, st, a, st')
    ensures Modes(cfg, st')
  {
    if IsWorkerAction(a) {
      WorkersFrame(cfg, st, a, st');
      WorkersFlag(cfg, st, a, st');
    } else if a.Await? && !cfg.limited && cfg.limit > 0 {
      AwaitsSomething(cfg, st, a.rateReady, a.rateReadyAgain);
    }
  }
}
