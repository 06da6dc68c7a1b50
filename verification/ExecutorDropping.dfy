/** A run in which a younger list's failure drops an older one: the older list and all between
    are held back until they are in flight together, then raced to the failing stage. */
module ExecutorDropping {
  import opened Wrappers
  import opened SequentialRuntime
  import opened Executor
  import opened ExecutorCounting
  import opened ExecutorAccounting
  import opened ExecutorModes
  import opened ExecutorPool
  import opened ExecutorStages
  import opened ExecutorContents
  import opened ExecutorInvariant
  import opened ExecutorProgress
  import opened ExecutorDrain
  import opened ExecutorLiveness
  import opened ExecutorStarvation
  import opened ExecutorOvertaking

  // ---------------------------------------------------------------- holding back

  predicate HoldsBelow(w: Worker, j: nat) {
    match w
    case Idle => true
    case Busy(job, _) => job.clid < j
    case Reporting(r) => r.clid < j
  }

  /** Lists from `j` on are nowhere but in the entry queue. */
  ghost predicate OnlyQueued(cfg: Config, st: State, j: nat)
    requires Shape(cfg, st)
  {
    (forall s :: 0 <= s < cfg.stages ==> st.seen[s] <= j && HoldsBelow(st.workers[s], j)) &&
    (forall s, i :: 1 <= s < cfg.stages && 0 <= i < |st.queues[s]| ==> st.queues[s][i].clid < j) &&
    (forall i :: 0 <= i < |st.done| ==> st.done[i].clid < j) &&
    forall id :: id in st.pending ==> id < j
  }

  /** Nobody has stopped, nothing was diverted, and there is no waiting for nothing. */
  ghost predicate Running(st: State) {
    st.fatal.None? && !st.stopLaunching && st.diverted == [] && !Stranded(st)
  }

  ghost predicate HeldBack(cfg: Config, st: State, j: nat) {
    Shape(cfg, st) && Running(st) && st.nextCommit <= j && OnlyQueued(cfg, st, j)
  }

  /** The actions that keep lists from `j` on in the entry queue. */
  predicate HoldsBack(st: State, a: Action, j: nat) {
    match a
    case Reclaim => true
    case Launch(_, stop) => !stop
    case Await(_, _) => st.inFlight > 0
    case Receive => true
    case CommitNext(diverted) => diverted == 0
    case EndCommits(stop) => !stop
    case Recv(s) => s > 0 || (st.queues != [] && st.queues[0] != [] && st.queues[0][0].clid < j)
    case _ => IsWorkerAction(a)
  }

  lemma HeldBackWorker(cfg: Config, st: State, a: Action, j: nat, st': State)
    requires HeldBack(cfg, st, j) && HoldsBack(st, a, j) && IsWorkerAction(a) && Step(cfg, st, a, st')
    ensures HeldBack(cfg, st', j)
  {
    WorkersFrame(cfg, st, a, st');
    OnlyQueuedWorker(cfg, st, a, j, st');
  }

  lemma OnlyQueuedWorker(cfg: Config, st: State, a: Action, j: nat, st': State)
    requires Shape(cfg, st) && Shape(cfg, st') && OnlyQueued(cfg, st, j) && HoldsBack(st, a, j)
    requires IsWorkerAction(a) && Step(cfg, st, a, st')
    ensures OnlyQueued(cfg, st', j)
  {
  }

  lemma HeldBackDispatcher(cfg: Config, st: State, a: Action, j: nat, st': State)
    requires HeldBack(cfg, st, j) && HoldsBack(st, a, j) && !IsWorkerAction(a) && Step(cfg, st, a, st')
    requires a.CommitNext? ==> st.nextCommit < j && FatalAfter(st, st.pending[st.nextCommit]).None?
    ensures HeldBack(cfg, st', j)
  {
  }

  /** The oldest uncommitted list is somewhere in the pipeline unless it can be committed. */
  lemma OldestIsInPipeline(cfg: Config, st: State)
    requires Accounted(cfg, st) && st.nextCommit < st.nextLaunch && st.nextCommit !in st.pending
    ensures InPipeline(cfg, st, Id(st.nextCommit)) > 0
  {
    assert Places(cfg, st, st.nextCommit) == 1;
  }

  /** If only the entry queue holds lists, its first one is the oldest uncommitted list or older. */
  lemma EntryQueueStartsWithOldest(cfg: Config, st: State)
    requires Accounted(cfg, st) && cfg.stages > 0 && Ordered(cfg, st, 0)
    requires st.nextCommit < st.nextLaunch && st.nextCommit !in st.pending && st.done == []
    requires forall s :: 0 <= s < cfg.stages ==> st.workers[s].Idle? && (s > 0 ==> st.queues[s] == [])
    ensures st.queues[0] != [] && st.queues[0][0].clid <= st.nextCommit
  {
    OldestIsInPipeline(cfg, st);
    var w := Id(st.nextCommit);
    var s := SomeStageHolds(w, st.queues, st.workers, cfg.stages);
    var i := CountWitness(st.queues[s], JobIs(w));
    var ahead := Ahead(st.workers[0], st.queues[0]);
    assert ahead == st.queues[0];
    if i > 0 { assert Older(ahead, 0, i); }
  }

  /** While the dispatcher waits for older lists, a worker can step without touching lists from `j`
      on. */
  lemma HeldBackWorkerMoves(cfg: Config, st: State, j: nat) returns (a: Action)
    requires Invariant(cfg, st) && HeldBack(cfg, st, j) && st.nextCommit < j
    requires st.mode.Waiting? && st.inFlight > 0 && st.done == []
    ensures HoldsBack(st, a, j) && Enabled(cfg, st, a) && IsWorkerAction(a)
  {
    if s: nat :| s < cfg.stages && !st.workers[s].Idle? {
      a := StageMove(cfg, st, s);
    } else if s: nat :| 0 < s < cfg.stages && st.queues[s] != [] {
      a := StageMove(cfg, st, s);
    } else {
      assert StageOk(cfg, st, 0);
      EntryQueueStartsWithOldest(cfg, st);
      a := StageMove(cfg, st, 0);
    }
  }

  lemma HeldBackWaits(cfg: Config, st: State, j: nat) returns (a: Action)
    requires cfg.Valid() && Reachable(cfg, st) && HeldBack(cfg, st, j) && st.nextCommit < j
    requires st.mode.Waiting? && st.inFlight > 0
    ensures HoldsBack(st, a, j) && Enabled(cfg, st, a)
  {
    if st.done != [] {
      a := Receive;
    } else {
      InvariantReachable(cfg, st);
      a := HeldBackWorkerMoves(cfg, st, j);
    }
  }

  /** With the pool replenished and nothing in flight the next list can be launched. */
  lemma IdleLaunches(cfg: Config, st: State)
    requires cfg.limit > 0 && Accounted(cfg, st) && Modes(cfg, st) && OneKeyframe(cfg, st) && Pooled(cfg, st)
    requires st.mode.Top? && Running(st) && st.submitted == [] && st.inFlight == 0
    ensures LaunchReady(cfg, st, true)
  {
    NothingInFlight(cfg, st);
  }

  lemma HeldBackMoves(cfg: Config, st: State, j: nat) returns (a: Action)
    requires cfg.Valid() && cfg.limit > 0 && Reachable(cfg, st) && HeldBack(cfg, st, j) && st.nextCommit < j
    ensures HoldsBack(st, a, j) && Enabled(cfg, st, a)
  {
    CountsReachable(cfg, st);
    match st.mode
    case Top =>
      if st.submitted != [] { return Reclaim; }
      if st.inFlight == 0 { IdleLaunches(cfg, st); }
      NoSendBlocks(cfg, st);
      assert Sampled(cfg, true);
      a := if LaunchReady(cfg, st, true) then Launch(true, false) else Await(true, true);
    case Waiting => a := HeldBackWaits(cfg, st, j);
    case Committing =>
      if st.nextCommit in st.pending {
        CommitsNeverPanic(cfg, st);
        a := CommitNext(0);
      } else {
        a := EndCommits(false);
      }
    case Exited => assert false;
  }

  /** Nothing has failed as long as only lists below `j` were stepped and none of them fails. */
  lemma HeldBackIsCalm(cfg: Config, st: State, j: nat)
    requires cfg.Valid() && cfg.start <= j && Reachable(cfg, st) && HeldBack(cfg, st, j) && NoneFails(cfg, cfg.start, j)
    ensures !st.shutdown
  {
    TracedReachable(cfg, st);
    if st.shutdown {
      var k: nat, s: nat :| RaisedBy(cfg, st, k, s);
      FailsAtStopsThere(cfg, k, s);
      assert false;
    }
  }

  lemma CalmCommit(cfg: Config, st: State)
    requires cfg.Valid() && Reachable(cfg, st) && !st.shutdown && st.fatal.None? && st.nextCommit in st.pending
    ensures FatalAfter(st, st.pending[st.nextCommit]).None?
  {
    CursorAgrees(cfg, st);
    CollectedReachable(cfg, st);
    if st.pending[st.nextCommit].outcome.Failure? { FailuresShutDown(cfg, st, st.nextCommit); }
  }

  lemma HeldBackNext(cfg: Config, st: State, a: Action, j: nat, st': State)
    requires cfg.Valid() && cfg.start <= j && Reachable(cfg, st) && HeldBack(cfg, st, j) && st.nextCommit < j
    requires NoneFails(cfg, cfg.start, j) && HoldsBack(st, a, j) && Step(cfg, st, a, st')
    ensures Reachable(cfg, st') && HeldBack(cfg, st', j)
  {
    StepReachable(cfg, st, a, st');
    if IsWorkerAction(a) {
      HeldBackWorker(cfg, st, a, j, st');
    } else {
      HeldBackIsCalm(cfg, st, j);
      if a.CommitNext? { CalmCommit(cfg, st); }
      HeldBackDispatcher(cfg, st, a, j, st');
    }
  }

  /** The room for launches, and that only a commit moves the commit counter. */
  lemma CountsDown(cfg: Config, st: State, a: Action, st': State)
    requires cfg.Valid() && Reachable(cfg, st) && Step(cfg, st, a, st') && !a.WaitRate? && !a.TimeOut?
    ensures Shape(cfg, st) && st.nextLaunch <= st.nextCommit + cfg.limit
    ensures Shape(cfg, st') && st'.nextLaunch <= st.nextCommit + cfg.limit
    ensures 0 <= CommitBound(cfg, st', st.nextCommit) < CommitBound(cfg, st, st.nextCommit)
    ensures st'.nextCommit == if a.CommitNext? then st.nextCommit + 1 else st.nextCommit
  {
    CountsReachable(cfg, st);
    EveryStepCounts(cfg, st, a, st', st.nextCommit);
    BoundIsNonNegative(cfg, st', st.nextCommit);
    CommitCounter(cfg, st, a, st');
  }

  lemma CommitCounter(cfg: Config, st: State, a: Action, st': State)
    requires Step(cfg, st, a, st')
    ensures st'.nextCommit == if a.CommitNext? then st.nextCommit + 1 else st.nextCommit
  {
  }

  lemma RoomAhead(cfg: Config, st: State)
    requires cfg.Valid() && Reachable(cfg, st)
    ensures Shape(cfg, st) && st.nextLaunch <= st.nextCommit + cfg.limit
    ensures CommitBound(cfg, st, st.nextCommit) >= 0
  {
    CountsReachable(cfg, st);
    BoundIsNonNegative(cfg, st, st.nextCommit);
  }

  lemma CommitsInCommitting(cfg: Config, st: State, a: Action, st': State)
    requires Step(cfg, st, a, st') && st'.nextCommit != st.nextCommit
    ensures st'.mode.Committing?
  {
  }

  lemma HoldBackStep(cfg: Config, st: State, j: nat) returns (next: State)
    requires cfg.Valid() && cfg.limit > 0 && cfg.start <= j && NoneFails(cfg, cfg.start, j)
    requires Reachable(cfg, st) && HeldBack(cfg, st, j) && st.nextCommit < j
    ensures Reachable(cfg, next) && HeldBack(cfg, next, j)
    ensures Shape(cfg, st) && st.nextLaunch <= st.nextCommit + cfg.limit
    ensures Shape(cfg, next) && next.nextLaunch <= st.nextCommit + cfg.limit
    ensures next.nextLaunch <= next.nextCommit + cfg.limit
    ensures next.nextCommit == st.nextCommit || (next.nextCommit == st.nextCommit + 1 && next.mode.Committing?)
    ensures 0 <= CommitBound(cfg, next, st.nextCommit) < CommitBound(cfg, st, st.nextCommit)
  {
    var a := HeldBackMoves(cfg, st, j);
    EnabledActionsHaveOutcomes(cfg, st, a);
    next :| Step(cfg, st, a, next);
    HeldBackNext(cfg, st, a, j, next);
    CountsDown(cfg, st, a, next);
    RoomAhead(cfg, next);
    if next.nextCommit != st.nextCommit { CommitsInCommitting(cfg, st, a, next); }
  }

  /** Everything before `j` is committed while everything from `j` on waits in the entry queue. */
  lemma {:induction false} BringToFront(cfg: Config, st: State, j: nat) returns (front: State)
    requires cfg.Valid() && cfg.limit > 0 && cfg.start <= j && NoneFails(cfg, cfg.start, j)
    requires Reachable(cfg, st) && HeldBack(cfg, st, j)
    requires Shape(cfg, st) && st.nextLaunch <= st.nextCommit + cfg.limit
    ensures Reachable(cfg, front) && HeldBack(cfg, front, j) && front.nextCommit == j
    ensures if st.nextCommit < j then front.mode.Committing? else front == st
    decreases j - st.nextCommit, CommitBound(cfg, st, st.nextCommit)
  {
    front := st;
    if st.nextCommit < j {
      var next := HoldBackStep(cfg, st, j);
      front := BringToFront(cfg, next, j);
    }
  }

  // ---------------------------------------------------------------- lining up

  /** All launched, uncommitted lists, from `j` on, wait in the entry queue. */
  ghost predicate LinedUp(cfg: Config, st: State, j: nat) {
    HeldBack(cfg, st, j) && st.nextCommit == j && (st.mode.Top? || st.mode.Committing?)
  }

  lemma ReportedIsUncommitted(cfg: Config, st: State, t: nat)
    requires Accounted(cfg, st) && t < cfg.stages && st.workers[t].Reporting?
    ensures st.nextCommit <= st.workers[t].result.clid
  {
    var id := st.workers[t].result.clid;
    StageHolds(Id(id), st.queues, st.workers, t, cfg.stages);
    assert Places(cfg, st, id) > 0;
  }

  lemma QueuedIsUncommitted(cfg: Config, st: State, t: nat, i: nat)
    requires Accounted(cfg, st) && t < cfg.stages && i < |st.queues[t]|
    ensures st.nextCommit <= st.queues[t][i].clid
  {
    var id := st.queues[t][i].clid;
    CountPositive(st.queues[t], JobIs(Id(id)), i);
    StageHolds(Id(id), st.queues, st.workers, t, cfg.stages);
    assert Places(cfg, st, id) > 0;
  }

  lemma PendingIsUncommitted(cfg: Config, st: State)
    requires Accounted(cfg, st)
    ensures forall id :: id in st.pending ==> st.nextCommit <= id
  {
    forall id | id in st.pending
      ensures st.nextCommit <= id
    {
      assert Places(cfg, st, id) > 0;
    }
  }

  /** Nothing is anywhere but in the entry queue. */
  lemma LinedUpIsEmpty(cfg: Config, st: State, j: nat)
    requires Accounted(cfg, st) && LinedUp(cfg, st, j)
    ensures st.done == [] && st.pending == map[] && st.inFlight == st.nextLaunch - j
    ensures forall t :: 0 <= t < cfg.stages ==> st.workers[t].Idle? && (t > 0 ==> st.queues[t] == [])
  {
    forall t: nat | t < cfg.stages
      ensures st.workers[t].Idle? && (t > 0 ==> st.queues[t] == [])
    {
      if st.workers[t].Busy? { HeldIsUncommitted(cfg, st, t); }
      if st.workers[t].Reporting? { ReportedIsUncommitted(cfg, st, t); }
      if t > 0 && st.queues[t] != [] { QueuedIsUncommitted(cfg, st, t, 0); }
    }
    if st.done != [] { DoneIsElsewhere(cfg, st); }
    PendingIsUncommitted(cfg, st);
    assert st.pending.Keys == {};
    assert |st.pending| == 0;
  }

  /** While lists up to `k` fit in flight together, the next of them can be launched. */
  lemma LinedUpLaunches(cfg: Config, st: State, j: nat, k: nat)
    requires Accounted(cfg, st) && Pooled(cfg, st) && OneKeyframe(cfg, st) && LinedUp(cfg, st, j)
    requires st.mode.Top? && st.submitted == [] && st.nextLaunch <= k && k - j < cfg.limit && OneCapture(cfg, j, k)
    ensures LaunchReady(cfg, st, true)
  {
    LinedUpIsEmpty(cfg, st, j);
  }

  lemma LineUpMove(cfg: Config, st: State, j: nat, k: nat) returns (a: Action)
    requires cfg.Valid() && Reachable(cfg, st) && LinedUp(cfg, st, j)
    requires k - j < cfg.limit && OneCapture(cfg, j, k) && (st.mode.Committing? || st.nextLaunch <= k)
    ensures a.EndCommits? || a.Reclaim? || a.Launch?
    ensures HoldsBack(st, a, j) && Enabled(cfg, st, a)
  {
    CountsReachable(cfg, st);
    LinedUpIsEmpty(cfg, st, j);
    if st.mode.Committing? { return EndCommits(false); }
    if st.submitted != [] { return Reclaim; }
    LinedUpLaunches(cfg, st, j, k);
    NoSendBlocks(cfg, st);
    assert Sampled(cfg, true);
    return Launch(true, false);
  }

  lemma LinedUpNext(cfg: Config, st: State, a: Action, j: nat, st': State)
    requires LinedUp(cfg, st, j) && HoldsBack(st, a, j) && (a.EndCommits? || a.Reclaim? || a.Launch?)
    requires Step(cfg, st, a, st')
    ensures LinedUp(cfg, st', j) && st'.mode.Top?
    ensures st'.nextLaunch == if a.Launch? then st.nextLaunch + 1 else st.nextLaunch
    ensures |st'.submitted| == if a.Reclaim? then |st.submitted| - 1 else |st.submitted|
  {
    HeldBackDispatcher(cfg, st, a, j, st');
  }

  lemma {:induction false} LineUp(cfg: Config, st: State, j: nat, k: nat) returns (ready: State)
    requires cfg.Valid() && Reachable(cfg, st) && LinedUp(cfg, st, j)
    requires k - j < cfg.limit && OneCapture(cfg, j, k)
    ensures Reachable(cfg, ready) && LinedUp(cfg, ready, j) && ready.mode.Top? && k < ready.nextLaunch
    decreases st.mode.Committing?, if k < st.nextLaunch then 0 else k + 1 - st.nextLaunch, |st.submitted|
  {
    ready := st;
    if st.mode.Committing? || st.nextLaunch <= k {
      var a := LineUpMove(cfg, st, j, k);
      EnabledActionsHaveOutcomes(cfg, st, a);
      var next :| Step(cfg, st, a, next);
      StepReachable(cfg, st, a, next);
      LinedUpNext(cfg, st, a, j, next);
      LineUpAdvances(cfg, st, a);
      ready := LineUp(cfg, next, j, k);
    }
  }

  lemma LineUpAdvances(cfg: Config, st: State, a: Action)
    requires Enabled(cfg, st, a) && (a.EndCommits? || a.Reclaim? || a.Launch?)
    ensures a.EndCommits? <==> st.mode.Committing?
  {
  }

  // ---------------------------------------------------------------- the race

  /** List `j` has no result yet. */
  ghost predicate NotEnded(cfg: Config, st: State, j: nat)
    requires Shape(cfg, st)
  {
    (forall t :: 0 <= t < cfg.stages && st.workers[t].Reporting? ==> st.workers[t].result.clid != j) &&
    (forall i :: 0 <= i < |st.done| ==> st.done[i].clid != j) && j !in st.pending
  }

  /** Nobody behind stage `s` has stepped, and the dispatcher stands still. */
  ghost predicate Racing(cfg: Config, st: State, j: nat, s: nat) {
    Shape(cfg, st) && s + 1 < cfg.stages && st.mode.Top? && st.nextCommit == j && st.fatal.None? &&
    st.pending == map[] && NotEnded(cfg, st, j) &&
    (forall t :: s < t < cfg.stages ==> st.workers[t].Idle?) &&
    forall t :: s + 1 < t < cfg.stages ==> st.queues[t] == []
  }

  lemma RaceStarts(cfg: Config, st: State, j: nat, s: nat)
    requires Accounted(cfg, st) && LinedUp(cfg, st, j) && st.mode.Top? && s + 1 < cfg.stages
    ensures Racing(cfg, st, j, s)
  {
    LinedUpIsEmpty(cfg, st, j);
  }

  /** Before the flag is up no list that fails has a result. */
  lemma NoResultOfFailing(cfg: Config, launched: seq<seq<Msg>>, r: WorkerResult, s: nat)
    requires cfg.Valid() && ResultOk(cfg, launched, false, r)
    ensures !FailsAt(cfg, r.clid, s)
  {
  }

  lemma StageHoldsFailing(cfg: Config, st: State, j: nat, k: nat, s: nat) returns (t: nat)
    requires Invariant(cfg, st) && Racing(cfg, st, j, s) && !st.shutdown
    requires cfg.start <= k && j <= k < st.nextLaunch && FailsAt(cfg, k, s)
    ensures t <= s && (st.queues[t] != [] || !st.workers[t].Idle?)
  {
    assert Places(cfg, st, k) == 1;
    if Count(st.done, ResultIs(Id(k))) > 0 {
      var i := CountWitness(st.done, ResultIs(Id(k)));
      NoResultOfFailing(cfg, st.launched, st.done[i], s);
    }
    t := SomeStageHolds(Id(k), st.queues, st.workers, cfg.stages);
    if t > s {
      var i := CountWitness(st.queues[t], JobIs(Id(k)));
      assert StageOk(cfg, st, t);
      assert JobOk(cfg, st.launched, t, st.queues[t][i]);
      FailsAtStopsThere(cfg, k, s);
    }
  }

  lemma RaceMove(cfg: Config, st: State, j: nat, k: nat, s: nat) returns (a: Action)
    requires Invariant(cfg, st) && Racing(cfg, st, j, s) && !st.shutdown
    requires cfg.start <= k && j <= k < st.nextLaunch && FailsAt(cfg, k, s)
    ensures IsWorkerAction(a) && a.s <= s && Enabled(cfg, st, a)
  {
    var t := StageHoldsFailing(cfg, st, j, k, s);
    a := StageMove(cfg, st, t);
  }

  /** A step of `j` up to stage `s` succeeds. */
  lemma StepsOn(cfg: Config, launched: seq<seq<Msg>>, t: nat, job: Job, out: StepOut)
    requires cfg.Valid() && t < cfg.stages && SteppedOk(cfg, launched, t, job, out)
    requires WalkAt(cfg, job.clid, t + 1).Walking?
    ensures out.Continue?
  {
  }

  lemma RacingKeeps(cfg: Config, st: State, a: Action, j: nat, s: nat, st': State)
    requires cfg.Valid() && cfg.start <= j && Racing(cfg, st, j, s) && !st.shutdown
    requires IsWorkerAction(a) && a.s <= s && Step(cfg, st, a, st')
    requires a.Act? && st.workers[a.s].job.clid == j ==> st.workers[a.s].phase.out.Continue?
    ensures Racing(cfg, st', j, s) && st'.nextLaunch == st.nextLaunch
  {
    WorkersFrame(cfg, st, a, st');
  }

  /** Whatever happens to `j` now, it will be dropped. */
  ghost predicate Doomed(cfg: Config, st: State, j: nat)
    requires cfg.Valid() && cfg.start <= j
  {
    Shape(cfg, st) && st.shutdown && st.fatal.None? && st.nextCommit == j < st.nextLaunch && !Stranded(st) &&
    (forall t: nat {:trigger st.workers[t]} :: t < cfg.stages ==> DoomedAt(cfg, st.workers[t], j, t)) &&
    (forall i :: 0 <= i < |st.done| && st.done[i].clid == j ==> st.done[i].outcome == Failure(ShuttingDown)) &&
    (j in st.pending ==> st.pending[j].outcome == Failure(ShuttingDown))
  }

  ghost predicate DoomedAt(cfg: Config, w: Worker, j: nat, t: nat)
    requires cfg.Valid() && cfg.start <= j && t < cfg.stages
  {
    match w
    case Idle => true
    case Busy(job, phase) =>
      job.clid == j && (phase.Running? || phase.Stepped?) ==> WalkAt(cfg, j, t + 1).Walking?
    case Reporting(r) => r.clid == j ==> r.outcome == Failure(ShuttingDown)
  }

  lemma RaceIsLost(cfg: Config, st: State, j: nat, s: nat)
    requires cfg.Valid() && cfg.start <= j && Racing(cfg, st, j, s) && st.shutdown && j < st.nextLaunch
    requires WalkAt(cfg, j, s + 1).Walking?
    ensures Doomed(cfg, st, j)
  {
    forall t: nat | t < cfg.stages
      ensures DoomedAt(cfg, st.workers[t], j, t)
    {
      if t <= s { WalksEarlier(cfg, j, t + 1, s + 1); }
    }
  }

  lemma ActOfWalking(cfg: Config, st: State, j: nat, t: nat)
    requires Invariant(cfg, st) && cfg.start <= j && Enabled(cfg, st, Act(t)) && st.workers[t].job.clid == j
    requires t < cfg.stages && WalkAt(cfg, j, t + 1).Walking?
    ensures st.workers[t].phase.out.Continue?
  {
    assert StageOk(cfg, st, t);
    StepsOn(cfg, st.launched, t, st.workers[t].job, st.workers[t].phase.out);
  }

  /** While the race is on, no step ends list `j`. */
  lemma RacerWalksOn(cfg: Config, st: State, j: nat, s: nat, a: Action)
    requires Invariant(cfg, st) && cfg.start <= j && s + 1 <= cfg.stages && Enabled(cfg, st, a)
    requires a.Act? && a.s <= s && st.workers[a.s].job.clid == j && WalkAt(cfg, j, s + 1).Walking?
    ensures st.workers[a.s].phase.out.Continue?
  {
    WalksEarlier(cfg, j, a.s + 1, s + 1);
    ActOfWalking(cfg, st, j, a.s);
  }

  lemma RaceMoves(cfg: Config, st: State, j: nat, k: nat, s: nat) returns (a: Action)
    requires cfg.Valid() && Reachable(cfg, st) && Racing(cfg, st, j, s) && !st.shutdown
    requires cfg.start <= j <= k < st.nextLaunch && FailsAt(cfg, k, s) && WalkAt(cfg, j, s + 1).Walking?
    ensures IsWorkerAction(a) && a.s <= s && Enabled(cfg, st, a)
    ensures a.Act? && st.workers[a.s].job.clid == j ==> st.workers[a.s].phase.out.Continue?
  {
    InvariantReachable(cfg, st);
    a := RaceMove(cfg, st, j, k, s);
    if a.Act? && st.workers[a.s].job.clid == j { RacerWalksOn(cfg, st, j, s, a); }
  }

  lemma RaceStep(cfg: Config, st: State, j: nat, k: nat, s: nat) returns (next: State)
    requires cfg.Valid() && Reachable(cfg, st) && Racing(cfg, st, j, s) && !st.shutdown
    requires cfg.start <= j <= k < st.nextLaunch && FailsAt(cfg, k, s) && WalkAt(cfg, j, s + 1).Walking?
    ensures Reachable(cfg, next) && Racing(cfg, next, j, s) && k < next.nextLaunch
    ensures 0 <= Work(cfg, next) < Work(cfg, st)
  {
    var a := RaceMoves(cfg, st, j, k, s);
    EnabledActionsHaveOutcomes(cfg, st, a);
    next :| Step(cfg, st, a, next);
    StepReachable(cfg, st, a, next);
    RacingKeeps(cfg, st, a, j, s, next);
    WorkersWearDown(cfg, st, a, next);
    WorkIsNonNegative(next.queues, next.workers, cfg.stages, cfg.stages);
  }

  lemma {:induction false} Race(cfg: Config, st: State, j: nat, k: nat, s: nat) returns (lost: State)
    requires cfg.Valid() && Reachable(cfg, st) && Racing(cfg, st, j, s)
    requires cfg.start <= j <= k < st.nextLaunch && FailsAt(cfg, k, s) && WalkAt(cfg, j, s + 1).Walking?
    ensures Reachable(cfg, lost) && Doomed(cfg, lost, j)
    decreases Work(cfg, st)
  {
    if st.shutdown {
      RaceIsLost(cfg, st, j, s);
      lost := st;
    } else {
      var next := RaceStep(cfg, st, j, k, s);
      lost := Race(cfg, next, j, k, s);
    }
  }

  // ---------------------------------------------------------------- the end

  /** The shutdown error is recorded, and the log ends in front of `j`. */
  predicate Recorded(cfg: Config, st: State, j: nat) {
    st.fatal == Some(ShuttingDown) && cfg.start + |st.log| == j
  }

  /** The actions of the rest of the run. */
  predicate Finishes(st: State, a: Action) {
    match a
    case Await(_, _) => st.inFlight > 0
    case WaitRate(_) => false
    case TimeOut(_) => false
    case _ => true
  }

  lemma DoomedMoves(cfg: Config, st: State, j: nat) returns (a: Action)
    requires cfg.Valid() && cfg.start <= j && Reachable(cfg, st) && Doomed(cfg, st, j)
    ensures Finishes(st, a) && Enabled(cfg, st, a)
  {
    CountsReachable(cfg, st);
    match st.mode
    case Top =>
      if st.inFlight == 0 { NothingInFlight(cfg, st); }
      NoSendBlocks(cfg, st);
      assert Sampled(cfg, true);
      a := if LaunchReady(cfg, st, true) then Launch(true, false) else Await(true, true);
    case Waiting =>
      ReachableMoves(cfg, st);
      if st.done != [] { a := Receive; } else { a :| IsWorkerAction(a) && Enabled(cfg, st, a); }
    case Committing =>
      CommittingMoves(cfg, st);
      a := if st.nextCommit in st.pending then CommitNext(0) else EndCommits(false);
      if st.nextCommit in st.pending { CommitsNeverPanic(cfg, st); }
    case Exited => NothingInFlight(cfg, st);
  }

  lemma DoomedWorker(cfg: Config, st: State, a: Action, j: nat, st': State)
    requires cfg.Valid() && cfg.start <= j && Doomed(cfg, st, j) && IsWorkerAction(a) && Step(cfg, st, a, st')
    requires a.Act? && st.workers[a.s].job.clid == j ==> st.workers[a.s].phase.out.Continue?
    ensures Doomed(cfg, st', j)
  {
    WorkersFrame(cfg, st, a, st');
    DoomedWorkers(cfg, st, a, j, st');
    WorkersLists(cfg, st, a, st');
    WorkersFlag(cfg, st, a, st');
    assert DoomedAt(cfg, st.workers[a.s], j, a.s);
  }

  lemma DoomedWorkers(cfg: Config, st: State, a: Action, j: nat, st': State)
    requires cfg.Valid() && cfg.start <= j && Shape(cfg, st) && Shape(cfg, st') && st.shutdown
    requires forall t: nat {:trigger st.workers[t]} :: t < cfg.stages ==> DoomedAt(cfg, st.workers[t], j, t)
    requires IsWorkerAction(a) && Step(cfg, st, a, st')
    requires a.Act? && st.workers[a.s].job.clid == j ==> st.workers[a.s].phase.out.Continue?
    ensures forall t: nat {:trigger st'.workers[t]} :: t < cfg.stages ==> DoomedAt(cfg, st'.workers[t], j, t)
  {
  }

  lemma DoomedDispatcher(cfg: Config, st: State, a: Action, j: nat, st': State)
    requires cfg.Valid() && cfg.start <= j && Doomed(cfg, st, j) && !IsWorkerAction(a) && !a.CommitNext?
    requires Finishes(st, a) && Step(cfg, st, a, st')
    ensures Doomed(cfg, st', j)
  {
  }

  lemma DoomedCommit(cfg: Config, st: State, diverted: nat, j: nat, st': State)
    requires cfg.Valid() && cfg.start <= j && Reachable(cfg, st) && Doomed(cfg, st, j)
    requires Step(cfg, st, CommitNext(diverted), st')
    ensures Recorded(cfg, st', j)
  {
    CursorAgrees(cfg, st);
    LoggedReachable(cfg, st);
  }

  lemma DoomedNext(cfg: Config, st: State, a: Action, j: nat, st': State)
    requires cfg.Valid() && cfg.start <= j && Reachable(cfg, st) && Doomed(cfg, st, j)
    requires Finishes(st, a) && Step(cfg, st, a, st')
    ensures if a.CommitNext? then Recorded(cfg, st', j) else Doomed(cfg, st', j)
  {
    if IsWorkerAction(a) {
      if a.Act? && st.workers[a.s].job.clid == j {
        InvariantReachable(cfg, st);
        assert DoomedAt(cfg, st.workers[a.s], j, a.s);
        ActOfWalking(cfg, st, j, a.s);
      }
      DoomedWorker(cfg, st, a, j, st');
    } else if a.CommitNext? {
      DoomedCommit(cfg, st, a.diverted, j, st');
    } else {
      DoomedDispatcher(cfg, st, a, j, st');
    }
  }

  lemma DoomedStep(cfg: Config, st: State, j: nat) returns (next: State)
    requires cfg.Valid() && cfg.start <= j && Reachable(cfg, st) && Doomed(cfg, st, j)
    ensures Reachable(cfg, next) && (Recorded(cfg, next, j) || Doomed(cfg, next, j))
    ensures Shape(cfg, st) && st.nextLaunch <= j + cfg.limit && Shape(cfg, next) && next.nextLaunch <= j + cfg.limit
    ensures 0 <= CommitBound(cfg, next, j) < CommitBound(cfg, st, j)
  {
    var a := DoomedMoves(cfg, st, j);
    EnabledActionsHaveOutcomes(cfg, st, a);
    next :| Step(cfg, st, a, next);
    StepReachable(cfg, st, a, next);
    DoomedNext(cfg, st, a, j, next);
    CountsDown(cfg, st, a, next);
  }

  lemma {:induction false} DoomedIsRecorded(cfg: Config, st: State, j: nat) returns (recorded: State)
    requires cfg.Valid() && cfg.start <= j && Reachable(cfg, st) && Doomed(cfg, st, j)
    requires Shape(cfg, st) && st.nextLaunch <= j + cfg.limit
    ensures Reachable(cfg, recorded) && Recorded(cfg, recorded, j)
    decreases CommitBound(cfg, st, j)
  {
    recorded := DoomedStep(cfg, st, j);
    if !Recorded(cfg, recorded, j) { recorded := DoomedIsRecorded(cfg, recorded, j); }
  }

  lemma RecordedStep(cfg: Config, st: State, j: nat) returns (next: State)
    requires cfg.Valid() && Reachable(cfg, st) && Recorded(cfg, st, j) && !st.mode.Exited?
    ensures Reachable(cfg, next) && Recorded(cfg, next, j)
    ensures Shape(cfg, st) && Shape(cfg, next) && 0 <= Drain(cfg, next) < Drain(cfg, st)
  {
    CountsReachable(cfg, st);
    StoppingNeverSticks(cfg, st);
    var a :| Enabled(cfg, st, a);
    EnabledActionsHaveOutcomes(cfg, st, a);
    next :| Step(cfg, st, a, next);
    StepReachable(cfg, st, a, next);
    ErrorKept(cfg, st, a, next);
    EveryStepDrains(cfg, st, a, next);
    WorkIsNonNegative(next.queues, next.workers, cfg.stages, cfg.stages);
  }

  lemma {:induction false} RecordedExits(cfg: Config, st: State, j: nat) returns (exited: State)
    requires cfg.Valid() && Reachable(cfg, st) && Shape(cfg, st) && Recorded(cfg, st, j)
    ensures Reachable(cfg, exited) && Recorded(cfg, exited, j) && exited.mode.Exited?
    decreases Drain(cfg, st)
  {
    exited := st;
    if !st.mode.Exited? {
      var next := RecordedStep(cfg, st, j);
      exited := RecordedExits(cfg, next, j);
    }
  }

  // ---------------------------------------------------------------- exactly when

  lemma StartsHeldBack(cfg: Config, first: State, j: nat)
    requires cfg.Valid() && Init(cfg, first) && cfg.start <= j
    ensures HeldBack(cfg, first, j) && first.nextLaunch <= first.nextCommit + cfg.limit
  {
  }

  /** The run: up to `j`, then `j` to `k` together, then to the failure, then to the end. */
  lemma OvertakenIsDropped(cfg: Config, j: nat, k: nat, s: nat) returns (exited: State)
    requires cfg.Valid() && cfg.start <= j && NoneFails(cfg, cfg.start, j) && Overtakes(cfg, j, k, s)
    ensures Reachable(cfg, exited) && Recorded(cfg, exited, j) && exited.mode.Exited?
  {
    var first := FirstState(cfg);
    StartsHeldBack(cfg, first, j);
    var front := BringToFront(cfg, first, j);
    var ready := LineUp(cfg, front, j, k);
    CountsReachable(cfg, ready);
    RaceStarts(cfg, ready, j, s);
    var lost := Race(cfg, ready, j, k, s);
    RoomAhead(cfg, lost);
    var recorded := DoomedIsRecorded(cfg, lost, j);
    CountsReachable(cfg, recorded);
    exited := RecordedExits(cfg, recorded, j);
  }

  /** Some run ends with the shutdown error, having submitted exactly the lists before `j`. */
  ghost predicate MayEndDropping(cfg: Config, j: nat) {
    exists st {:trigger Recorded(cfg, st, j)} :: Reachable(cfg, st) && st.mode.Exited? && Recorded(cfg, st, j)
  }

  /** The executor can return the shutdown error in place of the failure behind it, with `j` the
      first list not submitted, exactly if no list before `j` fails and a younger list that fits in
      flight with `j` fails at a stage that `j` gets past, not the last one. */
  lemma DropsExactlyTheOvertaken(cfg: Config, j: nat)
    requires cfg.Valid() && cfg.start <= j
    ensures MayEndDropping(cfg, j) <==> Overtaken(cfg, j)
  {
    if MayEndDropping(cfg, j) {
      var st :| Reachable(cfg, st) && st.mode.Exited? && Recorded(cfg, st, j);
      ErrorTracedReachable(cfg, st);
    }
    if Overtaken(cfg, j) {
      var k: nat, s: nat :| Overtakes(cfg, j, k, s);
      var exited := OvertakenIsDropped(cfg, j, k, s);
    }
  }

  /** Some run ends in an error with `j` the first list not submitted, although the sequential run
      submits it. */
  ghost predicate MayLose(cfg: Config, j: nat)
    requires cfg.Valid() && cfg.start <= j
  {
    !Fails(cfg, j) &&
    exists st {:trigger Reachable(cfg, st)} ::
      Reachable(cfg, st) && st.mode.Exited? && st.fatal.Some? && cfg.start + |st.log| == j
  }

  /** The executor can lose a list that the sequential run submits exactly if that list is
      overtaken and does not fail itself. */
  lemma LosesExactlyTheOvertaken(cfg: Config, j: nat)
    requires cfg.Valid() && cfg.start <= j
    ensures MayLose(cfg, j) <==> Overtaken(cfg, j) && !Fails(cfg, j)
  {
    DropsExactlyTheOvertaken(cfg, j);
    if MayLose(cfg, j) {
      var st :| Reachable(cfg, st) && st.mode.Exited? && st.fatal.Some? && cfg.start + |st.log| == j;
      ErrorsAreHonest(cfg, st);
    }
    if MayEndDropping(cfg, j) && !Fails(cfg, j) {
      var st :| Reachable(cfg, st) && st.mode.Exited? && Recorded(cfg, st, j);
      assert Reachable(cfg, st) && st.fatal.Some?;
    }
  }

  /** With a single stage, or one list in flight at a time, nothing is ever dropped. */
  lemma NothingToOvertake(cfg: Config, st: State)
    requires cfg.Valid() && Reachable(cfg, st) && (cfg.stages == 1 || cfg.limit <= 1)
    ensures st.fatal != Some(ShuttingDown)
  {
    ErrorTracedReachable(cfg, st);
  }

  // ---------------------------------------------------------------- an application that drops

  /** An application whose only failure is that of list 1 in the first stage. */
  function SecondListFails(stages: nat, limit: nat, c: Comp, m: Msg): Config {
    Config(stages, limit, 0, false, false, seq(stages, s requires 0 <= s => c),
           (s: nat, _: Comp, id: nat, _: seq<Msg>) => if s == 0 && id == 1 then Fail(c) else Continue(c, m),
           (_: nat, _: Comp, _: nat, _: seq<Msg>) => m, (_: nat) => false,
           (msg: Msg) => msg, m, (_: nat, msg: Msg) => msg)
  }

  lemma {:induction false} FirstListWalks(stages: nat, limit: nat, c: Comp, m: Msg, comps: seq<Comp>, s: nat)
    requires s <= |comps|
    ensures WalkFrom(SecondListFails(stages, limit, c, m), comps, 0, s).Walking?
  {
    if s > 0 { FirstListWalks(stages, limit, c, m, comps, s - 1); }
  }

  /** For a given number of stages and of lists in flight, some application can lose a list that the
      sequential run submits exactly if both are at least two. */
  lemma SomeApplicationLosesIff(stages: nat, limit: nat, c: Comp, m: Msg)
    requires stages > 0
    ensures (exists cfg: Config, j: nat ::
               cfg.Valid() && cfg.stages == stages && cfg.limit == limit && cfg.start <= j && MayLose(cfg, j)) <==>
            stages >= 2 && limit >= 2
  {
    if cfg: Config, j: nat :|
      cfg.Valid() && cfg.stages == stages && cfg.limit == limit && cfg.start <= j && MayLose(cfg, j)
    {
      LosesExactlyTheOvertaken(cfg, j);
    }
    if stages >= 2 && limit >= 2 {
      var cfg := SecondListFails(stages, limit, c, m);
      FirstListWalks(stages, limit, c, m, cfg.init, 1);
      FirstListWalks(stages, limit, c, m, cfg.init, stages);
      assert FailsAt(cfg, 1, 0) by { StoppedStays(cfg, CompsBefore(cfg, 1), 1, 1, stages); }
      assert Overtakes(cfg, 0, 1, 0);
      LosesExactlyTheOvertaken(cfg, 0);
    }
  }
}
