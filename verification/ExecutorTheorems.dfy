/** What holds in every state any interleaving of the parallel executor can reach. */
module ExecutorTheorems {
  import opened Wrappers
  import opened SequentialRuntime
  import opened LogEntries
  import opened Executor
  import opened ExecutorCounting
  import opened ExecutorAccounting
  import opened ExecutorModes
  import opened ExecutorOwnership
  import opened ExecutorStages
  import opened ExecutorOrder
  import opened ExecutorInvariant

  // ---------------------------------------------------------------- refinement

  /** Whatever the interleaving, what the parallel executor has submitted is, in order and in
      content, a prefix of what successive sequential iterations submit. */
  lemma ParallelRefinesSequential(cfg: Config, st: State, sequential: seq<Commit>)
    requires cfg.Valid() && Reachable(cfg, st) && IsSequentialLog(cfg, sequential, st.launched)
    ensures st.log <= sequential
    ensures st.fatal.None? ==> |st.log| == st.nextCommit - cfg.start
    ensures forall i :: 0 <= i < |st.launched| ==> |st.launched[i]| == cfg.stages
  {
    InvariantReachable(cfg, st);
    SubmissionsArePrefix(cfg, st.log, sequential, st.launched);
  }

  /** Every entry the parallel executor has submitted holds, slot by slot, what the stages produced
      for that list, as far as it may be logged. */
  lemma EntriesAreTrue(cfg: Config, st: State)
    requires cfg.Valid() && Reachable(cfg, st)
    ensures TrueLog(cfg, st.log, st.launched)
  {
    InvariantReachable(cfg, st);
    SubmissionsAreTrue(cfg, st.log, st.launched);
  }

  /** Compared with a sequential run whose lists held something else when they were recycled, every
      submission still agrees, except for what an aborted list holds from the aborting stage on. */
  lemma ParallelAgreesWithAnySequentialRun(cfg: Config, st: State, sequential: seq<Commit>, contents: seq<seq<Msg>>)
    requires cfg.Valid() && Reachable(cfg, st) && IsSequentialLog(cfg, sequential, contents)
    requires |st.launched| <= |contents|
    ensures |st.log| <= |sequential|
    ensures forall i {:trigger st.log[i]} :: 0 <= i < |st.log| ==>
              Agree(cfg, cfg.start + i, st.log[i], sequential[i])
  {
    LoggedReachable(cfg, st);
    SubmissionsAgree(cfg, st.log, st.launched, sequential, contents);
  }

  /** If no launched list fails in the sequential run, no interleaving reports an error, every
      committed list was submitted, and at the end that is the whole sequential log. */
  lemma WithoutFailuresNothingIsLost(cfg: Config, st: State, sequential: seq<Commit>)
    requires cfg.Valid() && Reachable(cfg, st) && IsSequentialLog(cfg, sequential, st.launched)
    requires NoneFails(cfg, cfg.start, st.nextLaunch)
    ensures !st.shutdown && st.fatal.None? && st.lost == []
    ensures st.log <= sequential && |st.log| == st.nextCommit - cfg.start
    ensures st.mode.Exited? ==> st.log == sequential
  {
    InvariantReachable(cfg, st);
    ParallelRefinesSequential(cfg, st, sequential);
    if st.mode.Exited? { NothingInFlight(cfg, st); }
  }

  /** When the dispatcher loop ends, every launched list is committed and accounted for: nothing
      is left in a stage, the channel or the reorder buffer, and either all of them were
      submitted or there is an error to return. */
  lemma NothingIsLeftBehind(cfg: Config, st: State)
    requires cfg.Valid() && Reachable(cfg, st) && st.mode.Exited?
    ensures st.nextCommit == st.nextLaunch && st.pending == map[] && st.done == []
    ensures Shape(cfg, st) && InPipeline(cfg, st, Any) == 0
    ensures st.fatal.None? ==> |st.log| == |st.launched| && NoneFails(cfg, cfg.start, st.nextLaunch)
  {
    InvariantReachable(cfg, st);
    NothingInFlight(cfg, st);
    SubmittedDoNotFail(cfg, st.log, st.launched);
  }

  // ---------------------------------------------------------------- single steps

  /** A launch takes a list from the pool, resets it slot by slot, and hands it to the first stage
      under the next id. */
  lemma LaunchHandsOver(cfg: Config, st: State, st': State, rate: bool, stop: bool)
    requires Step(cfg, st, Launch(rate, stop), st')
    ensures st.free != [] && st'.free + [st.free[|st.free| - 1]] == st.free
    ensures |st'.queues| > 0 && |st'.queues[0]| == |st.queues[0]| + 1
    ensures var taken, job := st.free[|st.free| - 1], st'.queues[0][|st.queues[0]|];
            job.clid == st.nextLaunch && job.culist.box == taken.box &&
            st'.launched == st.launched + [job.culist.msgs] && |job.culist.msgs| == |taken.msgs| &&
            forall s :: 0 <= s < |taken.msgs| ==> job.culist.msgs[s] == cfg.zeroed(taken.msgs[s])
  {
  }

  /** Once the shutdown flag is up no worker is cleared for a step or for handing its list on, and none
      completes a list. */
  lemma NothingPassesAfterShutdown(cfg: Config, st: State, a: Action, st': State, s: nat)
    requires IsWorkerAction(a) && Step(cfg, st, a, st') && st.shutdown && s < |st.workers|
    ensures st'.shutdown && |st'.workers| == |st.workers|
    ensures st'.workers[s] == st.workers[s] || st'.workers[s].Idle? ||
            (st'.workers[s].Busy? && (st'.workers[s].phase.Received? || st'.workers[s].phase.Stepped?)) ||
            (st'.workers[s].Reporting? && !st'.workers[s].result.outcome.OkContinue?)
  {
  }

  // ---------------------------------------------------------------- accounting

  /** No launched list is ever lost, doubled or committed twice: an id is in exactly one place
      from its launch to its commit and in none before or after. */
  lemma OnePlaceFromLaunchToCommit(cfg: Config, st: State, id: nat)
    requires cfg.Valid() && Reachable(cfg, st)
    ensures Shape(cfg, st)
    ensures InPipeline(cfg, st, Id(id)) + (if id in st.pending then 1 else 0) ==
            if st.nextCommit <= id < st.nextLaunch then 1 else 0
  {
    InvariantReachable(cfg, st);
    assert Places(cfg, st, id) == if st.nextCommit <= id < st.nextLaunch then 1 else 0;
  }

  /** The dispatcher's counters: in flight plus buffered is launched minus committed, in flight
      counts the lists in stages and channel and respects the limit, the saturating decrement
      never saturates, and the checkpoint never disagrees with the result it is compared to. */
  lemma CountersAgree(cfg: Config, st: State)
    requires cfg.Valid() && Reachable(cfg, st)
    ensures Shape(cfg, st) && st.nextCommit <= st.nextLaunch
    ensures st.inFlight + |st.pending| == st.nextLaunch - st.nextCommit
    ensures InPipeline(cfg, st, Any) == st.inFlight <= cfg.limit
    ensures Enabled(cfg, st, Receive) ==> st.inFlight > 0 && st.done[0].clid !in st.pending
    ensures st.nextCommit in st.pending ==> st.cursor == st.pending[st.nextCommit].clid == st.nextCommit
  {
    InvariantReachable(cfg, st);
    if st.done != [] { DoneIsElsewhere(cfg, st); }
  }

  /** Every boxed list has exactly one owner, unless a panicking step took it down. */
  lemma OneOwnerPerList(cfg: Config, st: State, b: nat)
    requires cfg.Valid() && Reachable(cfg, st)
    ensures Shape(cfg, st)
    ensures InPipeline(cfg, st, Box(b)) + |Buffered(st.pending, b)| + Count(st.free, ListIs(b)) +
            Count(st.submitted, ListIs(b)) + Count(st.diverted, ListIs(b)) + Count(st.lost, BoxIs(Box(b))) ==
            if b < cfg.limit then 1 else 0
  {
    OwnedReachable(cfg, st);
    assert Owners(cfg, st, b) == if b < cfg.limit then 1 else 0;
  }

  /** Only a panicking step loses a list, and one at a time. */
  lemma OnlyPanicsLoseLists(cfg: Config, st: State, a: Action, st': State)
    requires Step(cfg, st, a, st')
    ensures st'.lost == st.lost ||
            (a.Act? && st.workers[a.s].phase.out.Panic? && st'.shutdown &&
             st'.lost == st.lost + [st.workers[a.s].job.culist.box])
  {
  }

  /** At most one launched, uncommitted list captures a keyframe: the recorded one. */
  lemma KeyframesExclude(cfg: Config, st: State, id: nat)
    requires cfg.Valid() && Reachable(cfg, st)
    ensures st.activeKeyframe == Some(id) <==>
            st.nextCommit <= id < st.nextLaunch && cfg.captures(id)
  {
    InvariantReachable(cfg, st);
  }

  /** Whatever a later stage still has to step is older than everything an earlier stage still
      has to step. */
  lemma StagesKeepTheOrder(cfg: Config, st: State, s: nat, t: nat, i: nat, j: nat)
    requires cfg.Valid() && Reachable(cfg, st) && s < t < cfg.stages && Shape(cfg, st)
    requires i < |Ahead(st.workers[s], st.queues[s])| && j < |Ahead(st.workers[t], st.queues[t])|
    ensures Ahead(st.workers[t], st.queues[t])[j].clid < Ahead(st.workers[s], st.queues[s])[i].clid
  {
    InvariantReachable(cfg, st);
    forall u: nat | u < cfg.stages
      ensures Ordered(cfg, st, u)
    {
      assert StageOk(cfg, st, u);
    }
    LaterStagesHoldOlderLists(cfg, st, s, t, i, j);
  }
}
