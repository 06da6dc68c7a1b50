/** What travels through the pipeline is what the sequential run computes, and every result that
    reaches the dispatcher tells the truth about its list. */
module ExecutorContents {
  import opened SequentialRuntime
  import opened Executor
  import opened ExecutorCounting
  import opened ExecutorStages
  import opened ExecutorOrder

  // ---------------------------------------------------------------- one stage, one list

  /** Stepping a faithful job from the sequential state leaves a faithful stepped job. */
  lemma StepIsFaithful(cfg: Config, launched: seq<seq<Msg>>, s: nat, comp: Comp, job: Job)
    requires cfg.Valid() && s < cfg.stages && JobOk(cfg, launched, s, job)
    requires comp == CompsBefore(cfg, job.clid)[s]
    ensures SteppedOk(cfg, launched, s, AfterStep(cfg, s, comp, job),
                      cfg.step(s, comp, job.clid, job.culist.msgs[..s]))
  {
    var msgs, after := job.culist.msgs, AfterStep(cfg, s, comp, job).culist.msgs;
    assert msgs == msgs[..s] + msgs[s..];
    assert after[..s] == msgs[..s];
    assert after[s + 1..] == msgs[s + 1..] == msgs[s..][1..];
  }

  lemma WalksOn(cfg: Config, launched: seq<seq<Msg>>, s: nat, job: Job, out: StepOut)
    requires cfg.Valid() && s < cfg.stages && SteppedOk(cfg, launched, s, job, out) && out.Continue?
    ensures JobOk(cfg, launched, s + 1, job)
  {
    var msgs := job.culist.msgs;
    assert msgs[..s + 1] == msgs[..s] + [msgs[s]];
  }

  lemma StopsHere(cfg: Config, launched: seq<seq<Msg>>, s: nat, job: Job, out: StepOut)
    requires cfg.Valid() && s < cfg.stages && SteppedOk(cfg, launched, s, job, out) && !out.Continue?
    ensures Fate(cfg, job.clid) ==
            Stopped(if out.Abort? then AbortedAt(s) else FailedAt(s), job.culist.msgs[..s])
  {
    StoppedStays(cfg, CompsBefore(cfg, job.clid), job.clid, s + 1, cfg.stages);
  }

  /** What the worker makes of a finished step is right. */
  lemma ActedIsFaithful(cfg: Config, st: State, s: nat)
    requires cfg.Valid() && Shape(cfg, st) && Enabled(cfg, st, Act(s)) && Faithful(cfg, st, s)
    ensures var out := st.workers[s].phase.out;
            WorkerOk(cfg, st.launched, st.shutdown || out.Fail? || out.Panic?, s, Acted(st, s))
  {
    var job, out := st.workers[s].job, st.workers[s].phase.out;
    if out.Continue? {
      WalksOn(cfg, st.launched, s, job, out);
      assert job.culist.msgs[..cfg.stages] == job.culist.msgs;
    } else {
      StopsHere(cfg, st.launched, s, job, out);
    }
  }

  // ---------------------------------------------------------------- facts only gain

  lemma MoreLaunched(cfg: Config, launched: seq<seq<Msg>>, content: seq<Msg>, flag: bool, flag': bool,
                     s: nat, w: Worker)
    requires cfg.Valid() && s < cfg.stages && WorkerOk(cfg, launched, flag, s, w) && (flag ==> flag')
    ensures WorkerOk(cfg, launched + [content], flag', s, w) && WorkerOk(cfg, launched, flag', s, w)
  {
  }

  lemma MoreLaunchedQueue(cfg: Config, launched: seq<seq<Msg>>, content: seq<Msg>, s: nat, queue: seq<Job>)
    requires cfg.Valid() && s < cfg.stages && QueueOk(cfg, launched, s, queue)
    ensures QueueOk(cfg, launched + [content], s, queue)
  {
    forall i | 0 <= i < |queue|
      ensures JobOk(cfg, launched + [content], s, queue[i])
    {
      assert JobOk(cfg, launched, s, queue[i]);
    }
  }

  lemma MoreLaunchedResult(cfg: Config, launched: seq<seq<Msg>>, content: seq<Msg>, flag: bool, flag': bool,
                           r: WorkerResult)
    requires cfg.Valid() && ResultOk(cfg, launched, flag, r) && (flag ==> flag')
    ensures ResultOk(cfg, launched + [content], flag', r) && ResultOk(cfg, launched, flag', r)
  {
  }

  // ---------------------------------------------------------------- stages stay faithful

  lemma FaithfulLaunch(cfg: Config, st: State, st': State, stop: bool, s: nat)
    requires cfg.Valid() && Shape(cfg, st) && s < cfg.stages && st.free != [] && Launches(cfg, st, st', stop)
    requires |st.free[|st.free| - 1].msgs| == cfg.stages && st.nextLaunch == cfg.start + |st.launched|
    requires Faithful(cfg, st, s)
    ensures Shape(cfg, st') && Faithful(cfg, st', s)
  {
    var job := NewJob(cfg, st);
    MoreLaunched(cfg, st.launched, job.culist.msgs, st.shutdown, st'.shutdown, s, st.workers[s]);
    MoreLaunchedQueue(cfg, st.launched, job.culist.msgs, s, st.queues[s]);
    if s == 0 {
      assert st'.launched[job.clid - cfg.start] == job.culist.msgs;
      assert JobOk(cfg, st'.launched, 0, job);
    }
  }

  lemma FaithfulElsewhere(cfg: Config, st: State, a: Action, st': State, s: nat)
    requires cfg.Valid() && Shape(cfg, st) && s < cfg.stages && Step(cfg, st, a, st') && !Touches(a, s) && !a.Launch?
    requires Faithful(cfg, st, s)
    ensures Shape(cfg, st') && Faithful(cfg, st', s)
  {
    Elsewhere(cfg, st, a, st', s);
    LaunchedKept(cfg, st, a, st');
    MoreLaunched(cfg, st.launched, [], st.shutdown, st'.shutdown, s, st.workers[s]);
  }

  lemma LaunchedKept(cfg: Config, st: State, a: Action, st': State)
    requires Step(cfg, st, a, st') && !a.Launch?
    ensures st'.launched == st.launched && (st.shutdown ==> st'.shutdown)
  {
  }

  lemma FaithfulReceiving(cfg: Config, st: State, st': State, s: nat)
    requires cfg.Valid() && Shape(cfg, st) && Enabled(cfg, st, Recv(s)) && Receiving(st, st', s)
    requires Faithful(cfg, st, s)
    ensures Shape(cfg, st') && Faithful(cfg, st', s)
  {
    assert JobOk(cfg, st.launched, s, st.queues[s][0]);
  }

  lemma FaithfulChecks(cfg: Config, st: State, st': State, s: nat)
    requires cfg.Valid() && Shape(cfg, st) && Enabled(cfg, st, Check(s)) && Checks(st, st', s)
    requires Faithful(cfg, st, s)
    ensures Shape(cfg, st') && Faithful(cfg, st', s)
  {
  }

  lemma FaithfulSteps(cfg: Config, st: State, st': State, s: nat)
    requires cfg.Valid() && Shape(cfg, st) && Enabled(cfg, st, RunStep(s)) && Steps(cfg, st, st', s)
    requires Faithful(cfg, st, s) && InStep(cfg, st, s)
    ensures Shape(cfg, st') && Faithful(cfg, st', s)
  {
    StepIsFaithful(cfg, st.launched, s, st.comps[s], st.workers[s].job);
  }

  lemma FaithfulActs(cfg: Config, st: State, st': State, s: nat)
    requires cfg.Valid() && Shape(cfg, st) && Enabled(cfg, st, Act(s)) && Acts(st, st', s)
    requires Faithful(cfg, st, s)
    ensures Shape(cfg, st') && Faithful(cfg, st', s)
  {
    ActedIsFaithful(cfg, st, s);
  }

  lemma FaithfulReports(cfg: Config, st: State, st': State, s: nat)
    requires cfg.Valid() && Shape(cfg, st) && Enabled(cfg, st, Report(s)) && Reports(st, st', s)
    requires Faithful(cfg, st, s)
    ensures Shape(cfg, st') && Faithful(cfg, st', s)
  {
  }

  lemma FaithfulForwards(cfg: Config, st: State, st': State, s: nat, t: nat)
    requires cfg.Valid() && Shape(cfg, st) && Enabled(cfg, st, Forward(t)) && Forwards(st, st', t)
    requires s < cfg.stages && (t == s || t + 1 == s) && Faithful(cfg, st, t) && Faithful(cfg, st, s)
    ensures Shape(cfg, st') && Faithful(cfg, st', s)
  {
  }

  lemma FaithfulEarly(cfg: Config, st: State, a: Action, st': State, s: nat)
    requires cfg.Valid() && Shape(cfg, st) && s < cfg.stages && Step(cfg, st, a, st')
    requires Faithful(cfg, st, s) && InStep(cfg, st, s) && (a == Recv(s) || a == Check(s) || a == RunStep(s))
    ensures Shape(cfg, st') && Faithful(cfg, st', s)
  {
    match a
    case Recv(_) => FaithfulReceiving(cfg, st, st', s);
    case Check(_) => FaithfulChecks(cfg, st, st', s);
    case RunStep(_) => FaithfulSteps(cfg, st, st', s);
  }

  lemma FaithfulLate(cfg: Config, st: State, a: Action, st': State, s: nat)
    requires cfg.Valid() && Shape(cfg, st) && s < cfg.stages && Step(cfg, st, a, st')
    requires Faithful(cfg, st, s) && (a == Act(s) || a == Report(s))
    ensures Shape(cfg, st') && Faithful(cfg, st', s)
  {
    if a.Act? { FaithfulActs(cfg, st, st', s); } else { FaithfulReports(cfg, st, st', s); }
  }

  lemma FaithfulTouched(cfg: Config, st: State, a: Action, st': State, s: nat)
    requires cfg.Valid() && Shape(cfg, st) && s < cfg.stages && Step(cfg, st, a, st') && Touches(a, s) && !a.Launch?
    requires Faithful(cfg, st, s) && InStep(cfg, st, s) && (s > 0 ==> Faithful(cfg, st, s - 1))
    ensures Shape(cfg, st') && Faithful(cfg, st', s)
  {
    if a.Forward? {
      FaithfulForwards(cfg, st, st', s, a.s);
    } else if a.Act? || a.Report? {
      FaithfulLate(cfg, st, a, st', s);
    } else {
      FaithfulEarly(cfg, st, a, st', s);
    }
  }

  // ---------------------------------------------------------------- the dispatcher's side

  /** Every list has a slot per stage, every result in the channel and in the reorder buffer is
      true to its list. */
  ghost predicate Collected(cfg: Config, st: State)
    requires cfg.Valid()
  {
    (forall i :: 0 <= i < |st.launched| ==> |st.launched[i]| == cfg.stages) &&
    (forall i :: 0 <= i < |st.free| ==> |st.free[i].msgs| == cfg.stages) &&
    (forall i :: 0 <= i < |st.submitted| ==> |st.submitted[i].msgs| == cfg.stages) &&
    (forall i :: 0 <= i < |st.done| ==> ResultOk(cfg, st.launched, st.shutdown, st.done[i])) &&
    (forall k :: k in st.pending ==> ResultOk(cfg, st.launched, st.shutdown, st.pending[k]))
  }

  /** An error that names a stage names the one where list `id` fails.  (When the generic error is
      recorded is a matter of which lists can be overtaken.) */
  ghost predicate Honest(cfg: Config, id: nat, error: Error)
    requires cfg.Valid() && cfg.start <= id
  {
    match error
    case StageFailed(s) => FailsAt(cfg, id, s)
    case StagePanicked(s) => FailsAt(cfg, id, s)
    case ShuttingDown => true
    case OutOfSync => false
  }

  /** What the sequential run says about a committed list, as far as the commits went. */
  ghost predicate Logged(cfg: Config, st: State)
    requires cfg.Valid() && cfg.start <= st.nextCommit
  {
    SubmitsAll(cfg, st.log, st.launched) &&
    if st.fatal.None? then |st.log| == st.nextCommit - cfg.start
    else |st.log| < st.nextCommit - cfg.start && Honest(cfg, cfg.start + |st.log|, st.fatal.value)
  }

  /** The executor only shuts down because a launched list fails in the sequential run too. */
  ghost predicate Justified(cfg: Config, st: State)
    requires cfg.Valid()
  {
    st.shutdown ==> !NoneFails(cfg, cfg.start, st.nextLaunch)
  }

  lemma CollectedWorker(cfg: Config, st: State, a: Action, st': State)
    requires cfg.Valid() && Shape(cfg, st) && IsWorkerAction(a) && Step(cfg, st, a, st')
    requires Collected(cfg, st) && (a.Report? ==> Faithful(cfg, st, a.s))
    ensures Collected(cfg, st')
  {
    LaunchedKept(cfg, st, a, st');
    WorkersLists(cfg, st, a, st');
    forall i | 0 <= i < |st'.done|
      ensures ResultOk(cfg, st'.launched, st'.shutdown, st'.done[i])
    {
      MoreLaunchedResult(cfg, st.launched, [], st.shutdown, st'.shutdown, st'.done[i]);
    }
    forall k | k in st'.pending
      ensures ResultOk(cfg, st'.launched, st'.shutdown, st'.pending[k])
    {
      MoreLaunchedResult(cfg, st.launched, [], st.shutdown, st'.shutdown, st.pending[k]);
    }
  }

  lemma WorkersLists(cfg: Config, st: State, a: Action, st': State)
    requires IsWorkerAction(a) && Step(cfg, st, a, st')
    ensures SameDispatcher(st, st')
    ensures st'.done == if a.Report? then st.done + [st.workers[a.s].result] else st.done
  {
  }

  lemma CollectedLaunch(cfg: Config, st: State, st': State, stop: bool)
    requires cfg.Valid() && st.free != [] && st.queues != [] && Launches(cfg, st, st', stop) && Collected(cfg, st)
    ensures Collected(cfg, st')
  {
    var content := NewJob(cfg, st).culist.msgs;
    forall i | 0 <= i < |st'.done|
      ensures ResultOk(cfg, st'.launched, st'.shutdown, st'.done[i])
    {
      MoreLaunchedResult(cfg, st.launched, content, st.shutdown, st'.shutdown, st.done[i]);
    }
    forall k | k in st'.pending
      ensures ResultOk(cfg, st'.launched, st'.shutdown, st'.pending[k])
    {
      MoreLaunchedResult(cfg, st.launched, content, st.shutdown, st'.shutdown, st.pending[k]);
    }
  }

  lemma CollectedCommit(cfg: Config, st: State, diverted: nat, st': State)
    requires cfg.Valid() && Enabled(cfg, st, CommitNext(diverted)) && Commits(cfg, st, st', diverted)
    requires Collected(cfg, st)
    ensures Collected(cfg, st')
  {
    assert ResultOk(cfg, st.launched, st.shutdown, st.pending[st.nextCommit]);
    forall i | 0 <= i < |st'.done|
      ensures ResultOk(cfg, st'.launched, st'.shutdown, st'.done[i])
    {
      MoreLaunchedResult(cfg, st.launched, [], st.shutdown, st'.shutdown, st.done[i]);
    }
    forall k | k in st'.pending
      ensures ResultOk(cfg, st'.launched, st'.shutdown, st'.pending[k])
    {
      MoreLaunchedResult(cfg, st.launched, [], st.shutdown, st'.shutdown, st.pending[k]);
    }
  }

  lemma CollectedNext(cfg: Config, st: State, a: Action, st': State)
    requires cfg.Valid() && Shape(cfg, st) && Step(cfg, st, a, st')
    requires Collected(cfg, st) && (a.Report? ==> Faithful(cfg, st, a.s))
    ensures Collected(cfg, st')
  {
    if IsWorkerAction(a) {
      CollectedWorker(cfg, st, a, st');
    } else {
      match a
      case Launch(_, stop) => CollectedLaunch(cfg, st, st', stop);
      case CommitNext(diverted) => CollectedCommit(cfg, st, diverted, st');
      case _ =>
    }
  }

  lemma SubmitsNext(cfg: Config, log: seq<Commit>, contents: seq<seq<Msg>>, entry: Commit)
    requires cfg.Valid() && SubmitsAll(cfg, log, contents)
    requires |log| < |contents| && |contents[|log|]| == cfg.stages
    requires !Fails(cfg, cfg.start + |log|) && entry == Expected(cfg, cfg.start + |log|, contents[|log|])
    ensures SubmitsAll(cfg, log + [entry], contents)
  {
    var longer := log + [entry];
    forall i | 0 <= i < |longer|
      ensures Submits(cfg, longer, contents, i)
    {
      assert i < |log| ==> Submits(cfg, log, contents, i);
    }
  }

  lemma LoggedCommit(cfg: Config, st: State, diverted: nat, st': State)
    requires cfg.Valid() && Enabled(cfg, st, CommitNext(diverted)) && Commits(cfg, st, st', diverted)
    requires cfg.start <= st.nextCommit == st.cursor == st.pending[st.nextCommit].clid
    requires Logged(cfg, st) && ResultOk(cfg, st.launched, st.shutdown, st.pending[st.nextCommit])
    ensures Logged(cfg, st') && st'.shutdown == st.shutdown
  {
    var r := st.pending[st.nextCommit];
    if st.fatal.None? && !r.outcome.Failure? {
      SubmittedIsExpected(cfg, r.clid, st.launched[r.clid - cfg.start], r.culist.value.msgs,
                          if r.outcome.OkAbort? then Aborted else Completed);
      SubmitsNext(cfg, st.log, st.launched, Submission(cfg, r));
    }
  }

  lemma LoggedLaunch(cfg: Config, st: State, st': State, stop: bool)
    requires cfg.Valid() && cfg.start <= st.nextCommit && st.free != [] && st.queues != []
    requires Launches(cfg, st, st', stop) && Logged(cfg, st)
    ensures Logged(cfg, st')
  {
    assert st'.launched[..|st.launched|] == st.launched;
    MoreContents(cfg, st.log, st'.launched, |st.launched|);
  }

  lemma JustifiedActs(cfg: Config, st: State, st': State, s: nat)
    requires cfg.Valid() && Shape(cfg, st) && Enabled(cfg, st, Act(s)) && Acts(st, st', s)
    requires Faithful(cfg, st, s) && Justified(cfg, st) && st.nextLaunch == cfg.start + |st.launched|
    ensures Justified(cfg, st')
  {
    var job, out := st.workers[s].job, st.workers[s].phase.out;
    if out.Fail? || out.Panic? {
      StopsHere(cfg, st.launched, s, job, out);
      assert Fails(cfg, job.clid);
    }
  }

  /** Only a failure comes without its list. */
  lemma OnlyFailuresLackAList(cfg: Config, st: State, k: nat)
    requires cfg.Valid() && Collected(cfg, st) && k in st.pending
    ensures st.pending[k].culist.Some? || st.pending[k].outcome.Failure?
  {
    assert ResultOk(cfg, st.launched, st.shutdown, st.pending[k]);
  }
}
