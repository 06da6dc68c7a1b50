/** The parallel executor as a state machine: a dispatcher that launches numbered CopperLists
    into a chain of bounded FIFO stage queues, one worker per stage, and a reorder buffer that
    commits strictly by id.  One action is one step of the dispatcher or of one worker; a run
    is any interleaving of enabled actions. */
module Executor {
  import opened Wrappers
  import opened SequentialRuntime

  datatype CopperList = CopperList(box: nat, msgs: seq<Msg>)

  datatype Job = Job(clid: nat, culist: CopperList)

  datatype Error = StageFailed(stage: nat) | StagePanicked(stage: nat) | ShuttingDown | OutOfSync

  datatype Outcome = OkContinue | OkAbort | Failure(error: Error)

  datatype WorkerResult = WorkerResult(clid: nat, culist: Option<CopperList>, outcome: Outcome)

  /** How far a worker is with the job it holds. */
  datatype Phase =
    | Received             // the shutdown flag is not read yet
    | Running              // the flag was clear; about to run the step
    | Stepped(out: StepOut)
    | Forwarding           // about to hand over to the next stage

  datatype Worker = Idle | Busy(job: Job, phase: Phase) | Reporting(result: WorkerResult)

  datatype Mode =
    | Top          // at the head of the dispatcher loop
    | Waiting      // blocked on the done channel
    | Committing   // in the ordered commit loop
    | Exited

  datatype State = State(
    mode: Mode,
    stopLaunching: bool,
    fatal: Option<Error>,
    inFlight: nat,
    nextLaunch: nat,
    nextCommit: nat,
    pending: map<nat, WorkerResult>,      // the reorder buffer
    activeKeyframe: Option<nat>,
    cursor: nat,                          // the commit checkpoint
    free: seq<CopperList>,
    submitted: seq<CopperList>,           // queued for serialisation, oldest first
    diverted: seq<CopperList>,            // taken back into the list manager's own pool
    shutdown: bool,
    queues: seq<seq<Job>>,
    workers: seq<Worker>,
    comps: seq<Comp>,
    done: seq<WorkerResult>,
    log: seq<Commit>,
    // History, read by no guard: what each launched list held; the id after the last list each
    // stage stepped; the boxes lost to panics.
    launched: seq<seq<Msg>>,
    seen: seq<nat>,
    lost: seq<nat>)

  function Capacity(cfg: Config): nat {
    if cfg.limit > 1 then cfg.limit else 1
  }

  function Blank(cfg: Config): seq<Msg> {
    seq(cfg.stages, i requires 0 <= i => cfg.blank)
  }

  predicate Init(cfg: Config, st: State) {
    st.mode.Top? && !st.stopLaunching && st.fatal.None? &&
    st.inFlight == 0 && st.nextLaunch == st.nextCommit == st.cursor == cfg.start &&
    st.pending == map[] && st.activeKeyframe.None? &&
    st.free == seq(cfg.limit, b requires 0 <= b => CopperList(b, Blank(cfg))) && st.submitted == [] &&
    st.diverted == [] &&
    !st.shutdown && st.queues == seq(cfg.stages, s requires 0 <= s => []) &&
    st.workers == seq(cfg.stages, s requires 0 <= s => Idle) && st.comps == cfg.init &&
    st.done == [] && st.log == [] && st.launched == [] && st.lost == [] &&
    st.seen == seq(cfg.stages, s requires 0 <= s => cfg.start)
  }

  // ---------------------------------------------------------------- actions

  /** The arguments of an action are what its thread sampled: the rate limiter's readiness, the
      stop flag, or how many serialised lists the list manager took back while a list was
      submitted to it. */
  datatype Action =
    | Reclaim
    | Launch(rateReady: bool, stopSeen: bool)
    | WaitReclaim(rateReady: bool)
    | WaitRate(rateReady: bool)
    | Await(rateReady: bool, rateReadyAgain: bool)
    | Exit
    | TimeOut(stopSeen: bool)
    | Receive
    | CommitNext(diverted: nat)
    | EndCommits(stopSeen: bool)
    | Recv(s: nat)
    | Check(s: nat)
    | RunStep(s: nat)
    | Act(s: nat)
    | Forward(s: nat)
    | Report(s: nat)

  predicate IsWorkerAction(a: Action) {
    a.Recv? || a.Check? || a.RunStep? || a.Act? || a.Forward? || a.Report?
  }

  /** Without a rate limiter the dispatcher always finds it ready. */
  predicate Sampled(cfg: Config, ready: bool) {
    cfg.limited || ready
  }

  predicate Stopping(st: State) {
    st.stopLaunching || st.fatal.Some?
  }

  predicate KeyframeReady(cfg: Config, st: State) {
    st.activeKeyframe.None? || !cfg.captures(st.nextLaunch)
  }

  predicate LaunchReady(cfg: Config, st: State, rateReady: bool) {
    !Stopping(st) && st.inFlight < cfg.limit && rateReady && KeyframeReady(cfg, st) && st.free != []
  }

  /** Stage `s` exists, and its worker is holding a job in phase `p`. */
  predicate Holds(st: State, s: nat, p: Phase) {
    s < |st.workers| && st.workers[s].Busy? && st.workers[s].phase == p
  }

  predicate Enabled(cfg: Config, st: State, a: Action) {
    match a
    case Reclaim => st.mode.Top? && st.submitted != []
    case Launch(rate, _) =>
      st.mode.Top? && Sampled(cfg, rate) && LaunchReady(cfg, st, rate) && st.queues != [] &&
      |st.queues[0]| < Capacity(cfg)
    case WaitReclaim(rate) =>
      st.mode.Top? && Sampled(cfg, rate) && !LaunchReady(cfg, st, rate) && st.inFlight == 0 &&
      !Stopping(st) && st.free == [] && st.submitted != []
    case WaitRate(rate) =>
      st.mode.Top? && cfg.limited && !LaunchReady(cfg, st, rate) && st.inFlight == 0 &&
      !Stopping(st) && st.free != []
    case Await(rate, again) =>
      st.mode.Top? && Sampled(cfg, rate) && Sampled(cfg, again) && !LaunchReady(cfg, st, rate) &&
      (st.inFlight == 0 ==> !Stopping(st) && st.free != [] && again)
    case Exit => st.mode.Top? && st.inFlight == 0 && Stopping(st)
    case TimeOut(_) => st.mode.Waiting? && cfg.limited && st.inFlight > 0 && !Stopping(st)
    case Receive => st.mode.Waiting? && st.done != []
    case CommitNext(diverted) =>
      // A result without a list is only ever a failure; committing any other would panic.
      st.mode.Committing? && st.nextCommit in st.pending &&
      (st.fatal.None? && !st.pending[st.nextCommit].outcome.Failure? ==>
         st.pending[st.nextCommit].culist.Some?) &&
      diverted <= if cfg.asyncIo then |st.submitted| + 1 else 0
    case EndCommits(_) => st.mode.Committing? && st.nextCommit !in st.pending
    case Recv(s) =>
      s < |st.workers| && s < |st.queues| && st.workers[s].Idle? && st.queues[s] != []
    case Check(s) => Holds(st, s, Received)
    case RunStep(s) =>
      Holds(st, s, Running) && s < |st.comps| && s < |st.seen| &&
      s < |st.workers[s].job.culist.msgs|
    case Act(s) => s < |st.workers| && st.workers[s].Busy? && st.workers[s].phase.Stepped?
    case Forward(s) =>
      Holds(st, s, Forwarding) && s + 1 < |st.queues| && |st.queues[s + 1]| < Capacity(cfg)
    case Report(s) => s < |st.workers| && st.workers[s].Reporting?
  }

  // ---------------------------------------------------------------- what a step leaves alone

  predicate SameStages(st: State, st': State) {
    st'.shutdown == st.shutdown && st'.queues == st.queues && st'.workers == st.workers &&
    st'.comps == st.comps && st'.seen == st.seen && st'.lost == st.lost
  }

  predicate SameLists(st: State, st': State) {
    st'.free == st.free && st'.submitted == st.submitted && st'.diverted == st.diverted &&
    st'.log == st.log && st'.launched == st.launched
  }

  predicate SameCounters(st: State, st': State) {
    st'.inFlight == st.inFlight && st'.nextLaunch == st.nextLaunch &&
    st'.nextCommit == st.nextCommit && st'.pending == st.pending &&
    st'.activeKeyframe == st.activeKeyframe && st'.cursor == st.cursor
  }

  predicate SameDispatcher(st: State, st': State) {
    SameLists(st, st') && SameCounters(st, st') &&
    st'.mode == st.mode && st'.stopLaunching == st.stopLaunching && st'.fatal == st.fatal
  }

  // ---------------------------------------------------------------- dispatcher steps

  /** The oldest submitted list comes back from the list manager. */
  predicate Reclaims(st: State, st': State)
    requires st.submitted != []
  {
    SameStages(st, st') && SameCounters(st, st') && st'.mode == st.mode &&
    st'.stopLaunching == st.stopLaunching && st'.fatal == st.fatal && st'.done == st.done &&
    st'.log == st.log && st'.launched == st.launched && st'.diverted == st.diverted &&
    st'.free == st.free + [st.submitted[0]] && st'.submitted == st.submitted[1..]
  }

  function Reset(cfg: Config, msgs: seq<Msg>): (reset: seq<Msg>)
    ensures |reset| == |msgs|
  {
    seq(|msgs|, i requires 0 <= i < |msgs| => cfg.zeroed(msgs[i]))
  }

  function NewJob(cfg: Config, st: State): Job
    requires st.free != []
  {
    var culist := st.free[|st.free| - 1];
    Job(st.nextLaunch, culist.(msgs := Reset(cfg, culist.msgs)))
  }

  predicate Launches(cfg: Config, st: State, st': State, stopSeen: bool)
    requires st.free != [] && st.queues != []
  {
    var job := NewJob(cfg, st);
    st'.shutdown == st.shutdown && st'.workers == st.workers && st'.comps == st.comps &&
    st'.seen == st.seen && st'.lost == st.lost && st'.done == st.done &&
    st'.queues == st.queues[0 := st.queues[0] + [job]] &&
    st'.free == st.free[..|st.free| - 1] && st'.submitted == st.submitted &&
    st'.diverted == st.diverted && st'.log == st.log &&
    st'.launched == st.launched + [job.culist.msgs] &&
    st'.mode == st.mode && st'.fatal == st.fatal &&
    st'.stopLaunching == (st.stopLaunching || stopSeen) &&
    st'.inFlight == st.inFlight + 1 && st'.nextLaunch == st.nextLaunch + 1 &&
    st'.nextCommit == st.nextCommit && st'.cursor == st.cursor && st'.pending == st.pending &&
    st'.activeKeyframe ==
      (if cfg.captures(st.nextLaunch) then Some(st.nextLaunch) else st.activeKeyframe)
  }

  /** A step that only moves the dispatcher along, perhaps after sampling the stop flag. */
  predicate MovesTo(st: State, st': State, mode: Mode, stopSeen: bool) {
    SameStages(st, st') && SameLists(st, st') && SameCounters(st, st') && st'.done == st.done &&
    st'.fatal == st.fatal && st'.mode == mode &&
    st'.stopLaunching == (st.stopLaunching || stopSeen)
  }

  function SaturatingDec(n: nat): nat {
    if n == 0 then 0 else n - 1
  }

  predicate Receives(st: State, st': State)
    requires st.done != []
  {
    SameStages(st, st') && SameLists(st, st') && st'.mode.Committing? &&
    st'.stopLaunching == st.stopLaunching && st'.fatal == st.fatal &&
    st'.done == st.done[1..] && st'.inFlight == SaturatingDec(st.inFlight) &&
    st'.pending == st.pending[st.done[0].clid := st.done[0]] &&
    st'.nextLaunch == st.nextLaunch && st'.nextCommit == st.nextCommit &&
    st'.activeKeyframe == st.activeKeyframe && st'.cursor == st.cursor
  }

  /** The error the commit loop goes on with, having compared the checkpoint and looked at the
      result: the first one stays. */
  function FatalAfter(st: State, r: WorkerResult): Option<Error> {
    if st.fatal.Some? then st.fatal
    else if st.cursor != r.clid then Some(OutOfSync)
    else if r.outcome.Failure? then Some(r.outcome.error)
    else None
  }

  /** A result committed without error submits its list: an aborted one as it is, a completed
      one without the payloads that are not to be logged. */
  function Submission(cfg: Config, r: WorkerResult): Commit
    requires r.culist.Some?
  {
    if r.outcome.OkAbort? then Commit(r.clid, true, r.culist.value.msgs)
    else Commit(r.clid, false, Prepared(cfg, r.culist.value.msgs))
  }

  /** Where the list of a result goes.  Without an error it is submitted.  The list manager either
      recycles it at once, or queues it for its serialiser; before and after queuing, it takes any
      `diverted` serialised lists, the oldest ones, back into a pool of its own that the
      dispatcher never sees.  With an error the list goes straight back to the dispatcher's pool. */
  predicate Disposes(cfg: Config, st: State, st': State, r: WorkerResult, diverted: nat)
    requires FatalAfter(st, r).None? ==> r.culist.Some?
    requires diverted <= |st.submitted| + 1
  {
    if FatalAfter(st, r).None? then
      var culist := r.culist.value.(msgs := Submission(cfg, r).msgs);
      var queued := st.submitted + [culist];
      st'.log == st.log + [Submission(cfg, r)] &&
      (if cfg.asyncIo then
         st'.free == st.free && st'.submitted == queued[diverted..] &&
         st'.diverted == st.diverted + queued[..diverted]
       else st'.free == st.free + [culist] && st'.submitted == st.submitted && st'.diverted == st.diverted)
    else
      st'.log == st.log && st'.submitted == st.submitted && st'.diverted == st.diverted &&
      st'.free == (if r.culist.Some? then st.free + [r.culist.value] else st.free)
  }

  predicate Commits(cfg: Config, st: State, st': State, diverted: nat)
    requires Enabled(cfg, st, CommitNext(diverted))
  {
    var r := st.pending[st.nextCommit];
    var fatal := FatalAfter(st, r);
    Disposes(cfg, st, st', r, diverted) && st'.launched == st.launched &&
    st'.fatal == fatal && st'.stopLaunching == (st.stopLaunching || (st.fatal.None? && fatal.Some?)) &&
    st'.shutdown == (st.shutdown || (st.fatal.None? && fatal.Some?)) &&
    st'.pending == st.pending - {st.nextCommit} &&
    st'.activeKeyframe == (if st.activeKeyframe == Some(r.clid) then None else st.activeKeyframe) &&
    st'.cursor == r.clid + 1 && st'.nextCommit == st.nextCommit + 1 &&
    st'.mode == st.mode && st'.inFlight == st.inFlight && st'.nextLaunch == st.nextLaunch &&
    st'.queues == st.queues && st'.workers == st.workers && st'.comps == st.comps &&
    st'.seen == st.seen && st'.lost == st.lost && st'.done == st.done
  }

  // ---------------------------------------------------------------- worker steps

  predicate Receiving(st: State, st': State, s: nat)
    requires s < |st.workers| && s < |st.queues| && st.queues[s] != []
  {
    SameDispatcher(st, st') && st'.done == st.done && st'.shutdown == st.shutdown &&
    st'.comps == st.comps && st'.seen == st.seen && st'.lost == st.lost &&
    st'.queues == st.queues[s := st.queues[s][1..]] &&
    st'.workers == st.workers[s := Busy(st.queues[s][0], Received)]
  }

  function Ends(job: Job, outcome: Outcome): Worker {
    Reporting(WorkerResult(job.clid, Some(job.culist), outcome))
  }

  predicate Checks(st: State, st': State, s: nat)
    requires s < |st.workers| && st.workers[s].Busy?
  {
    var job := st.workers[s].job;
    SameDispatcher(st, st') && st'.done == st.done && st'.queues == st.queues &&
    st'.comps == st.comps && st'.seen == st.seen && st'.lost == st.lost &&
    st'.shutdown == st.shutdown &&
    st'.workers == st.workers[s := if st.shutdown then Ends(job, Failure(ShuttingDown))
                                   else Busy(job, Running)]
  }

  /** The list after stage `s` stepped it in component state `c`. */
  function AfterStep(cfg: Config, s: nat, c: Comp, job: Job): Job
    requires s < |job.culist.msgs|
  {
    var msgs := job.culist.msgs;
    var out := cfg.step(s, c, job.clid, msgs[..s]);
    var slot := if out.Continue? then out.msg else cfg.leftover(s, c, job.clid, msgs);
    job.(culist := job.culist.(msgs := msgs[s := slot]))
  }

  predicate Steps(cfg: Config, st: State, st': State, s: nat)
    requires Enabled(cfg, st, RunStep(s))
  {
    var job := st.workers[s].job;
    var out := cfg.step(s, st.comps[s], job.clid, job.culist.msgs[..s]);
    SameDispatcher(st, st') && st'.done == st.done && st'.shutdown == st.shutdown &&
    st'.queues == st.queues && st'.lost == st.lost &&
    st'.workers == st.workers[s := Busy(AfterStep(cfg, s, st.comps[s], job), Stepped(out))] &&
    st'.comps == st.comps[s := out.comp] && st'.seen == st.seen[s := job.clid + 1]
  }

  /** What the worker of stage `s` turns its finished step into. */
  function Acted(st: State, s: nat): Worker
    requires s < |st.workers| && st.workers[s].Busy? && st.workers[s].phase.Stepped?
  {
    var job := st.workers[s].job;
    match st.workers[s].phase.out
    case Continue(_, _) =>
      if st.shutdown then Ends(job, Failure(ShuttingDown))
      else if s + 1 < |st.workers| then Busy(job, Forwarding)
      else Ends(job, OkContinue)
    case Abort(_) => Ends(job, OkAbort)
    case Fail(_) => Ends(job, Failure(StageFailed(s)))
    case Panic(_) => Reporting(WorkerResult(job.clid, None, Failure(StagePanicked(s))))
  }

  /** A failure raises the shutdown flag; a panic also takes its list down with it. */
  predicate Acts(st: State, st': State, s: nat)
    requires s < |st.workers| && st.workers[s].Busy? && st.workers[s].phase.Stepped?
  {
    var out := st.workers[s].phase.out;
    SameDispatcher(st, st') && st'.done == st.done && st'.queues == st.queues &&
    st'.comps == st.comps && st'.seen == st.seen &&
    st'.shutdown == (st.shutdown || out.Fail? || out.Panic?) &&
    st'.lost == (if out.Panic? then st.lost + [st.workers[s].job.culist.box] else st.lost) &&
    st'.workers == st.workers[s := Acted(st, s)]
  }

  predicate Forwards(st: State, st': State, s: nat)
    requires s < |st.workers| && st.workers[s].Busy? && s + 1 < |st.queues|
  {
    SameDispatcher(st, st') && st'.done == st.done && st'.shutdown == st.shutdown &&
    st'.comps == st.comps && st'.seen == st.seen && st'.lost == st.lost &&
    st'.queues == st.queues[s + 1 := st.queues[s + 1] + [st.workers[s].job]] &&
    st'.workers == st.workers[s := Idle]
  }

  predicate Reports(st: State, st': State, s: nat)
    requires s < |st.workers| && st.workers[s].Reporting?
  {
    SameDispatcher(st, st') && st'.shutdown == st.shutdown && st'.queues == st.queues &&
    st'.comps == st.comps && st'.seen == st.seen && st'.lost == st.lost &&
    st'.done == st.done + [st.workers[s].result] && st'.workers == st.workers[s := Idle]
  }

  // ---------------------------------------------------------------- runs

  predicate Step(cfg: Config, st: State, a: Action, st': State) {
    Enabled(cfg, st, a) &&
    match a
    case Reclaim => Reclaims(st, st')
    case Launch(_, stopSeen) => Launches(cfg, st, st', stopSeen)
    case WaitReclaim(_) => Reclaims(st, st')
    case WaitRate(_) => MovesTo(st, st', Top, false)
    case Await(_, _) => MovesTo(st, st', Waiting, false)
    case Exit => MovesTo(st, st', Exited, false)
    case TimeOut(stopSeen) => MovesTo(st, st', Top, stopSeen)
    case Receive => Receives(st, st')
    case CommitNext(diverted) => Commits(cfg, st, st', diverted)
    case EndCommits(stopSeen) => MovesTo(st, st', Top, stopSeen)
    case Recv(s) => Receiving(st, st', s)
    case Check(s) => Checks(st, st', s)
    case RunStep(s) => Steps(cfg, st, st', s)
    case Act(s) => Acts(st, st', s)
    case Forward(s) => Forwards(st, st', s)
    case Report(s) => Reports(st, st', s)
  }

  /** A run: a first state and the steps taken since; `st` is the state it has led to. */
  datatype Run = Start(st: State) | Then(before: Run, a: Action, st: State)

  predicate IsRun(cfg: Config, run: Run) {
    match run
    case Start(st) => Init(cfg, st)
    case Then(before, a, st) => IsRun(cfg, before) && Step(cfg, before.st, a, st)
  }

  ghost predicate Reachable(cfg: Config, st: State) {
    exists run {:trigger IsRun(cfg, run)} :: IsRun(cfg, run) && run.st == st
  }
}
