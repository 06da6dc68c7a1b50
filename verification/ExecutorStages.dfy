/** What the lists inside a stage look like: in which order they come, and that each holds what
    the sequential runtime would have produced by then. */
module ExecutorStages {
  import opened SequentialRuntime
  import opened Executor
  import opened ExecutorCounting

  // ---------------------------------------------------------------- order

  predicate BeforeStep(w: Worker) {
    w.Busy? && (w.phase.Received? || w.phase.Running?)
  }

  predicate AfterItsStep(w: Worker) {
    w.Busy? && !BeforeStep(w)
  }

  /** The jobs a stage still has to step, next one first. */
  function Ahead(w: Worker, queue: seq<Job>): seq<Job> {
    (if BeforeStep(w) then [w.job] else []) + queue
  }

  /** Every id below this has left the earlier stages. */
  function Passed(st: State, s: nat): int
    requires s == 0 || (s - 1 < |st.workers| && s - 1 < |st.seen|)
  {
    if s == 0 then st.nextLaunch
    else
      var held: int := if AfterItsStep(st.workers[s - 1]) then 1 else 0;
      st.seen[s - 1] - held
  }

  ghost predicate Older(jobs: seq<Job>, i: int, j: int)
    requires 0 <= i < j < |jobs|
  {
    jobs[i].clid < jobs[j].clid
  }

  ghost predicate Increasing(jobs: seq<Job>) {
    forall i, j {:trigger Older(jobs, i, j)} :: 0 <= i < j < |jobs| ==> Older(jobs, i, j)
  }

  ghost predicate Within(jobs: seq<Job>, lo: int, hi: int) {
    forall i :: 0 <= i < |jobs| ==> lo <= jobs[i].clid < hi
  }

  ghost predicate Among(jobs: seq<Job>, id: nat) {
    exists i :: 0 <= i < |jobs| && jobs[i].clid == id
  }

  /** Stage `s` gets its lists in the order of their ids, each after the last one it stepped. */
  ghost predicate Ordered(cfg: Config, st: State, s: nat)
    requires Shape(cfg, st) && s < cfg.stages
  {
    cfg.start <= st.seen[s] <= Passed(st, s) &&
    Increasing(Ahead(st.workers[s], st.queues[s])) &&
    Within(Ahead(st.workers[s], st.queues[s]), st.seen[s], Passed(st, s)) &&
    (AfterItsStep(st.workers[s]) ==> st.seen[s] == st.workers[s].job.clid + 1)
  }

  /** The lists that have left the earlier stages and are not ahead of stage `s` any more never
      reach it in the sequential run either. */
  ghost predicate Skipped(cfg: Config, jobs: seq<Job>, s: nat, lo: int, hi: int)
    requires cfg.Valid() && s < cfg.stages
  {
    forall id: nat {:trigger WalkAt(cfg, id, s)} :: cfg.start <= id && lo <= id < hi ==>
      Among(jobs, id) || !WalkAt(cfg, id, s).Walking?
  }

  ghost predicate Covered(cfg: Config, st: State, s: nat)
    requires cfg.Valid() && Shape(cfg, st) && s < cfg.stages
  {
    st.shutdown || Skipped(cfg, Ahead(st.workers[s], st.queues[s]), s, st.seen[s], Passed(st, s))
  }

  // ---------------------------------------------------------------- component states

  /** Stage `s` is in the state the sequential run gives it before the next list it steps. */
  ghost predicate InStep(cfg: Config, st: State, s: nat)
    requires cfg.Valid() && Shape(cfg, st) && s < cfg.stages
  {
    cfg.start <= st.seen[s] && st.comps[s] == CompsBefore(cfg, st.seen[s])[s] &&
    (st.workers[s].Busy? && st.workers[s].phase.Running? ==>
       cfg.start <= st.workers[s].job.clid &&
       st.comps[s] == CompsBefore(cfg, st.workers[s].job.clid)[s])
  }

  // ---------------------------------------------------------------- contents

  /** A job about to be stepped by stage `s`: the earlier slots hold what the sequential run
      produces, the others what the list held when it was launched. */
  ghost predicate JobOk(cfg: Config, launched: seq<seq<Msg>>, s: nat, job: Job)
    requires cfg.Valid() && s <= cfg.stages
  {
    cfg.start <= job.clid < cfg.start + |launched| &&
    |job.culist.msgs| == cfg.stages == |launched[job.clid - cfg.start]| &&
    WalkAt(cfg, job.clid, s) == Walking(job.culist.msgs[..s]) &&
    job.culist.msgs[s..] == launched[job.clid - cfg.start][s..]
  }

  /** A job that stage `s` has stepped with result `out`. */
  ghost predicate SteppedOk(cfg: Config, launched: seq<seq<Msg>>, s: nat, job: Job, out: StepOut)
    requires cfg.Valid() && s < cfg.stages
  {
    cfg.start <= job.clid < cfg.start + |launched| &&
    |job.culist.msgs| == cfg.stages == |launched[job.clid - cfg.start]| &&
    var msgs, content, comp := job.culist.msgs, launched[job.clid - cfg.start], CompsBefore(cfg, job.clid)[s];
    WalkAt(cfg, job.clid, s) == Walking(msgs[..s]) && out == cfg.step(s, comp, job.clid, msgs[..s]) &&
    (if out.Continue? then msgs[s] == out.msg && msgs[s + 1..] == content[s + 1..]
     else msgs == AbortedList(cfg, job.clid, s, msgs[..s], content))
  }

  ghost predicate FailsAt(cfg: Config, id: nat, s: nat)
    requires cfg.Valid() && cfg.start <= id
  {
    Fate(cfg, id).Stopped? && Fate(cfg, id).ending == FailedAt(s)
  }

  /** A result tells the truth about the sequential fate of its list. */
  ghost predicate ResultOk(cfg: Config, launched: seq<seq<Msg>>, shutdown: bool, r: WorkerResult)
    requires cfg.Valid()
  {
    cfg.start <= r.clid < cfg.start + |launched| && |launched[r.clid - cfg.start]| == cfg.stages &&
    (r.culist.Some? ==> |r.culist.value.msgs| == cfg.stages) &&
    match r.outcome
    case OkContinue =>
      r.culist.Some? && EndsWith(cfg, r.clid, launched[r.clid - cfg.start], r.culist.value.msgs, Completed)
    case OkAbort =>
      r.culist.Some? && EndsWith(cfg, r.clid, launched[r.clid - cfg.start], r.culist.value.msgs, Aborted)
    case Failure(error) =>
      shutdown &&
      match error
      case StageFailed(s) => r.culist.Some? && FailsAt(cfg, r.clid, s)
      case StagePanicked(s) => r.culist.None? && FailsAt(cfg, r.clid, s)
      case ShuttingDown => r.culist.Some?
      case OutOfSync => false
  }

  ghost predicate WorkerOk(cfg: Config, launched: seq<seq<Msg>>, shutdown: bool, s: nat, w: Worker)
    requires cfg.Valid() && s < cfg.stages
  {
    match w
    case Idle => true
    case Reporting(r) => ResultOk(cfg, launched, shutdown, r)
    case Busy(job, phase) =>
      match phase
      case Received => JobOk(cfg, launched, s, job)
      case Running => JobOk(cfg, launched, s, job)
      case Stepped(out) => SteppedOk(cfg, launched, s, job, out)
      case Forwarding => s + 1 < cfg.stages && JobOk(cfg, launched, s + 1, job)
  }

  ghost predicate QueueOk(cfg: Config, launched: seq<seq<Msg>>, s: nat, queue: seq<Job>)
    requires cfg.Valid() && s < cfg.stages
  {
    forall i :: 0 <= i < |queue| ==> JobOk(cfg, launched, s, queue[i])
  }

  ghost predicate Faithful(cfg: Config, st: State, s: nat)
    requires cfg.Valid() && Shape(cfg, st) && s < cfg.stages
  {
    WorkerOk(cfg, st.launched, st.shutdown, s, st.workers[s]) &&
    QueueOk(cfg, st.launched, s, st.queues[s])
  }

  // ---------------------------------------------------------------- order is kept

  lemma FirstLeaves(jobs: seq<Job>, lo: int, hi: int)
    requires jobs != [] && Increasing(jobs) && Within(jobs, lo, hi)
    ensures Increasing(jobs[1..]) && Within(jobs[1..], jobs[0].clid + 1, hi)
  {
    forall i, j | 0 <= i < j < |jobs[1..]|
      ensures Older(jobs[1..], i, j)
    {
      assert Older(jobs, i + 1, j + 1);
    }
    forall i | 0 <= i < |jobs[1..]|
      ensures jobs[0].clid + 1 <= jobs[1..][i].clid < hi
    {
      assert Older(jobs, 0, i + 1);
    }
  }

  lemma LastArrives(jobs: seq<Job>, lo: int, job: Job)
    requires Increasing(jobs) && Within(jobs, lo, job.clid) && lo <= job.clid
    ensures Increasing(jobs + [job]) && Within(jobs + [job], lo, job.clid + 1)
  {
    forall i, j | 0 <= i < j < |jobs + [job]|
      ensures Older(jobs + [job], i, j)
    {
      assert j < |jobs| ==> Older(jobs, i, j);
    }
  }

  lemma AheadOfBusy(w: Worker, queue: seq<Job>)
    requires BeforeStep(w)
    ensures Ahead(w, queue)[0] == w.job && Ahead(w, queue)[1..] == queue
  {
  }

  lemma OrderedReceiving(cfg: Config, st: State, st': State, s: nat)
    requires Shape(cfg, st) && s < cfg.stages && st.queues[s] != [] && st.workers[s].Idle?
    requires Ordered(cfg, st, s) && Receiving(st, st', s)
    ensures Ahead(st'.workers[s], st'.queues[s]) == Ahead(st.workers[s], st.queues[s])
    ensures Shape(cfg, st') && Ordered(cfg, st', s)
  {
    assert [st.queues[s][0]] + st.queues[s][1..] == st.queues[s] == [] + st.queues[s];
  }

  /** What a stage still has to step stays the same, or loses its first list for good. */
  lemma OrderedBy(cfg: Config, st: State, s: nat, ahead: seq<Job>)
    requires Shape(cfg, st) && s < cfg.stages && Ahead(st.workers[s], st.queues[s]) == ahead
    requires Increasing(ahead) && Within(ahead, st.seen[s], Passed(st, s))
    requires cfg.start <= st.seen[s] <= Passed(st, s)
    requires AfterItsStep(st.workers[s]) ==> st.seen[s] == st.workers[s].job.clid + 1
    ensures Ordered(cfg, st, s)
  {
  }

  lemma WithinMore(jobs: seq<Job>, lo: int, hi: int, lo': int)
    requires Within(jobs, lo, hi) && lo' <= lo
    ensures Within(jobs, lo', hi)
  {
  }

  lemma OrderedChecks(cfg: Config, st: State, st': State, s: nat)
    requires Shape(cfg, st) && Enabled(cfg, st, Check(s)) && Ordered(cfg, st, s) && Checks(st, st', s)
    ensures Shape(cfg, st') && Ordered(cfg, st', s)
  {
    var ahead := Ahead(st.workers[s], st.queues[s]);
    if st.shutdown {
      AheadOfBusy(st.workers[s], st.queues[s]);
      FirstLeaves(ahead, st.seen[s], Passed(st, s));
      WithinMore(ahead[1..], ahead[0].clid + 1, Passed(st, s), st.seen[s]);
      assert Ahead(st'.workers[s], st'.queues[s]) == ahead[1..];
      OrderedBy(cfg, st', s, ahead[1..]);
    } else {
      OrderedBy(cfg, st', s, ahead);
    }
  }

  lemma OrderedSteps(cfg: Config, st: State, st': State, s: nat)
    requires Shape(cfg, st) && Enabled(cfg, st, RunStep(s)) && Ordered(cfg, st, s) && Steps(cfg, st, st', s)
    ensures Shape(cfg, st') && Ordered(cfg, st', s)
  {
    var ahead := Ahead(st.workers[s], st.queues[s]);
    AheadOfBusy(st.workers[s], st.queues[s]);
    FirstLeaves(ahead, st.seen[s], Passed(st, s));
    assert Ahead(st'.workers[s], st'.queues[s]) == ahead[1..];
    OrderedBy(cfg, st', s, ahead[1..]);
  }

  lemma OrderedForwarded(cfg: Config, st: State, st': State, s: nat)
    requires Shape(cfg, st) && Enabled(cfg, st, Forward(s)) && s + 1 < cfg.stages
    requires Ordered(cfg, st, s) && Ordered(cfg, st, s + 1) && Forwards(st, st', s)
    ensures Shape(cfg, st') && Ordered(cfg, st', s + 1)
  {
    var before := Ahead(st.workers[s + 1], st.queues[s + 1]);
    LastArrives(before, st.seen[s + 1], st.workers[s].job);
    assert Ahead(st'.workers[s + 1], st'.queues[s + 1]) == before + [st.workers[s].job];
  }

  lemma OrderedLaunch(cfg: Config, st: State, st': State, stop: bool)
    requires Shape(cfg, st) && cfg.stages > 0 && st.free != [] && Ordered(cfg, st, 0) && Launches(cfg, st, st', stop)
    ensures Shape(cfg, st') && Ordered(cfg, st', 0)
  {
    var before := Ahead(st.workers[0], st.queues[0]);
    LastArrives(before, st.seen[0], NewJob(cfg, st));
    assert Ahead(st'.workers[0], st'.queues[0]) == before + [NewJob(cfg, st)];
  }

  lemma OrderedUntouched(cfg: Config, st: State, st': State, s: nat)
    requires Shape(cfg, st) && Shape(cfg, st') && s < cfg.stages && Ordered(cfg, st, s)
    requires Ahead(st'.workers[s], st'.queues[s]) == Ahead(st.workers[s], st.queues[s])
    requires AfterItsStep(st'.workers[s]) ==> AfterItsStep(st.workers[s]) && st'.workers[s].job == st.workers[s].job
    requires st'.seen[s] == st.seen[s] && Passed(st, s) <= Passed(st', s)
    ensures Ordered(cfg, st', s)
  {
  }

  /** The boundary behind which a stage's lists lie only moves up. */
  lemma PassedGrows(cfg: Config, st: State, a: Action, st': State, s: nat)
    requires Shape(cfg, st) && Shape(cfg, st') && s < cfg.stages && Step(cfg, st, a, st')
    requires s > 0 ==> Ordered(cfg, st, s - 1)
    ensures Passed(st, s) <= Passed(st', s)
    ensures !(s == 0 && a.Launch?) && !(s > 0 && (a == RunStep(s - 1) || a == Act(s - 1) || a == Forward(s - 1))) ==>
              Passed(st, s) == Passed(st', s)
  {
    if s > 0 && a == RunStep(s - 1) {
      AheadOfBusy(st.workers[s - 1], st.queues[s - 1]);
      assert Passed(st, s) == st.seen[s - 1];
    }
  }
}
