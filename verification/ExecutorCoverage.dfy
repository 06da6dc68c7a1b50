/** No list is skipped: unless the executor is shutting down, a list that has left the earlier
    stages is ahead of this stage exactly if the sequential run takes it there, so every
    component steps from the state the sequential run gives it. */
module ExecutorCoverage {
  import opened SequentialRuntime
  import opened Executor
  import opened ExecutorCounting
  import opened ExecutorStages
  import opened ExecutorOrder

  lemma SkippedMore(cfg: Config, jobs: seq<Job>, s: nat, lo: int, hi: int, job: Job)
    requires cfg.Valid() && s < cfg.stages && Skipped(cfg, jobs, s, lo, hi) && job.clid == hi
    ensures Skipped(cfg, jobs + [job], s, lo, hi + 1)
  {
    var more := jobs + [job];
    forall id: nat | cfg.start <= id && lo <= id < hi + 1
      ensures Among(more, id) || !WalkAt(cfg, id, s).Walking?
    {
      if id == hi {
        assert more[|jobs|].clid == id;
      } else if Among(jobs, id) {
        var i :| 0 <= i < |jobs| && jobs[i].clid == id;
        assert more[i].clid == id;
      }
    }
  }

  lemma SkippedFirst(cfg: Config, jobs: seq<Job>, s: nat, lo: int, hi: int)
    requires cfg.Valid() && s < cfg.stages && Skipped(cfg, jobs, s, lo, hi)
    requires jobs != [] && lo <= jobs[0].clid
    ensures Skipped(cfg, jobs[1..], s, jobs[0].clid + 1, hi)
  {
    forall id: nat | cfg.start <= id && jobs[0].clid + 1 <= id < hi
      ensures Among(jobs[1..], id) || !WalkAt(cfg, id, s).Walking?
    {
      if Among(jobs, id) {
        var i :| 0 <= i < |jobs| && jobs[i].clid == id;
        assert jobs[1..][i - 1].clid == id;
      }
    }
  }

  /** The ids between the last list stepped and the next one ahead do not reach the stage. */
  lemma NoneBetween(cfg: Config, jobs: seq<Job>, s: nat, lo: int, hi: int, id: nat)
    requires cfg.Valid() && s < cfg.stages && Skipped(cfg, jobs, s, lo, hi)
    requires jobs != [] && Increasing(jobs) && Within(jobs, lo, hi)
    requires cfg.start <= id && lo <= id < jobs[0].clid
    ensures !WalkAt(cfg, id, s).Walking?
  {
    forall i | 0 <= i < |jobs|
      ensures jobs[i].clid != id
    {
      assert i > 0 ==> Older(jobs, 0, i);
    }
  }

  // ---------------------------------------------------------------- coverage is kept

  lemma CoveredUntouched(cfg: Config, st: State, st': State, s: nat)
    requires cfg.Valid() && Shape(cfg, st) && Shape(cfg, st') && s < cfg.stages && Covered(cfg, st, s)
    requires Ahead(st'.workers[s], st'.queues[s]) == Ahead(st.workers[s], st.queues[s])
    requires st'.seen[s] == st.seen[s] && Passed(st', s) == Passed(st, s)
    requires st.shutdown ==> st'.shutdown
    ensures Covered(cfg, st', s)
  {
  }

  lemma FlagStays(cfg: Config, st: State, a: Action, st': State)
    requires Step(cfg, st, a, st')
    ensures st.shutdown ==> st'.shutdown
  {
  }

  lemma CoveredSteps(cfg: Config, st: State, st': State, s: nat)
    requires cfg.Valid() && Shape(cfg, st) && Enabled(cfg, st, RunStep(s)) && Steps(cfg, st, st', s)
    requires Ordered(cfg, st, s) && Covered(cfg, st, s)
    ensures Shape(cfg, st') && Covered(cfg, st', s)
  {
    var ahead := Ahead(st.workers[s], st.queues[s]);
    AheadOfBusy(st.workers[s], st.queues[s]);
    assert Ahead(st'.workers[s], st'.queues[s]) == ahead[1..];
    if !st.shutdown { SkippedFirst(cfg, ahead, s, st.seen[s], Passed(st, s)); }
  }

  lemma CoveredLaunch(cfg: Config, st: State, st': State, stop: bool)
    requires cfg.Valid() && Shape(cfg, st) && st.free != [] && Covered(cfg, st, 0) && Launches(cfg, st, st', stop)
    ensures Shape(cfg, st') && Covered(cfg, st', 0)
  {
    var ahead := Ahead(st.workers[0], st.queues[0]);
    assert Ahead(st'.workers[0], st'.queues[0]) == ahead + [NewJob(cfg, st)];
    if !st.shutdown { SkippedMore(cfg, ahead, 0, st.seen[0], Passed(st, 0), NewJob(cfg, st)); }
  }

  lemma CoveredForwarded(cfg: Config, st: State, st': State, s: nat)
    requires cfg.Valid() && Shape(cfg, st) && Enabled(cfg, st, Forward(s)) && s + 1 < cfg.stages
    requires Ordered(cfg, st, s) && Covered(cfg, st, s + 1) && Forwards(st, st', s)
    ensures Shape(cfg, st') && Covered(cfg, st', s + 1)
  {
    var ahead := Ahead(st.workers[s + 1], st.queues[s + 1]);
    assert Ahead(st'.workers[s + 1], st'.queues[s + 1]) == ahead + [st.workers[s].job];
    if !st.shutdown {
      SkippedMore(cfg, ahead, s + 1, st.seen[s + 1], Passed(st, s + 1), st.workers[s].job);
    }
  }

  /** The worker in front steps a list: the ones before it never get this far. */
  lemma CoveredBehindStep(cfg: Config, st: State, st': State, s: nat)
    requires cfg.Valid() && Shape(cfg, st) && Enabled(cfg, st, RunStep(s)) && s + 1 < cfg.stages
    requires Ordered(cfg, st, s) && Covered(cfg, st, s) && Covered(cfg, st, s + 1) && Steps(cfg, st, st', s)
    ensures Shape(cfg, st') && Covered(cfg, st', s + 1)
  {
    if !st.shutdown {
      var next, here := s + 1, Ahead(st.workers[s], st.queues[s]);
      AheadOfBusy(st.workers[s], st.queues[s]);
      forall id: nat | cfg.start <= id && st.seen[s] <= id < st.workers[s].job.clid
        ensures !WalkAt(cfg, id, next).Walking?
      {
        NoneBetween(cfg, here, s, st.seen[s], Passed(st, s), id);
        StoppedStays(cfg, CompsBefore(cfg, id), id, s, next);
      }
      assert Skipped(cfg, Ahead(st.workers[next], st.queues[next]), next, st.seen[next], st.workers[s].job.clid);
    }
  }

  lemma GetsNoFurther(cfg: Config, launched: seq<seq<Msg>>, s: nat, job: Job, out: StepOut)
    requires cfg.Valid() && s < cfg.stages && SteppedOk(cfg, launched, s, job, out) && !out.Continue?
    ensures !WalkAt(cfg, job.clid, s + 1).Walking?
  {
  }

  lemma SkippedOneMore(cfg: Config, jobs: seq<Job>, s: nat, lo: int, id: nat)
    requires cfg.Valid() && s < cfg.stages && Skipped(cfg, jobs, s, lo, id)
    requires cfg.start <= id && !WalkAt(cfg, id, s).Walking?
    ensures Skipped(cfg, jobs, s, lo, id + 1)
  {
  }

  /** The worker in front acts on its step: a list that stops there never gets this far. */
  lemma CoveredBehindAct(cfg: Config, st: State, st': State, s: nat)
    requires cfg.Valid() && Shape(cfg, st) && Enabled(cfg, st, Act(s)) && s + 1 < cfg.stages
    requires Ordered(cfg, st, s) && Covered(cfg, st, s + 1) && Acts(st, st', s)
    requires SteppedOk(cfg, st.launched, s, st.workers[s].job, st.workers[s].phase.out)
    ensures Shape(cfg, st') && Covered(cfg, st', s + 1)
  {
    var job, out := st.workers[s].job, st.workers[s].phase.out;
    var ahead := Ahead(st.workers[s + 1], st.queues[s + 1]);
    assert Ahead(st'.workers[s + 1], st'.queues[s + 1]) == ahead;
    if !st'.shutdown && !out.Continue? {
      GetsNoFurther(cfg, st.launched, s, job, out);
      SkippedOneMore(cfg, ahead, s + 1, st.seen[s + 1], job.clid);
    }
  }

  lemma CoveredElsewhere(cfg: Config, st: State, a: Action, st': State, s: nat)
    requires cfg.Valid() && Shape(cfg, st) && s < cfg.stages && Step(cfg, st, a, st') && Covered(cfg, st, s)
    requires s > 0 ==> Ordered(cfg, st, s - 1) && a != RunStep(s - 1) && a != Act(s - 1)
    requires !Touches(a, s) || a == Act(s) || a == Forward(s) || a == Report(s)
    ensures Shape(cfg, st') && Covered(cfg, st', s)
  {
    ShapeKept(cfg, st, a, st');
    FlagStays(cfg, st, a, st');
    PassedGrows(cfg, st, a, st', s);
    if !Touches(a, s) { Elsewhere(cfg, st, a, st', s); } else { LateSteps(cfg, st, a, st', s); }
    CoveredUntouched(cfg, st, st', s);
  }

  lemma CoveredReceiving(cfg: Config, st: State, st': State, s: nat)
    requires cfg.Valid() && Shape(cfg, st) && Enabled(cfg, st, Recv(s)) && Receiving(st, st', s)
    requires Ordered(cfg, st, s) && Covered(cfg, st, s)
    ensures Shape(cfg, st') && Covered(cfg, st', s)
  {
    OrderedReceiving(cfg, st, st', s);
  }

  lemma CoveredChecks(cfg: Config, st: State, st': State, s: nat)
    requires cfg.Valid() && Shape(cfg, st) && Enabled(cfg, st, Check(s)) && Checks(st, st', s)
    requires Covered(cfg, st, s)
    ensures Shape(cfg, st') && Covered(cfg, st', s)
  {
  }

  lemma CoveredArrival(cfg: Config, st: State, a: Action, st': State, s: nat)
    requires cfg.Valid() && Shape(cfg, st) && s < cfg.stages && Step(cfg, st, a, st') && Covered(cfg, st, s)
    requires s > 0 ==> Ordered(cfg, st, s - 1)
    requires (a.Launch? && s == 0) || (a.Forward? && a.s + 1 == s)
    ensures Shape(cfg, st') && Covered(cfg, st', s)
  {
    if a.Launch? { CoveredLaunch(cfg, st, st', a.stopSeen); } else { CoveredForwarded(cfg, st, st', a.s); }
  }

  lemma CoveredEarly(cfg: Config, st: State, a: Action, st': State, s: nat)
    requires cfg.Valid() && Shape(cfg, st) && s < cfg.stages && Step(cfg, st, a, st')
    requires Ordered(cfg, st, s) && Covered(cfg, st, s) && (a == Recv(s) || a == Check(s) || a == RunStep(s))
    ensures Shape(cfg, st') && Covered(cfg, st', s)
  {
    match a
    case Recv(_) => CoveredReceiving(cfg, st, st', s);
    case Check(_) => CoveredChecks(cfg, st, st', s);
    case RunStep(_) => CoveredSteps(cfg, st, st', s);
  }

  lemma CoveredBehind(cfg: Config, st: State, a: Action, st': State, s: nat)
    requires cfg.Valid() && Shape(cfg, st) && s + 1 < cfg.stages && Step(cfg, st, a, st')
    requires (a == RunStep(s) || a == Act(s)) && Covered(cfg, st, s + 1)
    requires Ordered(cfg, st, s) && Covered(cfg, st, s) && Faithful(cfg, st, s)
    ensures Shape(cfg, st') && Covered(cfg, st', s + 1)
  {
    if a.Act? { CoveredBehindAct(cfg, st, st', s); } else { CoveredBehindStep(cfg, st, st', s); }
  }

  lemma CoveredNext(cfg: Config, st: State, a: Action, st': State, s: nat)
    requires cfg.Valid() && Shape(cfg, st) && s < cfg.stages && Step(cfg, st, a, st')
    requires Ordered(cfg, st, s) && Covered(cfg, st, s)
    requires s > 0 ==> Ordered(cfg, st, s - 1) && a != RunStep(s - 1) && a != Act(s - 1)
    ensures Shape(cfg, st') && Covered(cfg, st', s)
  {
    if a == Recv(s) || a == Check(s) || a == RunStep(s) {
      CoveredEarly(cfg, st, a, st', s);
    } else if (a.Launch? && s == 0) || (a.Forward? && a.s + 1 == s) {
      CoveredArrival(cfg, st, a, st', s);
    } else {
      CoveredElsewhere(cfg, st, a, st', s);
    }
  }

  lemma CoveredInit(cfg: Config, st: State, s: nat)
    requires cfg.Valid() && Init(cfg, st) && s < cfg.stages
    ensures Shape(cfg, st) && Covered(cfg, st, s)
  {
  }

  // ---------------------------------------------------------------- component states

  lemma InStepChecks(cfg: Config, st: State, st': State, s: nat)
    requires cfg.Valid() && Shape(cfg, st) && Enabled(cfg, st, Check(s)) && Checks(st, st', s)
    requires Ordered(cfg, st, s) && Covered(cfg, st, s) && InStep(cfg, st, s)
    ensures Shape(cfg, st') && InStep(cfg, st', s)
  {
    if !st.shutdown {
      var ahead, job := Ahead(st.workers[s], st.queues[s]), st.workers[s].job;
      AheadOfBusy(st.workers[s], st.queues[s]);
      forall id: nat | st.seen[s] <= id < job.clid
        ensures !WalkAt(cfg, id, s).Walking?
      {
        NoneBetween(cfg, ahead, s, st.seen[s], Passed(st, s), id);
      }
      UnreachedStays(cfg, s, st.seen[s], job.clid);
    }
  }

  lemma InStepSteps(cfg: Config, st: State, st': State, s: nat)
    requires cfg.Valid() && Shape(cfg, st) && Enabled(cfg, st, RunStep(s)) && Steps(cfg, st, st', s)
    requires InStep(cfg, st, s) && Faithful(cfg, st, s)
    ensures Shape(cfg, st') && InStep(cfg, st', s)
  {
    ReachedMoves(cfg, s, st.workers[s].job.clid);
  }

  lemma InStepNext(cfg: Config, st: State, a: Action, st': State, s: nat)
    requires cfg.Valid() && Shape(cfg, st) && s < cfg.stages && Step(cfg, st, a, st')
    requires Ordered(cfg, st, s) && Covered(cfg, st, s) && InStep(cfg, st, s) && Faithful(cfg, st, s)
    ensures Shape(cfg, st') && InStep(cfg, st', s)
  {
    if a == Check(s) {
      InStepChecks(cfg, st, st', s);
    } else if a == RunStep(s) {
      InStepSteps(cfg, st, st', s);
    } else {
      InStepElsewhere(cfg, st, a, st', s);
    }
  }

  lemma InStepElsewhere(cfg: Config, st: State, a: Action, st': State, s: nat)
    requires cfg.Valid() && Shape(cfg, st) && s < cfg.stages && Step(cfg, st, a, st') && InStep(cfg, st, s)
    requires a != Check(s) && a != RunStep(s)
    ensures Shape(cfg, st') && InStep(cfg, st', s)
  {
    ShapeKept(cfg, st, a, st');
    assert st'.comps[s] == st.comps[s] && st'.seen[s] == st.seen[s];
  }

  lemma InStepInit(cfg: Config, st: State, s: nat)
    requires cfg.Valid() && Init(cfg, st) && s < cfg.stages
    ensures Shape(cfg, st) && InStep(cfg, st, s)
  {
  }
}
