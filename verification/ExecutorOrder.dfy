/** Lists go through every stage in the order of their ids. */
module ExecutorOrder {
  import opened SequentialRuntime
  import opened Executor
  import opened ExecutorCounting
  import opened ExecutorStages

  /** The actions that change the worker or the queue of stage `s`. */
  predicate Touches(a: Action, s: nat) {
    (IsWorkerAction(a) && a.s == s) || (a.Forward? && a.s + 1 == s) || (a.Launch? && s == 0)
  }

  lemma ShapeKept(cfg: Config, st: State, a: Action, st': State)
    requires Shape(cfg, st) && Step(cfg, st, a, st')
    ensures Shape(cfg, st')
  {
  }

  lemma Elsewhere(cfg: Config, st: State, a: Action, st': State, s: nat)
    requires Shape(cfg, st) && s < cfg.stages && Step(cfg, st, a, st') && !Touches(a, s)
    ensures Shape(cfg, st')
    ensures st'.workers[s] == st.workers[s] && st'.queues[s] == st.queues[s]
    ensures st'.seen[s] == st.seen[s] && st'.comps[s] == st.comps[s]
  {
  }

  /** Acting on a finished step, handing over and reporting leave what is ahead as it is. */
  lemma LateSteps(cfg: Config, st: State, a: Action, st': State, s: nat)
    requires Shape(cfg, st) && s < cfg.stages && Step(cfg, st, a, st')
    requires a == Act(s) || a == Forward(s) || a == Report(s)
    ensures Shape(cfg, st')
    ensures !BeforeStep(st.workers[s]) && !BeforeStep(st'.workers[s]) && st'.queues[s] == st.queues[s]
    ensures AfterItsStep(st'.workers[s]) ==> AfterItsStep(st.workers[s]) && st'.workers[s].job == st.workers[s].job
    ensures st'.seen[s] == st.seen[s] && st'.comps[s] == st.comps[s]
  {
  }

  lemma OrderedElsewhere(cfg: Config, st: State, a: Action, st': State, s: nat)
    requires Shape(cfg, st) && s < cfg.stages && Step(cfg, st, a, st') && Ordered(cfg, st, s)
    requires s > 0 ==> Ordered(cfg, st, s - 1)
    requires !Touches(a, s) || a == Act(s) || a == Forward(s) || a == Report(s)
    ensures Shape(cfg, st') && Ordered(cfg, st', s)
  {
    ShapeKept(cfg, st, a, st');
    PassedGrows(cfg, st, a, st', s);
    if !Touches(a, s) { Elsewhere(cfg, st, a, st', s); } else { LateSteps(cfg, st, a, st', s); }
    OrderedUntouched(cfg, st, st', s);
  }

  /** A list arrives in the queue of stage `s`. */
  lemma OrderedArrival(cfg: Config, st: State, a: Action, st': State, s: nat)
    requires Shape(cfg, st) && s < cfg.stages && Step(cfg, st, a, st') && Ordered(cfg, st, s)
    requires s > 0 ==> Ordered(cfg, st, s - 1)
    requires (a.Launch? && s == 0) || (a.Forward? && a.s + 1 == s)
    ensures Shape(cfg, st') && Ordered(cfg, st', s)
  {
    if a.Launch? { OrderedLaunch(cfg, st, st', a.stopSeen); } else { OrderedForwarded(cfg, st, st', a.s); }
  }

  /** The worker of stage `s` takes a list up to the end of its step. */
  lemma OrderedEarly(cfg: Config, st: State, a: Action, st': State, s: nat)
    requires Shape(cfg, st) && s < cfg.stages && Step(cfg, st, a, st') && Ordered(cfg, st, s)
    requires a == Recv(s) || a == Check(s) || a == RunStep(s)
    ensures Shape(cfg, st') && Ordered(cfg, st', s)
  {
    match a
    case Recv(_) => OrderedReceiving(cfg, st, st', s);
    case Check(_) => OrderedChecks(cfg, st, st', s);
    case RunStep(_) => OrderedSteps(cfg, st, st', s);
  }

  lemma OrderedNext(cfg: Config, st: State, a: Action, st': State, s: nat)
    requires Shape(cfg, st) && s < cfg.stages && Step(cfg, st, a, st') && Ordered(cfg, st, s)
    requires s > 0 ==> Ordered(cfg, st, s - 1)
    ensures Shape(cfg, st') && Ordered(cfg, st', s)
  {
    if a == Recv(s) || a == Check(s) || a == RunStep(s) {
      OrderedEarly(cfg, st, a, st', s);
    } else if (a.Launch? && s == 0) || (a.Forward? && a.s + 1 == s) {
      OrderedArrival(cfg, st, a, st', s);
    } else {
      OrderedElsewhere(cfg, st, a, st', s);
    }
  }

  lemma OrderedInit(cfg: Config, st: State, s: nat)
    requires cfg.Valid() && Init(cfg, st) && s < cfg.stages
    ensures Ordered(cfg, st, s)
  {
    assert Ahead(st.workers[s], st.queues[s]) == [];
  }

  /** Lists keep their order through the whole pipeline: whatever a later stage still has to
      step is older than everything an earlier stage still has to step. */
  lemma {:induction false} LaterStagesHoldOlderLists(cfg: Config, st: State, s: nat, t: nat, i: nat, j: nat)
    requires Shape(cfg, st) && s < t < cfg.stages
    requires forall u: nat :: u < cfg.stages ==> Ordered(cfg, st, u)
    requires i < |Ahead(st.workers[s], st.queues[s])| && j < |Ahead(st.workers[t], st.queues[t])|
    ensures Ahead(st.workers[t], st.queues[t])[j].clid < Ahead(st.workers[s], st.queues[s])[i].clid
  {
    SeenFalls(cfg, st, s, t - 1);
    assert Ordered(cfg, st, s) && Ordered(cfg, st, t);
  }

  lemma {:induction false} SeenFalls(cfg: Config, st: State, s: nat, t: nat)
    requires Shape(cfg, st) && s <= t < cfg.stages
    requires forall u: nat :: u < cfg.stages ==> Ordered(cfg, st, u)
    ensures st.seen[t] <= st.seen[s]
  {
    if s < t {
      SeenFalls(cfg, st, s, t - 1);
      assert Ordered(cfg, st, t);
    }
  }
}
