/** Where the launched lists are: in every reachable state each launched, uncommitted id is in
    exactly one stage, in the done channel or in the reorder buffer, and the dispatcher's
    counters count them. */
module ExecutorAccounting {
  import opened SequentialRuntime
  import opened Executor
  import opened ExecutorCounting

  ghost predicate Counters(cfg: Config, st: State) {
    Shape(cfg, st) && cfg.stages > 0 &&
    cfg.start <= st.nextCommit <= st.nextLaunch && |st.launched| == st.nextLaunch - cfg.start &&
    st.cursor == st.nextCommit && st.inFlight <= cfg.limit &&
    forall k :: k in st.pending ==> st.pending[k].clid == k
  }

  /** In flight plus buffered is launched minus committed, and in flight counts the pipeline. */
  ghost predicate Sized(cfg: Config, st: State)
    requires Shape(cfg, st)
  {
    InPipeline(cfg, st, Any) == st.inFlight &&
    st.inFlight + |st.pending| == st.nextLaunch - st.nextCommit
  }

  /** How often an id occurs in the pipeline and the reorder buffer. */
  function Places(cfg: Config, st: State, id: nat): nat
    requires Shape(cfg, st)
  {
    InPipeline(cfg, st, Id(id)) + if id in st.pending then 1 else 0
  }

  ghost predicate Placed(cfg: Config, st: State)
    requires Shape(cfg, st)
  {
    forall id: nat {:trigger Places(cfg, st, id)} ::
      Places(cfg, st, id) == if st.nextCommit <= id < st.nextLaunch then 1 else 0
  }

  ghost predicate Accounted(cfg: Config, st: State) {
    Counters(cfg, st) && Sized(cfg, st) && Placed(cfg, st)
  }

  // ---------------------------------------------------------------- preservation

  lemma AccountedInit(cfg: Config, st: State)
    requires cfg.Valid() && Init(cfg, st)
    ensures Accounted(cfg, st)
  {
    NothingHeld(Any, st.queues, st.workers, cfg.stages);
    forall id: nat
      ensures Places(cfg, st, id) == 0
    {
      NothingHeld(Id(id), st.queues, st.workers, cfg.stages);
    }
  }

  lemma {:induction false} NoBoxCounted(lost: seq<nat>, w: Which)
    requires !w.Box?
    ensures Count(lost, BoxIs(w)) == 0
  {
    if lost != [] { NoBoxCounted(lost[..|lost| - 1], w); }
  }

  lemma WorkersKeepCount(cfg: Config, st: State, a: Action, st': State, w: Which)
    requires Shape(cfg, st) && IsWorkerAction(a) && Step(cfg, st, a, st') && !w.Box?
    ensures InPipeline(cfg, st', w) == InPipeline(cfg, st, w)
  {
    WorkersKeep(cfg, st, a, st', w);
    NoBoxCounted(st.lost, w);
    NoBoxCounted(st'.lost, w);
  }

  /** What no worker step touches, and how the shape survives. */
  lemma WorkersFrame(cfg: Config, st: State, a: Action, st': State)
    requires Shape(cfg, st) && IsWorkerAction(a) && Step(cfg, st, a, st')
    ensures Shape(cfg, st') && SameDispatcher(st, st')
  {
  }

  lemma AccountedWorker(cfg: Config, st: State, a: Action, st': State)
    requires Accounted(cfg, st) && IsWorkerAction(a) && Step(cfg, st, a, st')
    ensures Accounted(cfg, st')
  {
    WorkersFrame(cfg, st, a, st');
    WorkersKeepCount(cfg, st, a, st', Any);
    forall id: nat
      ensures Places(cfg, st', id) == Places(cfg, st, id)
    {
      WorkersKeepCount(cfg, st, a, st', Id(id));
    }
  }

  lemma AccountedLaunch(cfg: Config, st: State, rate: bool, stop: bool, st': State)
    requires Accounted(cfg, st) && Step(cfg, st, Launch(rate, stop), st')
    ensures Accounted(cfg, st')
  {
    NoBoxCounted(st.lost, Any);
    LaunchAdds(cfg, st, st', stop, Any);
    forall id: nat
      ensures Places(cfg, st', id) == Places(cfg, st, id) + if id == st.nextLaunch then 1 else 0
    {
      NoBoxCounted(st.lost, Id(id));
      LaunchAdds(cfg, st, st', stop, Id(id));
    }
  }

  /** The oldest message of the done channel is in no other place. */
  lemma DoneIsElsewhere(cfg: Config, st: State)
    requires Accounted(cfg, st) && st.done != []
    ensures st.done[0].clid !in st.pending && st.inFlight > 0
    ensures st.nextCommit <= st.done[0].clid < st.nextLaunch
  {
    var id := st.done[0].clid;
    CountPositive(st.done, ResultIs(Id(id)), 0);
    CountPositive(st.done, ResultIs(Any), 0);
    assert Places(cfg, st, id) > 0;
  }

  lemma SizedReceive(cfg: Config, st: State, st': State)
    requires Shape(cfg, st) && Sized(cfg, st) && st.done != [] && Receives(st, st')
    requires st.done[0].clid !in st.pending && st.inFlight > 0
    ensures Shape(cfg, st') && Sized(cfg, st')
  {
    NoBoxCounted(st.lost, Any);
    ReceiveTakes(cfg, st, st', Any);
    assert st'.pending.Keys == st.pending.Keys + {st.done[0].clid};
    assert |st'.pending.Keys| == |st.pending.Keys| + 1;
  }

  lemma AccountedReceive(cfg: Config, st: State, st': State)
    requires Accounted(cfg, st) && Step(cfg, st, Receive, st')
    ensures Accounted(cfg, st')
  {
    DoneIsElsewhere(cfg, st);
    SizedReceive(cfg, st, st');
    forall x: nat
      ensures Places(cfg, st', x) == Places(cfg, st, x)
    {
      NoBoxCounted(st.lost, Id(x));
      ReceiveTakes(cfg, st, st', Id(x));
    }
  }

  lemma AccountedCommit(cfg: Config, st: State, diverted: nat, st': State)
    requires Accounted(cfg, st) && Step(cfg, st, CommitNext(diverted), st')
    ensures Accounted(cfg, st')
  {
    var id := st.nextCommit;
    assert Places(cfg, st, id) > 0;
    assert st'.pending.Keys == st.pending.Keys - {id};
    assert |st'.pending| == |st.pending| - 1 by {
      assert |st'.pending.Keys| == |st.pending.Keys| - 1;
    }
    forall x: nat
      ensures Places(cfg, st', x) == Places(cfg, st, x) - if x == id then 1 else 0
    {
    }
  }

  lemma AccountedQuiet(cfg: Config, st: State, st': State)
    requires Accounted(cfg, st)
    requires SameStages(st, st') && SameCounters(st, st') && st'.done == st.done && st'.launched == st.launched
    ensures Accounted(cfg, st')
  {
    forall x: nat
      ensures Places(cfg, st', x) == Places(cfg, st, x)
    {
    }
  }

  lemma AccountedNext(cfg: Config, st: State, a: Action, st': State)
    requires Accounted(cfg, st) && Step(cfg, st, a, st')
    ensures Accounted(cfg, st')
  {
    if IsWorkerAction(a) {
      AccountedWorker(cfg, st, a, st');
    } else {
      match a
      case Launch(rate, stop) => AccountedLaunch(cfg, st, rate, stop, st');
      case Receive => AccountedReceive(cfg, st, st');
      case CommitNext(diverted) => AccountedCommit(cfg, st, diverted, st');
      case _ => AccountedQuiet(cfg, st, st');
    }
  }
}
