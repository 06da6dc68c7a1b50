/** How many lists are where: while there is no error, pool, list manager, pipeline and reorder
    buffer together hold exactly as many lists as were allocated. */
module ExecutorPool {
  import opened SequentialRuntime
  import opened Executor
  import opened ExecutorAccounting

  ghost predicate Pooled(cfg: Config, st: State) {
    (st.fatal.None? ==>
       |st.free| + |st.submitted| + |st.diverted| + st.inFlight + |st.pending| == cfg.limit) &&
    st.nextLaunch - st.nextCommit <= cfg.limit && |st.submitted| + |st.diverted| <= |st.log| &&
    (!cfg.asyncIo ==> st.submitted == [] && st.diverted == [])
  }

  lemma PooledInit(cfg: Config, st: State)
    requires Init(cfg, st)
    ensures Pooled(cfg, st)
  {
  }

  lemma PooledReceive(cfg: Config, st: State, st': State)
    requires Accounted(cfg, st) && Pooled(cfg, st) && st.done != [] && Receives(st, st')
    ensures Pooled(cfg, st')
  {
    DoneIsElsewhere(cfg, st);
    assert st'.pending.Keys == st.pending.Keys + {st.done[0].clid};
    assert |st'.pending.Keys| == |st.pending.Keys| + 1;
  }

  lemma PooledCommit(cfg: Config, st: State, diverted: nat, st': State)
    requires Pooled(cfg, st) && Enabled(cfg, st, CommitNext(diverted)) && Commits(cfg, st, st', diverted)
    ensures Pooled(cfg, st')
  {
    assert st'.pending.Keys == st.pending.Keys - {st.nextCommit};
    assert |st'.pending.Keys| == |st.pending.Keys| - 1;
  }

  lemma PooledNext(cfg: Config, st: State, a: Action, st': State)
    requires Accounted(cfg, st) && Pooled(cfg, st) && Step(cfg, st, a, st')
    ensures Pooled(cfg, st')
  {
    if IsWorkerAction(a) {
      WorkersFrame(cfg, st, a, st');
    } else {
      match a
      case Receive => PooledReceive(cfg, st, st');
      case CommitNext(diverted) => PooledCommit(cfg, st, diverted, st');
      case _ =>
    }
  }
}
