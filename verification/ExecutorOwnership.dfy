/** Every boxed CopperList always has exactly one owner: the pool, the list manager, a stage, the
    done channel or the reorder buffer; only a panicking step makes one disappear. */
module ExecutorOwnership {
  import opened SequentialRuntime
  import opened Executor
  import opened ExecutorCounting
  import opened ExecutorAccounting

  function ListIs(b: nat): CopperList -> bool {
    (culist: CopperList) => culist.box == b
  }

  function Buffered(pending: map<nat, WorkerResult>, b: nat): set<nat> {
    set k | k in pending && ResultIs(Box(b))(pending[k])
  }

  /** How many owners box `b` has, the panics counted as one. */
  function Owners(cfg: Config, st: State, b: nat): nat
    requires Shape(cfg, st)
  {
    InPipelineOrLost(cfg, st, Box(b)) + |Buffered(st.pending, b)| +
    Count(st.free, ListIs(b)) + Count(st.submitted, ListIs(b)) + Count(st.diverted, ListIs(b))
  }

  ghost predicate Owned(cfg: Config, st: State)
    requires Shape(cfg, st)
  {
    forall b: nat {:trigger Owners(cfg, st, b)} :: Owners(cfg, st, b) == if b < cfg.limit then 1 else 0
  }

  lemma {:induction false} FreshPool(pool: seq<CopperList>, b: nat)
    requires forall i :: 0 <= i < |pool| ==> pool[i].box == i
    ensures Count(pool, ListIs(b)) == if b < |pool| then 1 else 0
  {
    if pool != [] { FreshPool(pool[..|pool| - 1], b); }
  }

  lemma OwnedInit(cfg: Config, st: State)
    requires cfg.Valid() && Init(cfg, st)
    ensures Owned(cfg, st)
  {
    forall b: nat
      ensures Owners(cfg, st, b) == if b < cfg.limit then 1 else 0
    {
      NothingHeld(Box(b), st.queues, st.workers, cfg.stages);
      FreshPool(st.free, b);
      assert Buffered(st.pending, b) == {};
    }
  }

  lemma OwnedWorker(cfg: Config, st: State, a: Action, st': State, b: nat)
    requires Shape(cfg, st) && IsWorkerAction(a) && Step(cfg, st, a, st')
    ensures Shape(cfg, st') && Owners(cfg, st', b) == Owners(cfg, st, b)
  {
    WorkersFrame(cfg, st, a, st');
    WorkersKeep(cfg, st, a, st', Box(b));
  }

  lemma OwnedLaunch(cfg: Config, st: State, stop: bool, st': State, b: nat)
    requires Shape(cfg, st) && st.free != [] && st.queues != [] && Launches(cfg, st, st', stop)
    ensures Shape(cfg, st') && Owners(cfg, st', b) == Owners(cfg, st, b)
  {
    var n := |st.free| - 1;
    assert st.free == st.free[..n] + [st.free[n]];
    CountLast(st.free[..n], st.free[n], ListIs(b));
    LaunchAdds(cfg, st, st', stop, Box(b));
  }

  lemma BufferedOneMore(pending: map<nat, WorkerResult>, k: nat, r: WorkerResult, b: nat)
    requires k !in pending
    ensures |Buffered(pending[k := r], b)| == |Buffered(pending, b)| + (if ResultIs(Box(b))(r) then 1 else 0)
  {
    assert Buffered(pending[k := r], b) ==
           Buffered(pending, b) + if ResultIs(Box(b))(r) then {k} else {};
  }

  lemma BufferedOneLess(pending: map<nat, WorkerResult>, k: nat, b: nat)
    requires k in pending
    ensures |Buffered(pending - {k}, b)| + (if ResultIs(Box(b))(pending[k]) then 1 else 0) ==
            |Buffered(pending, b)|
  {
    assert Buffered(pending, b) ==
           Buffered(pending - {k}, b) + if ResultIs(Box(b))(pending[k]) then {k} else {};
  }

  lemma OwnedReceive(cfg: Config, st: State, st': State, b: nat)
    requires Shape(cfg, st) && st.done != [] && Receives(st, st') && st.done[0].clid !in st.pending
    ensures Shape(cfg, st') && Owners(cfg, st', b) == Owners(cfg, st, b)
  {
    ReceiveTakes(cfg, st, st', Box(b));
    BufferedOneMore(st.pending, st.done[0].clid, st.done[0], b);
  }

  lemma OwnedReclaim(cfg: Config, st: State, st': State, b: nat)
    requires Shape(cfg, st) && st.submitted != [] && Reclaims(st, st')
    ensures Shape(cfg, st') && Owners(cfg, st', b) == Owners(cfg, st, b)
  {
    CountFirst(st.submitted, ListIs(b));
    CountLast(st.free, st.submitted[0], ListIs(b));
  }

  /** A committed list goes to exactly one of the pool, the serialiser and the manager's own pool. */
  lemma DisposedOnce(cfg: Config, st: State, st': State, r: WorkerResult, diverted: nat, b: nat)
    requires (FatalAfter(st, r).None? ==> r.culist.Some?) && diverted <= |st.submitted| + 1
    requires Disposes(cfg, st, st', r, diverted)
    ensures Count(st'.free, ListIs(b)) + Count(st'.submitted, ListIs(b)) + Count(st'.diverted, ListIs(b)) ==
            Count(st.free, ListIs(b)) + Count(st.submitted, ListIs(b)) + Count(st.diverted, ListIs(b)) +
            (if ResultIs(Box(b))(r) then 1 else 0)
  {
    if r.culist.Some? {
      var prepared := r.culist.value.(msgs := Submission(cfg, r).msgs);
      var queued := st.submitted + [prepared];
      CountLast(st.free, r.culist.value, ListIs(b));
      CountLast(st.free, prepared, ListIs(b));
      CountLast(st.submitted, prepared, ListIs(b));
      assert queued == queued[..diverted] + queued[diverted..];
      CountBoth(queued[..diverted], queued[diverted..], ListIs(b));
      CountBoth(st.diverted, queued[..diverted], ListIs(b));
    }
  }

  lemma OwnedCommit(cfg: Config, st: State, diverted: nat, st': State, b: nat)
    requires Shape(cfg, st) && Enabled(cfg, st, CommitNext(diverted)) && Commits(cfg, st, st', diverted)
    ensures Shape(cfg, st') && Owners(cfg, st', b) == Owners(cfg, st, b)
  {
    var r := st.pending[st.nextCommit];
    DisposedOnce(cfg, st, st', r, diverted, b);
    BufferedOneLess(st.pending, st.nextCommit, b);
  }

  lemma OwnersKept(cfg: Config, st: State, a: Action, st': State, b: nat)
    requires Accounted(cfg, st) && Step(cfg, st, a, st')
    ensures Shape(cfg, st') && Owners(cfg, st', b) == Owners(cfg, st, b)
  {
    if IsWorkerAction(a) {
      OwnedWorker(cfg, st, a, st', b);
    } else {
      match a
      case Launch(_, stop) => OwnedLaunch(cfg, st, stop, st', b);
      case Receive => DoneIsElsewhere(cfg, st); OwnedReceive(cfg, st, st', b);
      case CommitNext(diverted) => OwnedCommit(cfg, st, diverted, st', b);
      case Reclaim => OwnedReclaim(cfg, st, st', b);
      case WaitReclaim(_) => OwnedReclaim(cfg, st, st', b);
      case _ =>
    }
  }

  lemma OwnedNext(cfg: Config, st: State, a: Action, st': State)
    requires Accounted(cfg, st) && Owned(cfg, st) && Step(cfg, st, a, st')
    ensures Shape(cfg, st') && Owned(cfg, st')
  {
    AccountedNext(cfg, st, a, st');
    forall b: nat
      ensures Owners(cfg, st', b) == if b < cfg.limit then 1 else 0
    {
      OwnersKept(cfg, st, a, st', b);
    }
  }
}
