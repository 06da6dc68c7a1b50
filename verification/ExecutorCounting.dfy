/** Counting what the executor holds: how often an id or a box occurs in each place, and how
    each step of a run changes those counts. */
module ExecutorCounting {
  import opened SequentialRuntime
  import opened Executor

  function Count<T>(s: seq<T>, p: T -> bool): nat {
    if s == [] then 0 else Count(s[..|s| - 1], p) + (if p(s[|s| - 1]) then 1 else 0)
  }

  lemma CountLast<T>(s: seq<T>, t: T, p: T -> bool)
    ensures Count(s + [t], p) == Count(s, p) + (if p(t) then 1 else 0)
  {
    assert (s + [t])[..|s|] == s;
  }

  lemma {:induction false} CountFirst<T>(s: seq<T>, p: T -> bool)
    requires s != []
    ensures Count(s, p) == Count(s[1..], p) + (if p(s[0]) then 1 else 0)
  {
    var n := |s| - 1;
    if n > 0 {
      CountFirst(s[..n], p);
      assert s[1..] == s[..n][1..] + [s[n]];
      CountLast(s[..n][1..], s[n], p);
    } else {
      assert s[..n] == s[1..] == [];
    }
  }

  lemma {:induction false} CountBoth<T>(a: seq<T>, b: seq<T>, p: T -> bool)
    ensures Count(a + b, p) == Count(a, p) + Count(b, p)
  {
    if b == [] {
      assert a + b == a;
    } else {
      var n := |b| - 1;
      CountBoth(a, b[..n], p);
      CountLast(a + b[..n], b[n], p);
      assert a + b == a + b[..n] + [b[n]];
    }
  }

  lemma {:induction false} CountPositive<T>(s: seq<T>, p: T -> bool, i: nat)
    requires i < |s| && p(s[i])
    ensures Count(s, p) > 0
  {
    if i < |s| - 1 { CountPositive(s[..|s| - 1], p, i); }
  }

  lemma {:induction false} CountWitness<T>(s: seq<T>, p: T -> bool) returns (i: nat)
    requires Count(s, p) > 0
    ensures i < |s| && p(s[i])
  {
    var n := |s| - 1;
    if p(s[n]) { i := n; } else { i := CountWitness(s[..n], p); }
  }

  // ---------------------------------------------------------------- what is counted

  /** Occurrences of one id, of one box, or of any list at all. */
  datatype Which = Id(x: nat) | Box(x: nat) | Any

  function JobIs(w: Which): Job -> bool {
    match w
    case Id(x) => (job: Job) => job.clid == x
    case Box(x) => (job: Job) => job.culist.box == x
    case Any => (job: Job) => true
  }

  function ResultIs(w: Which): WorkerResult -> bool {
    match w
    case Id(x) => (r: WorkerResult) => r.clid == x
    case Box(x) => (r: WorkerResult) => r.culist.Some? && r.culist.value.box == x
    case Any => (r: WorkerResult) => true
  }

  function Held(w: Which, worker: Worker): nat {
    match worker
    case Idle => 0
    case Busy(job, _) => if JobIs(w)(job) then 1 else 0
    case Reporting(r) => if ResultIs(w)(r) then 1 else 0
  }

  /** Occurrences in the first `n` stages. */
  function InStages(w: Which, queues: seq<seq<Job>>, workers: seq<Worker>, n: nat): nat
    requires n <= |queues| && n <= |workers|
  {
    if n == 0 then 0
    else InStages(w, queues, workers, n - 1) + Count(queues[n - 1], JobIs(w)) + Held(w, workers[n - 1])
  }

  ghost predicate Shape(cfg: Config, st: State) {
    |st.queues| == |st.workers| == |st.comps| == |st.seen| == cfg.stages
  }

  /** Occurrences in the stages and in the done channel. */
  function InPipeline(cfg: Config, st: State, w: Which): nat
    requires |st.queues| == |st.workers| == cfg.stages
  {
    InStages(w, st.queues, st.workers, cfg.stages) + Count(st.done, ResultIs(w))
  }

  lemma {:induction false} StageChanged(w: Which, queues: seq<seq<Job>>, workers: seq<Worker>,
                                        queues': seq<seq<Job>>, workers': seq<Worker>, s: nat, n: nat)
    requires n <= |queues| == |queues'| && n <= |workers| == |workers'| && s < |queues| && s < |workers|
    requires forall t :: 0 <= t < n && t != s ==> queues'[t] == queues[t] && workers'[t] == workers[t]
    ensures InStages(w, queues', workers', n) +
            (if s < n then Count(queues[s], JobIs(w)) + Held(w, workers[s]) else 0) ==
            InStages(w, queues, workers, n) +
            (if s < n then Count(queues'[s], JobIs(w)) + Held(w, workers'[s]) else 0)
  {
    if n > 0 { StageChanged(w, queues, workers, queues', workers', s, n - 1); }
  }

  lemma {:induction false} StageHolds(w: Which, queues: seq<seq<Job>>, workers: seq<Worker>, s: nat, n: nat)
    requires s < n <= |queues| && n <= |workers|
    ensures InStages(w, queues, workers, n) >= Count(queues[s], JobIs(w)) + Held(w, workers[s])
  {
    if s < n - 1 { StageHolds(w, queues, workers, s, n - 1); }
  }

  lemma {:induction false} TwoStagesHold(w: Which, queues: seq<seq<Job>>, workers: seq<Worker>, s: nat, t: nat, n: nat)
    requires s < t < n <= |queues| && n <= |workers|
    ensures InStages(w, queues, workers, n) >=
            Count(queues[s], JobIs(w)) + Held(w, workers[s]) + Count(queues[t], JobIs(w)) + Held(w, workers[t])
  {
    if t < n - 1 {
      TwoStagesHold(w, queues, workers, s, t, n - 1);
    } else {
      StageHolds(w, queues, workers, s, n - 1);
    }
  }

  lemma {:induction false} SomeStageHolds(w: Which, queues: seq<seq<Job>>, workers: seq<Worker>, n: nat)
    returns (s: nat)
    requires n <= |queues| && n <= |workers| && InStages(w, queues, workers, n) > 0
    ensures s < n && Count(queues[s], JobIs(w)) + Held(w, workers[s]) > 0
  {
    s := n - 1;
    if Count(queues[s], JobIs(w)) + Held(w, workers[s]) == 0 {
      s := SomeStageHolds(w, queues, workers, n - 1);
    }
  }

  lemma {:induction false} CountAny(queue: seq<Job>)
    ensures Count(queue, JobIs(Any)) == |queue|
  {
    if queue != [] { CountAny(queue[..|queue| - 1]); }
  }

  lemma {:induction false} CountAnyResult(done: seq<WorkerResult>)
    ensures Count(done, ResultIs(Any)) == |done|
  {
    if done != [] { CountAnyResult(done[..|done| - 1]); }
  }

  lemma {:induction false} NothingHeld(w: Which, queues: seq<seq<Job>>, workers: seq<Worker>, n: nat)
    requires n <= |queues| && n <= |workers|
    requires forall s :: 0 <= s < n ==> queues[s] == [] && workers[s].Idle?
    ensures InStages(w, queues, workers, n) == 0
  {
    if n > 0 { NothingHeld(w, queues, workers, n - 1); }
  }

  // ---------------------------------------------------------------- how the steps change counts

  function BoxIs(w: Which): nat -> bool {
    (b: nat) => w.Box? && b == w.x
  }

  /** Only a panic makes a list disappear from the pipeline. */
  function InPipelineOrLost(cfg: Config, st: State, w: Which): nat
    requires Shape(cfg, st)
  {
    InPipeline(cfg, st, w) + Count(st.lost, BoxIs(w))
  }

  lemma WorkerChanged(cfg: Config, st: State, st': State, s: nat, w: Which)
    requires Shape(cfg, st) && s < cfg.stages && st'.queues == st.queues
    requires |st'.workers| == cfg.stages && st'.workers == st.workers[s := st'.workers[s]]
    ensures InStages(w, st'.queues, st'.workers, cfg.stages) + Held(w, st.workers[s]) ==
            InStages(w, st.queues, st.workers, cfg.stages) + Held(w, st'.workers[s])
  {
    StageChanged(w, st.queues, st.workers, st'.queues, st'.workers, s, cfg.stages);
  }

  lemma ReceivingKeeps(cfg: Config, st: State, st': State, s: nat, w: Which)
    requires Shape(cfg, st) && s < cfg.stages && st.queues[s] != [] && st.workers[s].Idle?
    requires Receiving(st, st', s)
    ensures InPipelineOrLost(cfg, st', w) == InPipelineOrLost(cfg, st, w)
  {
    StageChanged(w, st.queues, st.workers, st'.queues, st'.workers, s, cfg.stages);
    CountFirst(st.queues[s], JobIs(w));
  }

  lemma ChecksKeeps(cfg: Config, st: State, st': State, s: nat, w: Which)
    requires Shape(cfg, st) && s < cfg.stages && st.workers[s].Busy? && Checks(st, st', s)
    ensures InPipelineOrLost(cfg, st', w) == InPipelineOrLost(cfg, st, w)
  {
    WorkerChanged(cfg, st, st', s, w);
  }

  lemma StepsKeeps(cfg: Config, st: State, st': State, s: nat, w: Which)
    requires Shape(cfg, st) && Enabled(cfg, st, RunStep(s)) && Steps(cfg, st, st', s)
    ensures InPipelineOrLost(cfg, st', w) == InPipelineOrLost(cfg, st, w)
  {
    WorkerChanged(cfg, st, st', s, w);
  }

  lemma ActedHolds(st: State, s: nat, w: Which)
    requires s < |st.workers| && st.workers[s].Busy? && st.workers[s].phase.Stepped?
    ensures var out := st.workers[s].phase.out;
            Held(w, Acted(st, s)) +
            (if out.Panic? && BoxIs(w)(st.workers[s].job.culist.box) then 1 else 0) == Held(w, st.workers[s])
  {
  }

  lemma ActsKeeps(cfg: Config, st: State, st': State, s: nat, w: Which)
    requires Shape(cfg, st) && Enabled(cfg, st, Act(s)) && Acts(st, st', s)
    ensures InPipelineOrLost(cfg, st', w) == InPipelineOrLost(cfg, st, w)
  {
    WorkerChanged(cfg, st, st', s, w);
    ActedHolds(st, s, w);
    CountLast(st.lost, st.workers[s].job.culist.box, BoxIs(w));
  }

  lemma ForwardsKeeps(cfg: Config, st: State, st': State, s: nat, w: Which)
    requires Shape(cfg, st) && Enabled(cfg, st, Forward(s)) && Forwards(st, st', s)
    ensures InPipelineOrLost(cfg, st', w) == InPipelineOrLost(cfg, st, w)
  {
    StageChanged(w, st.queues, st.workers, st.queues, st'.workers, s, cfg.stages);
    StageChanged(w, st.queues, st'.workers, st'.queues, st'.workers, s + 1, cfg.stages);
    CountLast(st.queues[s + 1], st.workers[s].job, JobIs(w));
  }

  lemma ReportsKeeps(cfg: Config, st: State, st': State, s: nat, w: Which)
    requires Shape(cfg, st) && Enabled(cfg, st, Report(s)) && Reports(st, st', s)
    ensures InPipelineOrLost(cfg, st', w) == InPipelineOrLost(cfg, st, w)
  {
    WorkerChanged(cfg, st, st', s, w);
    CountLast(st.done, st.workers[s].result, ResultIs(w));
  }

  /** No worker step creates, copies or drops a list. */
  lemma WorkersKeep(cfg: Config, st: State, a: Action, st': State, w: Which)
    requires Shape(cfg, st) && IsWorkerAction(a) && Step(cfg, st, a, st')
    ensures InPipelineOrLost(cfg, st', w) == InPipelineOrLost(cfg, st, w)
  {
    match a
    case Recv(s) => ReceivingKeeps(cfg, st, st', s, w);
    case Check(s) => ChecksKeeps(cfg, st, st', s, w);
    case RunStep(s) => StepsKeeps(cfg, st, st', s, w);
    case Act(s) => ActsKeeps(cfg, st, st', s, w);
    case Forward(s) => ForwardsKeeps(cfg, st, st', s, w);
    case Report(s) => ReportsKeeps(cfg, st, st', s, w);
    case _ =>
  }

  lemma LaunchAdds(cfg: Config, st: State, st': State, stop: bool, w: Which)
    requires Shape(cfg, st) && st.free != [] && st.queues != [] && Launches(cfg, st, st', stop)
    ensures InPipelineOrLost(cfg, st', w) ==
            InPipelineOrLost(cfg, st, w) + (if JobIs(w)(NewJob(cfg, st)) then 1 else 0)
  {
    StageChanged(w, st.queues, st.workers, st'.queues, st'.workers, 0, cfg.stages);
    CountLast(st.queues[0], NewJob(cfg, st), JobIs(w));
  }

  lemma ReceiveTakes(cfg: Config, st: State, st': State, w: Which)
    requires Shape(cfg, st) && st.done != [] && Receives(st, st')
    ensures InPipelineOrLost(cfg, st', w) + (if ResultIs(w)(st.done[0]) then 1 else 0) ==
            InPipelineOrLost(cfg, st, w)
  {
    CountFirst(st.done, ResultIs(w));
  }
}
