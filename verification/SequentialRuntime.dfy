/** The sequential runtime: one CopperList after another through every stage of the plan.  It
    is the specification that the parallel executor refines.

    Messages and component states are opaque values.  Each component owns one stage, and its
    step reads its own state, the list's id and the messages of the earlier stages; on success
    it overwrites its own output slot. */
module SequentialRuntime {
  type Msg(==, !new)
  type Comp(==, !new)

  datatype StepOut =
    | Continue(comp: Comp, msg: Msg)
    | Abort(comp: Comp)
    | Fail(comp: Comp)
    | Panic(comp: Comp)

  /** The generated application: its stages, and what its surroundings do.
      - `limit`: how many lists may be in flight; `limited`: whether there is a rate limiter;
        `asyncIo`: whether a thread of its own serialises the submitted lists;
      - `step(s, c, id, earlier)`: what stage `s` does in component state `c`;
      - `leftover(s, c, id, msgs)`: what slot `s` holds after a step that did not succeed;
      - `zeroed` and `blank`: the reset of a recycled slot, and a fresh list's content;
      - `logged(s, m)`: what is left of slot `s` for the log. */
  datatype Config = Config(
    stages: nat, limit: nat, start: nat, limited: bool, asyncIo: bool, init: seq<Comp>,
    step: (nat, Comp, nat, seq<Msg>) -> StepOut,
    leftover: (nat, Comp, nat, seq<Msg>) -> Msg,
    captures: nat -> bool,
    zeroed: Msg -> Msg, blank: Msg, logged: (nat, Msg) -> Msg)
  {
    predicate Valid() {
      stages > 0 && |init| == stages
    }
  }

  datatype Ending = AbortedAt(stage: nat) | FailedAt(stage: nat)

  /** How far an iteration gets: still going, with the messages produced so far, or stopped. */
  datatype Walk = Walking(produced: seq<Msg>) | Stopped(ending: Ending, produced: seq<Msg>)

  datatype Commit = Commit(id: nat, aborted: bool, msgs: seq<Msg>)

  // ---------------------------------------------------------------- one iteration

  function WalkFrom(cfg: Config, comps: seq<Comp>, id: nat, s: nat): (w: Walk)
    requires s <= |comps|
    ensures w.Walking? ==> |w.produced| == s
    ensures w.Stopped? ==> w.ending.stage < s && |w.produced| == w.ending.stage
  {
    if s == 0 then Walking([])
    else
      match WalkFrom(cfg, comps, id, s - 1)
      case Walking(produced) =>
        (match cfg.step(s - 1, comps[s - 1], id, produced)
         case Continue(_, msg) => Walking(produced + [msg])
         case Abort(_) => Stopped(AbortedAt(s - 1), produced)
         case Fail(_) => Stopped(FailedAt(s - 1), produced)
         case Panic(_) => Stopped(FailedAt(s - 1), produced))
      case Stopped(ending, produced) => Stopped(ending, produced)
  }

  /** The state of stage `s` after the iteration: changed only if the list reached the stage. */
  function CompAfter(cfg: Config, comps: seq<Comp>, id: nat, s: nat): Comp
    requires s < |comps|
  {
    match WalkFrom(cfg, comps, id, s)
    case Walking(produced) => cfg.step(s, comps[s], id, produced).comp
    case Stopped(_, _) => comps[s]
  }

  /** The states of the first `n` stages after the iteration. */
  function Advanced(cfg: Config, comps: seq<Comp>, id: nat, n: nat): (after: seq<Comp>)
    requires n <= |comps|
    ensures |after| == n
  {
    if n == 0 then [] else Advanced(cfg, comps, id, n - 1) + [CompAfter(cfg, comps, id, n - 1)]
  }

  lemma {:induction false} AdvancedAt(cfg: Config, comps: seq<Comp>, id: nat, n: nat, s: nat)
    requires s < n <= |comps|
    ensures Advanced(cfg, comps, id, n)[s] == CompAfter(cfg, comps, id, s)
  {
    if s < n - 1 { AdvancedAt(cfg, comps, id, n - 1, s); }
  }

  /** All component states before iteration `id`. */
  function CompsBefore(cfg: Config, id: nat): (comps: seq<Comp>)
    requires cfg.Valid() && cfg.start <= id
    ensures |comps| == cfg.stages
  {
    if id == cfg.start then cfg.init
    else Advanced(cfg, CompsBefore(cfg, id - 1), id - 1, cfg.stages)
  }

  function WalkAt(cfg: Config, id: nat, s: nat): (w: Walk)
    requires cfg.Valid() && cfg.start <= id && s <= cfg.stages
    ensures w.Walking? ==> |w.produced| == s
    ensures w.Stopped? ==> w.ending.stage < s && |w.produced| == w.ending.stage
  {
    WalkFrom(cfg, CompsBefore(cfg, id), id, s)
  }

  function Fate(cfg: Config, id: nat): Walk
    requires cfg.Valid() && cfg.start <= id
  {
    WalkAt(cfg, id, cfg.stages)
  }

  predicate Fails(cfg: Config, id: nat)
    requires cfg.Valid() && cfg.start <= id
  {
    Fate(cfg, id).Stopped? && Fate(cfg, id).ending.FailedAt?
  }

  ghost predicate NoneFails(cfg: Config, lo: nat, hi: nat)
    requires cfg.Valid() && cfg.start <= lo
  {
    forall id: nat {:trigger Fails(cfg, id)} :: lo <= id < hi ==> !Fails(cfg, id)
  }

  function Prepared(cfg: Config, msgs: seq<Msg>): (prepared: seq<Msg>)
    ensures |prepared| == |msgs|
  {
    seq(|msgs|, i requires 0 <= i < |msgs| => cfg.logged(i, msgs[i]))
  }

  /** The whole list after aborting at stage `t`, when it started out holding `content`: the
      slots behind the aborting stage keep what the recycled list held. */
  function AbortedList(cfg: Config, id: nat, t: nat, produced: seq<Msg>, content: seq<Msg>): seq<Msg>
    requires cfg.Valid() && cfg.start <= id && t < cfg.stages
    requires |produced| == t && |content| == cfg.stages
  {
    var reached := produced + content[t..];
    reached[t := cfg.leftover(t, CompsBefore(cfg, id)[t], id, reached)]
  }

  /** What iteration `id` submits, given what its list held at the start. */
  function Expected(cfg: Config, id: nat, content: seq<Msg>): Commit
    requires cfg.Valid() && cfg.start <= id && |content| == cfg.stages && !Fails(cfg, id)
  {
    match Fate(cfg, id)
    case Walking(produced) => Commit(id, false, Prepared(cfg, produced))
    case Stopped(ending, produced) =>
      Commit(id, true, AbortedList(cfg, id, ending.stage, produced, content))
  }

  // ---------------------------------------------------------------- successive iterations

  /** Entry `i` of `log` is what iteration `i` submits when its list starts out as
      `contents[i]`; that iteration does not fail. */
  ghost predicate Submits(cfg: Config, log: seq<Commit>, contents: seq<seq<Msg>>, i: nat)
    requires cfg.Valid()
  {
    i < |log| && i < |contents| && |contents[i]| == cfg.stages &&
    !Fails(cfg, cfg.start + i) && log[i] == Expected(cfg, cfg.start + i, contents[i])
  }

  ghost predicate SubmitsAll(cfg: Config, log: seq<Commit>, contents: seq<seq<Msg>>)
    requires cfg.Valid()
  {
    forall i {:trigger Submits(cfg, log, contents, i)} :: 0 <= i < |log| ==> Submits(cfg, log, contents, i)
  }

  /** `log` is what successive iterations submit for lists that start out as `contents`: one
      entry each, up to the first iteration that fails. */
  ghost predicate IsSequentialLog(cfg: Config, log: seq<Commit>, contents: seq<seq<Msg>>)
    requires cfg.Valid()
  {
    SubmitsAll(cfg, log, contents) && |log| <= |contents| &&
    (|log| < |contents| ==> Fails(cfg, cfg.start + |log|))
  }

  /** A log of submissions never goes beyond, nor differs from, the sequential one. */
  lemma SubmissionsArePrefix(
    cfg: Config, log: seq<Commit>, sequential: seq<Commit>, contents: seq<seq<Msg>>)
    requires cfg.Valid() && SubmitsAll(cfg, log, contents)
    requires IsSequentialLog(cfg, sequential, contents)
    ensures log <= sequential
  {
    assert |sequential| < |log| ==> Submits(cfg, log, contents, |sequential|);
    forall i | 0 <= i < |log|
      ensures log[i] == sequential[i]
    {
      assert Submits(cfg, log, contents, i) && Submits(cfg, sequential, contents, i);
    }
  }

  lemma SubmittedDoNotFail(cfg: Config, log: seq<Commit>, contents: seq<seq<Msg>>)
    requires cfg.Valid() && SubmitsAll(cfg, log, contents)
    ensures NoneFails(cfg, cfg.start, cfg.start + |log|)
  {
    forall id: nat | cfg.start <= id < cfg.start + |log|
      ensures !Fails(cfg, id)
    {
      assert Submits(cfg, log, contents, id - cfg.start);
    }
  }

  lemma {:induction false} StoppedStays(cfg: Config, comps: seq<Comp>, id: nat, s: nat, t: nat)
    requires s <= t <= |comps| && WalkFrom(cfg, comps, id, s).Stopped?
    ensures WalkFrom(cfg, comps, id, t) == WalkFrom(cfg, comps, id, s)
  {
    if s < t { StoppedStays(cfg, comps, id, s, t - 1); }
  }

  /** A walk that has stopped reached the stage where it ended and went no further. */
  lemma {:induction false} StopsWhereItEnds(cfg: Config, comps: seq<Comp>, id: nat, s: nat)
    requires s <= |comps| && WalkFrom(cfg, comps, id, s).Stopped?
    ensures var w := WalkFrom(cfg, comps, id, s);
            WalkFrom(cfg, comps, id, w.ending.stage).Walking? &&
            WalkFrom(cfg, comps, id, w.ending.stage + 1) == w
  {
    if WalkFrom(cfg, comps, id, s - 1).Stopped? { StopsWhereItEnds(cfg, comps, id, s - 1); }
  }

  /** A stage that no list of a range reaches keeps its state over that range. */
  lemma {:induction false} UnreachedStays(cfg: Config, s: nat, a: nat, b: nat)
    requires cfg.Valid() && cfg.start <= a <= b && s < cfg.stages
    requires forall j :: a <= j < b ==> !WalkAt(cfg, j, s).Walking?
    ensures CompsBefore(cfg, b)[s] == CompsBefore(cfg, a)[s]
  {
    if a < b {
      UnreachedStays(cfg, s, a, b - 1);
      assert !WalkAt(cfg, b - 1, s).Walking?;
      AdvancedAt(cfg, CompsBefore(cfg, b - 1), b - 1, cfg.stages, s);
    }
  }

  /** A stage that a list reaches moves on by its step. */
  lemma ReachedMoves(cfg: Config, s: nat, id: nat)
    requires cfg.Valid() && cfg.start <= id && s < cfg.stages && WalkAt(cfg, id, s).Walking?
    ensures CompsBefore(cfg, id + 1)[s] ==
            cfg.step(s, CompsBefore(cfg, id)[s], id, WalkAt(cfg, id, s).produced).comp
  {
    AdvancedAt(cfg, CompsBefore(cfg, id), id, cfg.stages, s);
  }

  /** A list that stops at stage `s` meets its fate there and leaves later stages alone. */
  lemma StoppingLeavesTheRest(cfg: Config, id: nat, s: nat)
    requires cfg.Valid() && cfg.start <= id && s < cfg.stages
    requires WalkAt(cfg, id, s).Walking? && WalkAt(cfg, id, s + 1).Stopped?
    ensures Fate(cfg, id) == WalkAt(cfg, id, s + 1)
    ensures forall t :: s < t < cfg.stages ==> CompsBefore(cfg, id + 1)[t] == CompsBefore(cfg, id)[t]
  {
    var before := CompsBefore(cfg, id);
    StoppedStays(cfg, before, id, s + 1, cfg.stages);
    forall t | s < t < cfg.stages
      ensures before[t] == CompsBefore(cfg, id + 1)[t]
    {
      StoppedStays(cfg, before, id, s + 1, t);
      AdvancedAt(cfg, before, id, cfg.stages, t);
    }
  }

  /** Two submissions of list `id` agree: equal, or both aborted with the same messages before the
      aborting stage. */
  predicate Agree(cfg: Config, id: nat, a: Commit, b: Commit)
    requires cfg.Valid() && cfg.start <= id
  {
    a.id == b.id == id && a.aborted == b.aborted && |a.msgs| == |b.msgs| == cfg.stages &&
    if a.aborted then
      var fate := Fate(cfg, id);
      fate.Stopped? && a.msgs[..fate.ending.stage] == b.msgs[..fate.ending.stage]
    else a.msgs == b.msgs
  }

  /** What a recycled list held only shows in aborted lists, from the aborting stage on. */
  lemma RecycledContentStaysBehindTheAbort(cfg: Config, id: nat, content: seq<Msg>, other: seq<Msg>)
    requires cfg.Valid() && cfg.start <= id && |content| == |other| == cfg.stages && !Fails(cfg, id)
    ensures Agree(cfg, id, Expected(cfg, id, content), Expected(cfg, id, other))
  {
    var fate := Fate(cfg, id);
    if fate.Stopped? {
      var t := fate.ending.stage;
      assert Expected(cfg, id, content).msgs[..t] == fate.produced == Expected(cfg, id, other).msgs[..t];
    }
  }

  /** Submissions agree with the sequential log for lists that started out with other content. */
  lemma SubmissionsAgree(cfg: Config, log: seq<Commit>, contents: seq<seq<Msg>>,
                         sequential: seq<Commit>, others: seq<seq<Msg>>)
    requires cfg.Valid() && SubmitsAll(cfg, log, contents) && IsSequentialLog(cfg, sequential, others)
    requires |contents| <= |others|
    ensures |log| <= |sequential|
    ensures forall i {:trigger log[i]} :: 0 <= i < |log| ==> Agree(cfg, cfg.start + i, log[i], sequential[i])
  {
    assert |sequential| < |log| ==> Submits(cfg, log, contents, |sequential|);
    assert log != [] ==> Submits(cfg, log, contents, |log| - 1);
    forall i | 0 <= i < |log|
      ensures Agree(cfg, cfg.start + i, log[i], sequential[i])
    {
      assert Submits(cfg, log, contents, i) && Submits(cfg, sequential, others, i);
      RecycledContentStaysBehindTheAbort(cfg, cfg.start + i, contents[i], others[i]);
    }
  }

  // ---------------------------------------------------------------- the runtime itself

  datatype IterationEnd = Completed | Aborted | Errored

  /** The process steps of list `id` end as its fate says, leaving the list as `msgs`. */
  ghost predicate EndsWith(cfg: Config, id: nat, content: seq<Msg>, msgs: seq<Msg>, end: IterationEnd)
    requires cfg.Valid() && cfg.start <= id && |content| == cfg.stages
  {
    match end
    case Completed => Fate(cfg, id) == Walking(msgs)
    case Aborted =>
      var fate := Fate(cfg, id);
      fate.Stopped? && fate.ending.AbortedAt? &&
      msgs == AbortedList(cfg, id, fate.ending.stage, fate.produced, content)
    case Errored => Fails(cfg, id)
  }

  lemma SubmittedIsExpected(cfg: Config, id: nat, content: seq<Msg>, msgs: seq<Msg>, end: IterationEnd)
    requires cfg.Valid() && cfg.start <= id && |content| == cfg.stages
    requires EndsWith(cfg, id, content, msgs, end)
    ensures Fails(cfg, id) <==> end.Errored?
    ensures end.Completed? ==> Expected(cfg, id, content) == Commit(id, false, Prepared(cfg, msgs))
    ensures end.Aborted? ==> Expected(cfg, id, content) == Commit(id, true, msgs)
  {
  }

  /** Appending one iteration's submission, or stopping because it failed. */
  lemma OneMoreIteration(cfg: Config, log: seq<Commit>, contents: seq<seq<Msg>>,
                         content: seq<Msg>, entry: Commit)
    requires cfg.Valid() && SubmitsAll(cfg, log, contents) && |log| == |contents|
    requires |content| == cfg.stages
    ensures SubmitsAll(cfg, log, contents + [content])
    ensures !Fails(cfg, cfg.start + |log|) && entry == Expected(cfg, cfg.start + |log|, content) ==>
              SubmitsAll(cfg, log + [entry], contents + [content])
  {
    var longer, more := log + [entry], contents + [content];
    forall i | 0 <= i < |log|
      ensures Submits(cfg, log, more, i) && Submits(cfg, longer, more, i)
    {
      assert Submits(cfg, log, contents, i);
    }
    if !Fails(cfg, cfg.start + |log|) && entry == Expected(cfg, cfg.start + |log|, content) {
      assert Submits(cfg, longer, more, |log|);
    }
  }

  class Runtime {
    const cfg: Config
    var comps: seq<Comp>
    var nextId: nat
    var log: seq<Commit>

    /** `contents` records what each list held when its iteration began. */
    ghost predicate Valid(contents: seq<seq<Msg>>)
      reads this
    {
      cfg.Valid() && nextId == cfg.start + |contents| && comps == CompsBefore(cfg, nextId) &&
      SubmitsAll(cfg, log, contents) && |log| == |contents|
    }

    constructor (cfg: Config)
      requires cfg.Valid()
      ensures this.cfg == cfg && Valid([])
    {
      this.cfg := cfg;
      comps, nextId, log := cfg.init, cfg.start, [];
    }

    /** The generated process steps of one list, in plan order. */
    method ProcessSteps(content: seq<Msg>) returns (msgs: seq<Msg>, end: IterationEnd)
      requires cfg.Valid() && |content| == cfg.stages
      requires cfg.start <= nextId && comps == CompsBefore(cfg, nextId)
      modifies this`comps
      ensures comps == CompsBefore(cfg, nextId + 1)
      ensures EndsWith(cfg, nextId, content, msgs, end)
    {
      ghost var before, after := comps, CompsBefore(cfg, nextId + 1);
      msgs := content;
      var s := 0;
      while s < cfg.stages
        invariant 0 <= s <= cfg.stages && |comps| == cfg.stages
        invariant WalkAt(cfg, nextId, s).Walking?
        invariant msgs == WalkAt(cfg, nextId, s).produced + content[s..]
        invariant forall t :: 0 <= t < cfg.stages ==> comps[t] == if t < s then after[t] else before[t]
      {
        ReachedMoves(cfg, s, nextId);
        assert msgs[..s] == WalkAt(cfg, nextId, s).produced;
        var out := cfg.step(s, comps[s], nextId, msgs[..s]);
        if !out.Continue? {
          if out.Abort? {
            msgs := msgs[s := cfg.leftover(s, comps[s], nextId, msgs)];
          }
          comps := comps[s := out.comp];
          StoppingLeavesTheRest(cfg, nextId, s);
          return msgs, if out.Abort? then Aborted else Errored;
        }
        comps := comps[s := out.comp];
        msgs := msgs[s := out.msg];
        s := s + 1;
      }
      return msgs, Completed;
    }

    /** `run_one_iteration`, up to the process steps: submits the list unless a step failed. */
    method RunOneIteration(content: seq<Msg>, ghost contents: seq<seq<Msg>>) returns (ok: bool)
      requires Valid(contents) && |content| == cfg.stages
      modifies this
      ensures ok == !Fails(cfg, old(nextId))
      ensures ok ==> Valid(contents + [content])
      ensures !ok ==> log == old(log)
      ensures IsSequentialLog(cfg, log, contents + [content])
    {
      ghost var id := nextId;
      var msgs, end := ProcessSteps(content);
      SubmittedIsExpected(cfg, id, content, msgs, end);
      var entry := Commit(nextId, end.Aborted?, if end.Completed? then Prepared(cfg, msgs) else msgs);
      OneMoreIteration(cfg, log, contents, content, entry);
      if end.Errored? { return false; }
      log := log + [entry];
      nextId := nextId + 1;
      return true;
    }

    /** The run loop: iterate until an iteration fails. */
    method Run(contents: seq<seq<Msg>>)
      requires Valid([]) && forall i :: 0 <= i < |contents| ==> |contents[i]| == cfg.stages
      modifies this
      ensures IsSequentialLog(cfg, log, contents)
    {
      var k := 0;
      while k < |contents|
        invariant 0 <= k <= |contents|
        invariant Valid(contents[..k])
      {
        var ok := RunOneIteration(contents[k], contents[..k]);
        assert contents[..k] + [contents[k]] == contents[..k + 1];
        if !ok {
          MoreContents(cfg, log, contents, k + 1);
          return;
        }
        k := k + 1;
      }
      assert contents[..k] == contents;
    }
  }

  lemma MoreContents(cfg: Config, log: seq<Commit>, contents: seq<seq<Msg>>, k: nat)
    requires cfg.Valid() && k <= |contents| && SubmitsAll(cfg, log, contents[..k])
    ensures SubmitsAll(cfg, log, contents)
  {
    forall i | 0 <= i < |log|
      ensures Submits(cfg, log, contents, i)
    {
      assert Submits(cfg, log, contents[..k], i);
    }
  }
}
