/** What a log entry holds, in terms of what the stages did with its list: the meaning of the
    sequential log, hence of the parallel executor's. */
module LogEntries {
  import opened SequentialRuntime

  /** Stage `s` steps list `id` after the messages `produced` of the earlier stages. */
  function StageStep(cfg: Config, id: nat, s: nat, produced: seq<Msg>): StepOut
    requires cfg.Valid() && cfg.start <= id && s < cfg.stages
  {
    cfg.step(s, CompsBefore(cfg, id)[s], id, produced)
  }

  /** `produced` are the messages that the first stages put out for list `id`, one each. */
  ghost predicate Produces(cfg: Config, id: nat, produced: seq<Msg>)
    requires cfg.Valid() && cfg.start <= id
  {
    |produced| <= cfg.stages &&
    forall s {:trigger produced[s]} :: 0 <= s < |produced| ==>
      StageStep(cfg, id, s, produced[..s]).Continue? && StageStep(cfg, id, s, produced[..s]).msg == produced[s]
  }

  /** A completed list is logged with every message as far as its stage lets it be logged. */
  ghost predicate HoldsLogged(cfg: Config, entry: Commit, produced: seq<Msg>)
    requires cfg.Valid() && cfg.start <= entry.id
  {
    Produces(cfg, entry.id, produced) && |produced| == |entry.msgs| == cfg.stages &&
    forall s :: 0 <= s < cfg.stages ==> entry.msgs[s] == cfg.logged(s, produced[s])
  }

  /** A list aborted at stage `t` is logged as it is: the messages of the earlier stages, what the
      aborting step left in its slot, and behind it what the list held before the iteration. */
  ghost predicate HoldsAborted(cfg: Config, entry: Commit, content: seq<Msg>, produced: seq<Msg>)
    requires cfg.Valid() && cfg.start <= entry.id
  {
    var t := |produced|;
    Produces(cfg, entry.id, produced) && t < |entry.msgs| == |content| == cfg.stages &&
    StageStep(cfg, entry.id, t, produced).Abort? &&
    entry.msgs[..t] == produced && entry.msgs[t + 1..] == content[t + 1..] &&
    entry.msgs[t] == cfg.leftover(t, CompsBefore(cfg, entry.id)[t], entry.id, produced + content[t..])
  }

  ghost predicate Holds(cfg: Config, entry: Commit, content: seq<Msg>, produced: seq<Msg>)
    requires cfg.Valid() && cfg.start <= entry.id
  {
    if entry.aborted then HoldsAborted(cfg, entry, content, produced) else HoldsLogged(cfg, entry, produced)
  }

  /** The entry of list `id`, which held `content` before, says what the stages did with it; none of
      them failed. */
  ghost predicate TrueEntry(cfg: Config, id: nat, entry: Commit, content: seq<Msg>)
    requires cfg.Valid() && cfg.start <= id
  {
    entry.id == id && !StepFails(cfg, id) && exists produced :: Holds(cfg, entry, content, produced)
  }

  /** Some stage's step fails or panics on list `id`. */
  ghost predicate StepFails(cfg: Config, id: nat)
    requires cfg.Valid() && cfg.start <= id
  {
    exists produced :: Produces(cfg, id, produced) && |produced| < cfg.stages &&
      (StageStep(cfg, id, |produced|, produced).Fail? || StageStep(cfg, id, |produced|, produced).Panic?)
  }

  lemma {:induction false} WalkProduces(cfg: Config, id: nat, s: nat)
    requires cfg.Valid() && cfg.start <= id && s <= cfg.stages
    ensures Produces(cfg, id, WalkAt(cfg, id, s).produced)
    ensures var w := WalkAt(cfg, id, s);
            w.Stopped? ==>
              var out := StageStep(cfg, id, w.ending.stage, w.produced);
              if w.ending.AbortedAt? then out.Abort? else out.Fail? || out.Panic?
  {
    if s > 0 {
      WalkProduces(cfg, id, s - 1);
      var before, after := WalkAt(cfg, id, s - 1).produced, WalkAt(cfg, id, s).produced;
      forall t | 0 <= t < |after|
        ensures StageStep(cfg, id, t, after[..t]).Continue? && StageStep(cfg, id, t, after[..t]).msg == after[t]
      {
        assert after[..t] == before[..t];
        if t < |before| { assert before[t] == after[t]; }
      }
    }
  }

  /** Two walks over the same stages agree. */
  lemma {:induction false} ProducesIsWalk(cfg: Config, id: nat, produced: seq<Msg>)
    requires cfg.Valid() && cfg.start <= id && Produces(cfg, id, produced)
    ensures WalkAt(cfg, id, |produced|) == Walking(produced)
    decreases |produced|
  {
    if produced != [] {
      var n := |produced| - 1;
      var init := produced[..n];
      forall t | 0 <= t < n
        ensures StageStep(cfg, id, t, init[..t]).Continue? && StageStep(cfg, id, t, init[..t]).msg == init[t]
      {
        assert init[..t] == produced[..t] && init[t] == produced[t];
      }
      ProducesIsWalk(cfg, id, init);
      assert produced == init + [produced[n]];
    }
  }

  /** A list fails exactly if some stage's step fails or panics after the earlier ones went on. */
  lemma FailsIff(cfg: Config, id: nat)
    requires cfg.Valid() && cfg.start <= id
    ensures Fails(cfg, id) <==> StepFails(cfg, id)
  {
    WalkProduces(cfg, id, cfg.stages);
    if StepFails(cfg, id) {
      var produced :| Produces(cfg, id, produced) && |produced| < cfg.stages &&
        (StageStep(cfg, id, |produced|, produced).Fail? || StageStep(cfg, id, |produced|, produced).Panic?);
      ProducesIsWalk(cfg, id, produced);
      StoppedStays(cfg, CompsBefore(cfg, id), id, |produced| + 1, cfg.stages);
    }
  }

  lemma ExpectedIsTrue(cfg: Config, id: nat, content: seq<Msg>)
    requires cfg.Valid() && cfg.start <= id && |content| == cfg.stages && !Fails(cfg, id)
    ensures TrueEntry(cfg, id, Expected(cfg, id, content), content)
  {
    FailsIff(cfg, id);
    WalkProduces(cfg, id, cfg.stages);
    var entry, produced := Expected(cfg, id, content), Fate(cfg, id).produced;
    assert Holds(cfg, entry, content, produced);
  }

  ghost predicate TrueAt(cfg: Config, log: seq<Commit>, contents: seq<seq<Msg>>, i: nat)
    requires cfg.Valid()
  {
    i < |log| && i < |contents| && TrueEntry(cfg, cfg.start + i, log[i], contents[i])
  }

  ghost predicate TrueLog(cfg: Config, log: seq<Commit>, contents: seq<seq<Msg>>)
    requires cfg.Valid()
  {
    forall i {:trigger TrueAt(cfg, log, contents, i)} :: 0 <= i < |log| ==> TrueAt(cfg, log, contents, i)
  }

  lemma SubmissionIsTrue(cfg: Config, log: seq<Commit>, contents: seq<seq<Msg>>, i: nat)
    requires cfg.Valid() && Submits(cfg, log, contents, i)
    ensures TrueAt(cfg, log, contents, i)
  {
    ExpectedIsTrue(cfg, cfg.start + i, contents[i]);
  }

  lemma SubmissionsAreTrue(cfg: Config, log: seq<Commit>, contents: seq<seq<Msg>>)
    requires cfg.Valid() && SubmitsAll(cfg, log, contents)
    ensures TrueLog(cfg, log, contents)
  {
    forall i | 0 <= i < |log|
      ensures TrueAt(cfg, log, contents, i)
    {
      SubmissionIsTrue(cfg, log, contents, i);
    }
  }

  /** A sequential log is true, and stops short exactly in front of a list with a failing step. */
  lemma SequentialLogIsTrue(cfg: Config, log: seq<Commit>, contents: seq<seq<Msg>>)
    requires cfg.Valid() && IsSequentialLog(cfg, log, contents)
    ensures TrueLog(cfg, log, contents) && |log| <= |contents|
    ensures |log| < |contents| ==> StepFails(cfg, cfg.start + |log|)
  {
    SubmissionsAreTrue(cfg, log, contents);
    FailsIff(cfg, cfg.start + |log|);
  }

  /** After any number of iterations the runtime's log is true. */
  lemma RuntimeLogIsTrue(runtime: Runtime, contents: seq<seq<Msg>>)
    requires runtime.Valid(contents)
    ensures TrueLog(runtime.cfg, runtime.log, contents) && |runtime.log| == |contents|
  {
    SubmissionsAreTrue(runtime.cfg, runtime.log, contents);
  }
}
