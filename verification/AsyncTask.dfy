/** A task run in the background: a poller that launches runs and picks up their output one run
    late, and workers on a thread pool, meeting under a state lock and an output lock.

    Each method is what one thread does while it holds a lock; every interleaving of the two
    sides is some sequence of calls.  A method's `requires` names the thread's position and the
    lock it needs. */
module AsyncTask {
  import opened Wrappers

  type Payload(==, !new)
  type Error(==, !new)
  type Time = nat

  datatype Message = Message(payload: Option<Payload>, start: Option<Time>, end: Option<Time>)

  const EMPTY := Message(None, None, None)

  /** A finished run: the message it left in the buffer, and how it ended. */
  datatype Run = Run(msg: Message, error: Option<Error>)

  /** A finished poll. */
  datatype Poll =
    | Accepted(msg: Message, now: Time)
    | Refused(msg: Message)
    | Failed(error: Error)

  /** A spawned job: in the pool, at work (holding the output lock), or finalized and about to
      let go of the output lock. */
  datatype Job = Queued | AtWork | Finalized

  // ---------------------------------------------------------------- what a history says

  function Accepts(polls: seq<Poll>): (k: nat)
    ensures k <= |polls|
  {
    if polls == [] then 0
    else Accepts(polls[..|polls| - 1]) + if polls[|polls| - 1].Accepted? then 1 else 0
  }

  function Errors(polls: seq<Poll>): seq<Error> {
    if polls == [] then []
    else Errors(polls[..|polls| - 1]) +
         if polls[|polls| - 1].Failed? then [polls[|polls| - 1].error] else []
  }

  function Failures(runs: seq<Run>): seq<Error> {
    if runs == [] then []
    else Failures(runs[..|runs| - 1]) +
         if runs[|runs| - 1].error.Some? then [runs[|runs| - 1].error.value] else []
  }

  /** The message the buffer holds after these runs. */
  function Latest(runs: seq<Run>): Message {
    if runs == [] then Message(None, None, None) else runs[|runs| - 1].msg
  }

  /** The time before which the latest run's message is not to be seen. */
  function ReadyAt(runs: seq<Run>): Option<Time> {
    if runs == [] || runs[|runs| - 1].error.Some? then None else runs[|runs| - 1].msg.end
  }

  /** Poll `i` is right.  An accepted one comes after all runs launched so far have finished and
      after each failure among them was reported; it emits what the latest run left, and if that
      run succeeded not before its recorded end. */
  ghost predicate PollOk(polls: seq<Poll>, runs: seq<Run>, i: nat)
    requires i < |polls|
  {
    match polls[i]
    case Accepted(msg, now) =>
      var k := Accepts(polls[..i]);
      k <= |runs| && msg == Latest(runs[..k]) && Errors(polls[..i]) == Failures(runs[..k]) &&
      (ReadyAt(runs[..k]).Some? ==> now >= ReadyAt(runs[..k]).value)
    case Refused(msg) => msg == Message(None, None, None)
    case Failed(_) => true
  }

  ghost predicate PollsOk(polls: seq<Poll>, runs: seq<Run>) {
    forall i {:trigger PollOk(polls, runs, i)} :: 0 <= i < |polls| ==> PollOk(polls, runs, i)
  }

  ghost predicate RunsOk(runs: seq<Run>) {
    forall k :: 0 <= k < |runs| && runs[k].error.None? ==> runs[k].msg.end.Some?
  }

  lemma OneMorePoll(polls: seq<Poll>, runs: seq<Run>, poll: Poll)
    requires PollsOk(polls, runs) && PollOk(polls + [poll], runs, |polls|)
    ensures PollsOk(polls + [poll], runs)
    ensures Accepts(polls + [poll]) == Accepts(polls) + if poll.Accepted? then 1 else 0
    ensures Errors(polls + [poll]) == Errors(polls) + if poll.Failed? then [poll.error] else []
  {
    var more := polls + [poll];
    assert more[..|polls|] == polls;
    MorePollsOk(polls, runs, poll);
  }

  lemma MorePollsOk(polls: seq<Poll>, runs: seq<Run>, poll: Poll)
    requires PollsOk(polls, runs) && PollOk(polls + [poll], runs, |polls|)
    ensures PollsOk(polls + [poll], runs)
  {
    var more := polls + [poll];
    forall i | 0 <= i < |more|
      ensures PollOk(more, runs, i)
    {
      if i < |polls| {
        assert PollOk(polls, runs, i);
        assert more[..i] == polls[..i] && more[i] == polls[i];
      }
    }
  }

  lemma OneMoreRun(polls: seq<Poll>, runs: seq<Run>, run: Run)
    requires PollsOk(polls, runs)
    ensures PollsOk(polls, runs + [run])
    ensures Failures(runs + [run]) == Failures(runs) + if run.error.Some? then [run.error.value] else []
  {
    assert (runs + [run])[..|runs|] == runs;
    forall i | 0 <= i < |polls|
      ensures PollOk(polls, runs + [run], i)
    {
      assert PollOk(polls, runs, i);
      var k := Accepts(polls[..i]);
      assert k <= |runs| ==> (runs + [run])[..k] == runs[..k];
    }
  }

  /** What the poll that is accepted as number `k` emits: nothing for the first; the message of
      run `k - 1` otherwise, and if that run succeeded not before its recorded end.  If it failed,
      its error was reported before, but what it left in the buffer is emitted all the same. */
  lemma AcceptedPollsLagByOneRun(polls: seq<Poll>, runs: seq<Run>, i: nat)
    requires i < |polls| && polls[i].Accepted? && PollOk(polls, runs, i) && RunsOk(runs)
    ensures var k := Accepts(polls[..i]);
            if k == 0 then polls[i].msg == Message(None, None, None)
            else k <= |runs| && polls[i].msg == runs[k - 1].msg &&
                 (runs[k - 1].error.None? ==>
                    polls[i].msg.end.Some? && polls[i].now >= polls[i].msg.end.value) &&
                 (runs[k - 1].error.Some? ==> runs[k - 1].error.value in Errors(polls[..i]))
  {
    var k := Accepts(polls[..i]);
    if k > 0 {
      var latest := runs[..k];
      assert latest[|latest| - 1] == runs[k - 1];
      if runs[k - 1].error.Some? {
        var earlier := Failures(latest[..k - 1]);
        assert Failures(latest) == earlier + [runs[k - 1].error.value];
        assert Failures(latest)[|earlier|] == runs[k - 1].error.value;
      }
    }
  }

  // ---------------------------------------------------------------- the background task

  datatype Answer = GoOn | Done(poll: Poll)

  class BackgroundTask {
    var processing: bool
    var readyAt: Option<Time>
    var lastError: Option<Error>
    var buffer: Message
    // Where the threads are: the clock reading of an accepted poll that has yet to copy the
    // output, and the spawned jobs.
    var copying: Option<Time>
    var jobs: seq<Job>
    ghost var runs: seq<Run>
    ghost var polls: seq<Poll>

    /** Nobody holds the output lock. */
    predicate OutputFree()
      reads this
    {
      forall j :: 0 <= j < |jobs| ==> jobs[j].Queued?
    }

    predicate Unfinished()
      reads this
    {
      jobs != [] && !jobs[0].Finalized?
    }

    ghost predicate Valid()
      reads this
    {
      // At most one run is outstanding, and `processing` says whether one is.
      |jobs| <= 1 && (processing <==> copying.Some? || Unfinished()) &&
      !(copying.Some? && Unfinished()) &&
      Accepts(polls) == |runs| + (if Unfinished() then 1 else 0) &&
      // The buffer belongs to the latest run until the next one is at work.
      (jobs == [AtWork] || buffer == Latest(runs)) &&
      // Failures are reported once, and before anything else happens.
      Errors(polls) + (if lastError.Some? then [lastError.value] else []) == Failures(runs) &&
      (lastError.Some? ==> !processing && readyAt.None? && ReadyAt(runs).None?) &&
      (!processing && lastError.None? ==> readyAt == ReadyAt(runs)) &&
      (copying.Some? && ReadyAt(runs).Some? ==> copying.value >= ReadyAt(runs).value) &&
      PollsOk(polls, runs) && RunsOk(runs)
    }

    constructor ()
      ensures Valid() && runs == [] && polls == [] && copying.None? && jobs == []
    {
      processing, readyAt, lastError, buffer := false, None, None, EMPTY;
      copying, jobs, runs, polls := None, [], [], [];
    }

    /** The state-locked part of `begin_background_poll`. */
    method BeginPoll(now: Time) returns (answer: Answer)
      requires Valid() && copying.None?
      modifies this
      ensures Valid() && buffer == old(buffer) && jobs == old(jobs) && runs == old(runs)
      ensures match answer
              case GoOn => copying == Some(now) && processing && polls == old(polls)
              case Done(poll) =>
                copying.None? && processing == old(processing) && polls == old(polls) + [poll] &&
                !poll.Accepted?
      ensures answer.GoOn? <==> old(lastError.None? && !processing &&
                                    (readyAt.Some? ==> now >= readyAt.value))
      ensures old(lastError.Some?) ==> answer == Done(Failed(old(lastError.value)))
    {
      if lastError.Some? {
        var error := lastError.value;
        OneMorePoll(polls, runs, Failed(error));
        polls := polls + [Failed(error)];
        lastError := None;
        return Done(Failed(error));
      }
      if processing || (readyAt.Some? && now < readyAt.value) {
        OneMorePoll(polls, runs, Refused(EMPTY));
        polls := polls + [Refused(EMPTY)];
        return Done(Refused(EMPTY));
      }
      processing := true;
      readyAt := None;
      copying := Some(now);
      return GoOn;
    }

    /** The output-locked part of the poll, and the launch of the next run. */
    method CopyAndSpawn() returns (out: Message)
      requires Valid() && copying.Some? && OutputFree()
      modifies this
      ensures Valid() && copying.None? && jobs == [Queued] && runs == old(runs)
      ensures out == Latest(runs) && polls == old(polls) + [Accepted(out, old(copying.value))]
    {
      out := buffer;
      assert jobs == [];
      assert runs[..|runs|] == runs && (polls + [Accepted(out, copying.value)])[..|polls|] == polls;
      OneMorePoll(polls, runs, Accepted(out, copying.value));
      polls := polls + [Accepted(out, copying.value)];
      jobs := jobs + [Queued];
      copying := None;
    }

    /** A worker takes the output lock and clears the buffer. */
    method StartRun(j: nat, now: Time)
      requires Valid() && j < |jobs| && jobs[j].Queued? && OutputFree()
      modifies `jobs, `buffer
      ensures Valid() && jobs == old(jobs)[j := AtWork]
      ensures buffer == Message(None, Some(now), None)
    {
      jobs := jobs[j := AtWork];
      buffer := EMPTY.(start := Some(now));
    }

    /** The task has left `written` in the buffer and ended with `error` or none; the run is
        finalized under the state lock. */
    method FinalizeRun(j: nat, written: Message, error: Option<Error>, now: Time)
      requires Valid() && j < |jobs| && jobs[j].AtWork?
      modifies this
      ensures Valid() && jobs == old(jobs)[j := Finalized] && polls == old(polls)
      ensures runs == old(runs) + [Run(buffer, error)]
      ensures buffer == if error.None? && written.end.None? then written.(end := Some(now)) else written
      ensures error.None? ==> readyAt == buffer.end && lastError.None?
      ensures error.Some? ==> readyAt.None? && lastError == error
    {
      buffer := written;
      processing := false;
      if error.None? {
        if buffer.end.None? { buffer := buffer.(end := Some(now)); }
        readyAt := buffer.end;
      } else {
        readyAt := None;
        lastError := error;
      }
      OneMoreRun(polls, runs, Run(buffer, error));
      runs := runs + [Run(buffer, error)];
      jobs := jobs[j := Finalized];
    }

    /** The worker is done and lets go of the output lock. */
    method ReleaseOutput(j: nat)
      requires Valid() && j < |jobs| && jobs[j].Finalized?
      modifies `jobs
      ensures Valid() && jobs == old(jobs[..j] + jobs[j + 1..])
    {
      jobs := jobs[..j] + jobs[j + 1..];
    }
  }

  /** A task whose first run is at work. */
  method RunAtWork(now: Time) returns (task: BackgroundTask)
    ensures fresh(task) && task.Valid() && task.copying.None? && task.jobs == [AtWork]
  {
    task := new BackgroundTask();
    var launched := task.BeginPoll(now);
    var nothing := task.CopyAndSpawn();
    task.StartRun(0, now);
  }

  /** One run from the poll that launches it to the failure it ends with. */
  method FailingRun(partial: Message, error: Error, now: Time) returns (task: BackgroundTask)
    ensures fresh(task) && task.Valid() && task.copying.None? && task.jobs == []
    ensures task.lastError == Some(error) && task.buffer == partial && !task.processing && task.readyAt.None?
  {
    task := RunAtWork(now);
    task.FinalizeRun(0, partial, Some(error), now);
    task.ReleaseOutput(0);
  }

  /** A run that fails after writing to its output: the poller gets the error once, and its next
      accepted poll emits what the failed run had written. */
  method FailedRunLeaksItsOutput(partial: Message, error: Error, now: Time) returns (first: Answer, out: Message)
    ensures first == Done(Failed(error)) && out == partial
  {
    var task := FailingRun(partial, error, now);
    first := task.BeginPoll(now);
    assert task.lastError.None?;
    var again := task.BeginPoll(now);
    out := task.CopyAndSpawn();
  }
}
