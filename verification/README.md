# Verified models of Copper's runtime core

This project models the parts of the Copper robotics runtime in which a mistake is hardest to see and proves what they promise:

- the **parallel CopperList executor** that the derive macro generates (`Executor*.dfy`), against the sequential run loop (`SequentialRuntime.dfy`), whose log `LogEntries.dfy` explains in terms of what the stages did;
- the **canonical input-layout alignment** of the derive macro, a dynamic program that must find the one best alignment or report ambiguity, and the merging of missions into one layout (`Alignment.dfy`, `AlignTaskInputs.dfy`, `AlignmentScore.dfy`, `InputLayout.dfy`);
- the **schema builder and the reference inliner** of the MCAP export, over possibly cyclic type graphs (`ReflectedTypes.dfy`, `PrimitiveSchemas.dfy`, `SchemaRefs.dfy`, `SchemaBuilder.dfy`, `RefInliner.dfy`, `JsonPointer.dfy`, `Json.dfy`), and **what the schemas mean**: validation (`JsonSchema.dfy`, `SchemaShapes.dfy`), the JSON values of a type (`TypeValues.dfy`, `PrimitiveValues.dfy`), and how they relate before and after inlining (`SchemaMeaning.dfy`, `SchemaDocuments.dfy`, `InlinedMeaning.dfy`, `InlinedDocuments.dfy`);
- the **background task protocol** (`AsyncTask.dfy`) and the **versioned codec cache** (`CodecCache.dfy`), each over every interleaving of its threads;
- the **log-stream and CopperList codecs** (`Bincode.dfy`, `LogStream.dfy`, `MessageCodec.dfy`, `CopperListCodec.dfy`);
- the **CopperList slot manager** (`CuListsManager.dfy`) and the **clock calibration** (`ClockCalibration.dfy`).

`dafny verify dfyconfig.toml` checks everything.

## How the models are built

**The executor** is a step relation, because its behaviour is that of several threads. `Executor.State` holds the dispatcher's variables, the list manager's side, the queues and workers of all stages, the done channel and the log. One `Action` is what one thread does between two points where others can interfere; `Executor.Step` says what it changes. A run is any sequence of enabled actions, so a lemma about every `Reachable` state holds for every interleaving. `ExecutorProgress.EnabledActionsHaveOutcomes` and `AtMostOneOutcome` show that the relation blocks no enabled action and leaves no choice open.

The list manager is part of the state as far as the dispatcher sees it. With synchronous list I/O a submitted list is recycled at once. With asynchronous I/O (`Config.asyncIo`) it is queued for a serialiser thread and reclaimed oldest first; but each submission also moves the lists serialised by then, before and after the new one is queued, into a pool of the manager's own that the dispatcher never reads. How many (`CommitNext.diverted`) depends on the serialiser's speed, so it is sampled: any number, the newest list included.

The refinement rests on these hypotheses, which the source shares or leaves to its user:

- a step is a function of its component's state, the id and the messages of earlier stages; each component owns exactly one stage (bridges whose receiving and sending sides are separate stages share state, and nothing is claimed for them);
- a step that succeeds overwrites its own output slot; one that aborts, fails or panics may leave anything there, as a function of what it saw (`Config.leftover`);
- `captures_keyframe` is a function of the id; queues and the done channel are first in, first out; the commit checkpoint stores what it is given;
- both executors start a list from the same recycled content. Recycled lists keep old payloads, so the tail of an *aborted* list, which is logged as it is, does depend on that content. `SequentialRuntime.RecycledContentStaysBehindTheAbort` says exactly how far.

**The background task and the codec cache** are classes whose methods are the sections a thread runs while it holds a lock (or a single atomic access). The positions of the threads are fields, and `Valid()` holds after every method, hence after every interleaving.

**The meaning of schemas** has three independent sides. `JsonSchema.Valid` says when a JSON value is valid against a schema, for the keywords the generator emits and under two dialects of JSON Schema: draft-07, which the documents declare, and 2020-12, which knows `prefixItems`. `TypeValues.Serialised` says which JSON values the values of a reflected type serialise to. `TypeValues.Admitted` says, along the structure of the type, what its schema accepts. Neither of the last two mentions a schema. Hypotheses (`SchemaMeaning.Sound`): payloads serialise the way serde does by default, leaving out the fields that reflection says are skipped; reflection data is complete; a type contains itself only through lists, maps or sets (`TypeValues.Grounded`), as it must if it holds its fields by value.

**Everything else** follows the form of the source: in-place table, loops and fields become methods proved against specification functions, and the properties are proved of those functions.

## What the proofs found

- **A rate limiter can strand the dispatcher.** It samples the limiter twice in one turn. Not ready at first and ready at the second look, it blocks on the done channel with nothing in flight and nothing left to wake it up. `WaitsForNothingExactlyWithARateLimiter`: this happens in exactly the configurations with a limiter.
- **Asynchronous list I/O can starve the dispatcher.** Lists that the manager takes back while another is submitted end in its own pool. Once all lists are there, the dispatcher, with nothing in flight, blocks on a completion that never comes. `StarvesExactlyWithAsyncIo`: some run does so if and only if I/O is asynchronous and none of the first lists, as many as there are, fails. Together with the rate limiter this is every way to deadlock (`DeadlocksExactly`); with synchronous I/O and no limiter there is none (`NeverDeadlocked`).
- **The error the executor returns need not be the root failure, and a list the sequential run submits can be lost**: a younger list fails at a stage the older one is past, the older one is dropped while shutting down, and its generic shutdown error is committed first. `DropsExactlyTheOvertaken` and `LosesExactlyTheOvertaken` say for every configuration and list when some run does this: no older list fails, and some younger one that fits in flight with it (within the limit, at most one of them all capturing a keyframe) fails at a stage, not the last, that the older one gets past. Some application does if and only if there are at least two stages and two lists in flight (`SomeApplicationLosesIff`). In every other case the error names the true first failure (`ErrorsAreHonest`).
- **Anchors only break ties while slots or inputs number at most 100.** From 101 on both sides an optimal alignment can give up a type match for anchor bonuses (`AnchorsOnlyBreakTiesIff`).
- **A gap next to an insert is always ambiguous**, because the two can be taken in either order (`GapNextToInsertIsAmbiguous`). So a mission that replaces a task's only input by one of another type can never be merged (`ReplacedInputIsAmbiguous`).
- **An optional payload may accept null twice.** The schema of an option is a choice of exactly one of null and the payload. If the payload's schema accepts null as well (an option of an option, of `()`, of an unknown type) `None` is refused. With the standard options and nothing else, everything that a value of any described type serialises to is valid if and only if no option has such a payload (`SerialisedValuesValidateIff`).
- **Options that are not the standard ones are misread.** Any enum with a unit `None` and a one-field `Some` gets the schema of an option, although it serialises its variants by name and may have more of them (`OwnOptionIsMisread`); and a field that is the standard `Option` but whose type has no description refuses null (`UndescribedOptionRefusesNull`).
- **Tuples are described in another dialect than the one declared.** In draft-07 `items: false` next to `prefixItems` forbids every item, so nothing is valid against a tuple of one or more elements (`DeclaredDialectRefusesTuples`). In 2020-12 it means what the generator intends, and without tuples both agree (`SerialisedValuesValidate`).
- **A float that is not finite** is written as null, which its schema refuses (`NonFiniteIsRefused`).
- **Inlining keeps the meaning of a document as long as its types are not recursive** (`InlinedDocumentMeans`). Where a type contains itself anything is accepted, and `None` of an option whose payload is being expanded is refused (`RecursionUnderAnOption`).
- **A late call evicts a newer codec.** While no set intervenes and no call with an older version is under way, one build serves all calls (`OneBuildWhileWatching`); a call that read the version before a set replaces the codec already built for the new one, whose state is lost (`LateCallEvicts`).
- **Inlining can leave a resolvable reference** exactly if some definition is itself a string that names a definition (`InliningClearsIff`); the schemas the builder makes never do.
- **A failed background run leaks its output**: its error is returned once, and the next accepted poll emits whatever the failed run had written (`FailedRunLeaksItsOutput`).
- **The clock can run backwards** once the elapsed nanoseconds no longer fit 64 bits: the cut does not saturate although the addition after it does. Readings up to a counter value never go back if and only if they still fit there (`NeverGoesBackIff`), unless calibration began within a second of the end of 64-bit time; at its very last nanosecond the clock stands still (`LastNanosecondStandsStill`).

## Model

| member | source | states |
|---|---|---|
| SequentialRuntime.Runtime.ProcessSteps | core/cu29_derive/src/lib.rs:4173-4178 | The process steps of one list walk through the stages in plan order until one aborts or fails; the list and every component end up as the fate of that id says, components of unreached stages untouched. |
| SequentialRuntime.Runtime.RunOneIteration | core/cu29_derive/src/lib.rs:4134-4208 | Submits exactly one entry per iteration that does not fail, with the aborted list as it is and the completed one prepared for logging; a failing iteration submits nothing. What such an entry holds is said by `LogEntries.RuntimeLogIsTrue`. |
| LogEntries.RuntimeLogIsTrue | core/cu29_derive/src/lib.rs:4173-4200 | After any number of iterations every entry that is not aborted holds, for every stage, what may be logged of the message that stage produced; an aborted one holds the produced messages themselves, what the aborting step left, and the old content behind. |
| LogEntries.ExpectedIsTrue | core/cu29_derive/src/lib.rs:8054-8058 | The same of the entry of a single list, which exists exactly if no stage's step fails. |
| LogEntries.FailsIff | core/cu29_derive/src/lib.rs:4173-4178 | A list fails if and only if some stage's step fails or panics after every earlier stage went on. |
| SequentialRuntime.Runtime.Run | core/cu29_derive/src/lib.rs:3713-3777 | Iterating over any contents yields the sequential log for them: one correct entry each, up to the first failure. |
| LogEntries.SequentialLogIsTrue | core/cu29_derive/src/lib.rs:3713-3777 | A sequential log is true entry by entry and stops short only in front of a list with a failing step. |
| SequentialRuntime.RecycledContentStaysBehindTheAbort | core/cu29_runtime/src/copperlist.rs:90-100 | What a recycled list held never shows in a completed list, and in an aborted one only from the aborting stage on. |
| ExecutorProgress.EnabledActionsHaveOutcomes | core/cu29_derive/src/lib.rs:3850-4092 | Every action whose guard holds can be taken in every state. |
| ExecutorProgress.AtMostOneOutcome | core/cu29_derive/src/lib.rs:3850-4092 | An action, with what its thread sampled, determines the whole next state. |
| ExecutorTheorems.ParallelRefinesSequential | core/cu29_derive/src/lib.rs:3983-4092 | In every reachable state the submitted log is, in order and content, a prefix of the sequential log for the launched lists, and complete up to the commit counter while there is no error. |
| ExecutorTheorems.EntriesAreTrue | core/cu29_derive/src/lib.rs:4036-4046 | In every reachable state each submitted entry holds, slot by slot, what may be logged of what the stages produced for that list. |
| ExecutorTheorems.ParallelAgreesWithAnySequentialRun | core/cu29_derive/src/lib.rs:3983-4092 | Against a sequential run with any other recycled contents every submission has the same id and flag and the same messages, up to the aborting stage if aborted. |
| ExecutorTheorems.WithoutFailuresNothingIsLost | core/cu29_derive/src/lib.rs:3983-4092 | If no launched list fails sequentially, no interleaving raises the shutdown flag, an error or a panic loss; every commit is submitted, and at exit the log is the whole sequential log. |
| ExecutorOvertaking.ErrorsAreHonest | core/cu29_derive/src/lib.rs:3983-3996 | An error is only returned if a launched list fails sequentially; all submitted lists do not fail; an error naming a stage names the one where the first unsubmitted list fails; the generic shutdown error means that this list is overtaken; the checkpoint error is never raised. |
| ExecutorOvertaking.TracedNext | core/cu29_derive/src/lib.rs:3268-3277 | Every step keeps the shutdown flag traced to a list that failed at a stage it stepped, and every dropped list to an older failure or to being overtaken. |
| ExecutorDropping.OvertakenIsDropped | core/cu29_derive/src/lib.rs:3268-3277 | If no older list fails and a younger one in reach overtakes a list, a run leads to the exit with the shutdown error and that list the first one not submitted. |
| ExecutorDropping.DropsExactlyTheOvertaken | core/cu29_derive/src/lib.rs:3268-3277 | Some run ends with the shutdown error, having submitted exactly the lists before j, if and only if j is overtaken. |
| ExecutorDropping.LosesExactlyTheOvertaken | core/cu29_derive/src/lib.rs:3983-4092 | Some run ends in an error with j the first list not submitted although the sequential run submits it, if and only if j is overtaken and does not fail. |
| ExecutorDropping.SomeApplicationLosesIff | core/cu29_derive/src/lib.rs:3811-3833 | For given numbers of stages and of lists in flight some application can lose such a list if and only if both are at least two. |
| ExecutorDropping.NothingToOvertake | core/cu29_derive/src/lib.rs:3811-3833 | With one stage, or one list in flight, the shutdown error is never returned. |
| ExecutorTheorems.NothingIsLeftBehind | core/cu29_derive/src/lib.rs:3930-3934 | At the normal exit everything launched is committed, reorder buffer, channel and stages are empty, and without an error everything was submitted and nothing fails. |
| ExecutorTheorems.OnePlaceFromLaunchToCommit | core/cu29_derive/src/lib.rs:3980-4092 | Each id is in exactly one stage, the done channel or the reorder buffer from its launch to its commit, and nowhere before or after: commits have no gap and no repeat. |
| ExecutorTheorems.CountersAgree | core/cu29_derive/src/lib.rs:3980-3996 | in_flight + pending = next_launch - next_commit; in_flight counts the lists in stages and channel and respects the limit; the saturating decrement never saturates; no result overwrites another; the checkpoint always agrees. |
| ExecutorTheorems.OneOwnerPerList | core/cu29_derive/src/lib.rs:3810-3811 | Every boxed list is always in exactly one of pool, list manager's queue, list manager's own pool, a stage, the done channel, the reorder buffer, or lost to a panic. |
| ExecutorTheorems.OnlyPanicsLoseLists | core/cu29_derive/src/lib.rs:3369-3386 | A step loses a list only if it acts on a panicked stage step, exactly one list, and then the shutdown flag is up. |
| ExecutorTheorems.KeyframesExclude | core/cu29_derive/src/lib.rs:3870-3899 | The recorded keyframe id is exactly the one launched and uncommitted id that captures a keyframe; there is never a second. |
| ExecutorTheorems.StagesKeepTheOrder | core/cu29_derive/src/lib.rs:3261-3266 | Whatever a later stage still has to step is older than everything an earlier stage still has to step. |
| ExecutorTheorems.LaunchHandsOver | core/cu29_runtime/src/copperlist.rs:93-100 | A launch takes a list from the pool, resets it slot by slot and hands it to the first stage under the next id. |
| ExecutorTheorems.NothingPassesAfterShutdown | core/cu29_derive/src/lib.rs:3268-3277 | Once the shutdown flag is up no worker is cleared for a step or for handing its list on, and none completes a list. |
| ExecutorInvariant.InvariantNext | core/cu29_derive/src/lib.rs:3261-3393 | Every step of dispatcher or worker keeps the conjunction of all invariants. |
| ExecutorInvariant.InvariantAlways | core/cu29_derive/src/lib.rs:3850-4092 | All invariants hold after every run from the initial state. |
| ExecutorAccounting.AccountedNext | core/cu29_derive/src/lib.rs:3980-4092 | Every step keeps the accounting of ids and counters. |
| ExecutorOwnership.OwnersKept | core/cu29_derive/src/lib.rs:3997-4085 | No step changes the number of owners of any boxed list. |
| ExecutorPool.PooledNext | core/cu29_runtime/src/curuntime.rs:807-886 | While there is no error every step keeps the sum of pool, list manager, pipeline and reorder buffer at the number of lists; without asynchronous I/O the list manager holds none. |
| ExecutorCounting.WorkersKeep | core/cu29_derive/src/lib.rs:3261-3393 | No worker step creates, copies or drops a list, counted by id, by box, or altogether. |
| ExecutorModes.OneKeyframeNext | core/cu29_derive/src/lib.rs:3870-3899 | Every step keeps the keyframe gate exclusive. |
| ExecutorOrder.OrderedNext | core/cu29_derive/src/lib.rs:3261-3266 | Every step keeps each stage's lists in increasing order of id, after the last one it stepped and below the last one the stage before let go. |
| ExecutorCoverage.CoveredNext | core/cu29_derive/src/lib.rs:3268-3316 | Unless the executor is shutting down, a list that has left the earlier stages and is not ahead of this one never reaches it in the sequential run. |
| ExecutorCoverage.InStepNext | core/cu29_derive/src/lib.rs:3268-3316 | Every component is in the state the sequential run gives it before the next list it steps. |
| ExecutorContents.StepIsFaithful | core/cu29_derive/src/lib.rs:3278-3306 | Stepping a list from the sequential component state produces the sequential message, or the sequential aborted list. |
| ExecutorContents.ActedIsFaithful | core/cu29_derive/src/lib.rs:3307-3387 | Forwarding, completing, aborting, failing, panicking and dropping all report the truth about the list's sequential fate. |
| ExecutorContents.LoggedCommit | core/cu29_derive/src/lib.rs:3983-4092 | A commit appends exactly the sequential entry for its id, or records an honest error; it never raises the shutdown flag first. |
| ExecutorProgress.NoSendBlocks | core/cu29_derive/src/lib.rs:3823-3833 | Whenever the dispatcher wants to launch or a worker to hand over, the next queue has room. |
| ExecutorProgress.WaitingIsNeverInVain | core/cu29_derive/src/lib.rs:3940-3963 | Without a rate limiter and with a limit of at least 1 the dispatcher waits only with something in flight, and then a result is queued or some worker can step. |
| ExecutorProgress.ReclaimHasAListToWaitFor | core/cu29_runtime/src/curuntime.rs:847-861 | With nothing in flight, no error and an empty pool, I/O is asynchronous and every list is with the manager; the blocking reclaim has one to wait for if and only if not all are in the manager's own pool. |
| ExecutorProgress.CommitsNeverPanic | core/cu29_derive/src/lib.rs:4000-4040 | The commit loop never meets a successful result without its list. |
| ExecutorProgress.TopAlwaysMoves | core/cu29_derive/src/lib.rs:3850-3963 | At the head of its loop the dispatcher has an enabled action if and only if it is not starved of lists. |
| ExecutorProgress.DeadlockedIff | core/cu29_derive/src/lib.rs:3850-4092 | A reachable state before the exit has no enabled action if and only if the dispatcher is starved of lists or waits with nothing in flight. |
| ExecutorProgress.NeverDeadlocked | core/cu29_derive/src/lib.rs:3850-4092 | With synchronous list I/O and without a rate limiter some action is enabled in every reachable state until the dispatcher has left its loop. |
| ExecutorStarvation.StarvedHasSubmittedAll | core/cu29_runtime/src/curuntime.rs:878-886 | A starved dispatcher has asynchronous I/O and has lost every list to the manager's own pool, so none of the first ones, as many as there are, fails. |
| ExecutorStarvation.StarvesExactlyWithAsyncIo | core/cu29_runtime/src/curuntime.rs:807-886 | Starvation is reachable if and only if I/O is asynchronous and none of those lists fails. |
| ExecutorStarvation.DeadlocksExactly | core/cu29_derive/src/lib.rs:3930-3949 | A deadlock is reachable if and only if there is a rate limiter, or I/O is asynchronous and none of those lists fails. |
| ExecutorProgress.RateLimiterCanStrand | core/cu29_derive/src/lib.rs:3935-3949 | With a rate limiter a state is reachable in which nothing is enabled: waiting with nothing in flight. |
| ExecutorProgress.WaitsForNothingExactlyWithARateLimiter | core/cu29_derive/src/lib.rs:3866-3869 | Waiting with nothing in flight is reachable if and only if the configuration has a rate limiter. |
| ExecutorProgress.WorkersWearDown | core/cu29_derive/src/lib.rs:3261-3393 | Every worker step strictly decreases a count of the steps still to come. |
| ExecutorProgress.ResultsArrive | core/cu29_derive/src/lib.rs:3940-3963 | While the dispatcher waits the workers can take only a bounded number of steps, however interleaved, and cannot stop before a result is in the channel. |
| ExecutorLiveness.EveryStepCounts | core/cu29_derive/src/lib.rs:3850-4097 | While a launched list is uncommitted every step of any thread but a rate-limiter wait strictly decreases a bound on the steps until it is committed. |
| ExecutorLiveness.EveryLaunchedListIsCommitted | core/cu29_derive/src/lib.rs:3850-4097 | Without a rate limiter every continuation longer than that bound has committed the list, and a shorter one that has not can go on. |
| ExecutorDrain.StoppingIsForGood | core/cu29_derive/src/lib.rs:3918-3972 | A stop flag seen anywhere stops launching; after a stop or an error nothing is ever launched again. |
| ExecutorDrain.EveryStepDrains | core/cu29_derive/src/lib.rs:3850-4097 | After a stop or an error every step of any thread strictly decreases a bound on the steps left. |
| ExecutorDrain.StoppingNeverSticks | core/cu29_derive/src/lib.rs:3925-3963 | After a stop or an error some action is enabled until the dispatcher has left its loop, rate limiter or not. |
| ExecutorDrain.StoppingDrains | core/cu29_derive/src/lib.rs:3850-4097 | After a stop or an error every continuation, however interleaved, is bounded, launches nothing, and can only end outside the loop with every launched list committed. |
| Alignment.CellIsUpperBound | core/cu29_derive/src/lib.rs:6170-6232 | No monotone alignment of two prefixes scores more than their table cell. |
| Alignment.CellIsAttained | core/cu29_derive/src/lib.rs:6170-6232 | Some alignment of the two prefixes has the cell's score. |
| Alignment.CellIsExact | core/cu29_derive/src/lib.rs:6131-6153 | The cell holds the maximum score, and its path count is 2 exactly if two different alignments are optimal. |
| Alignment.CellWinners | core/cu29_derive/src/lib.rs:6131-6153 | A cell counts one path exactly if one way into it wins with one path, which the backpointer names; otherwise there is no backpointer. |
| AlignTaskInputs.UpdateAlignmentCell | core/cu29_derive/src/lib.rs:6131-6153 | The in-place update folds one candidate into one cell and leaves all others. |
| AlignTaskInputs.FillTable | core/cu29_derive/src/lib.rs:6163-6232 | The forward sweep leaves the finished cell everywhere. |
| AlignTaskInputs.Backtrace | core/cu29_derive/src/lib.rs:6243-6269 | The backtrace never misses a backpointer and returns an optimal alignment. |
| AlignTaskInputs.Align | core/cu29_derive/src/lib.rs:6155-6270 | Errs exactly if two different alignments are optimal; otherwise returns the only optimal one, which has no gap next to an insert. Up to 100 slots or inputs optimal means most type matches, then most anchored ones. |
| AlignmentScore.ScoreBetweenWeights | core/cu29_derive/src/lib.rs:6114-6129 | A score lies between 100 and 101 times the number of type matches. |
| AlignmentScore.ScoreCounts | core/cu29_derive/src/lib.rs:6114-6129 | A score counts a hundred per type match and one per match whose slot already has the input's connection order. |
| AlignmentScore.OptimalIffUnbeaten | core/cu29_derive/src/lib.rs:6114-6129 | With at most 100 slots or inputs an alignment is optimal if and only if no other has more type matches, or as many and more anchored ones; it is ambiguous if and only if there are two such. |
| AlignmentScore.OptimalHasMostMatches | core/cu29_derive/src/lib.rs:6114-6129 | With at most 100 slots or inputs an optimal alignment has as many type matches as any. |
| AlignmentScore.AnchorsOnlyBreakTiesIff | core/cu29_derive/src/lib.rs:6114-6129 | For m slots and n inputs that guarantee holds if and only if m or n is at most 100. |
| AlignmentScore.SameTypesAlignToIdentity | core/cu29_derive/src/lib.rs:6155-6241 | Equal type sequences of at most 100 entries align to the identity and nothing else, without ambiguity. |
| AlignmentScore.GapNextToInsertIsAmbiguous | core/cu29_derive/src/lib.rs:6234-6241 | An optimal alignment with a gap next to an insert, in either order, makes the alignment ambiguous. |
| AlignmentScore.ReplacedInputIsAmbiguous | core/cu29_derive/src/lib.rs:6234-6241 | One slot against one input of another type is refused as ambiguous. |
| InputLayout.TaskInputLayout.constructor | core/cu29_derive/src/lib.rs:6370-6386 | The first mission's layout maps every input to its own slot. |
| InputLayout.TaskInputLayout.Merge | core/cu29_derive/src/lib.rs:6272-6336 | Refused and unchanged exactly if the alignment is ambiguous; otherwise slots and all mappings are rebuilt along the unique optimum. |
| InputLayout.TaskInputLayout.RebuildSlots | core/cu29_derive/src/lib.rs:6279-6317 | The loop over the steps yields the new slots, the new mission's mapping and where each old slot went. |
| InputLayout.TaskInputLayout.Remap | core/cu29_derive/src/lib.rs:6319-6330 | An earlier mapping is carried to the new slots; its panic on a missing remap cannot happen. |
| InputLayout.MergeKeepsFits | core/cu29_derive/src/lib.rs:6272-6336 | A merge keeps every mapping valid: one entry per slot, the present ones reading 0..n-1 in order, each in a slot of its type that contains its connection order. |
| InputLayout.MergeKeepsOrdersExact | core/cu29_derive/src/lib.rs:6283-6317 | Merging a new mission keeps each slot's connection orders exactly those under which some mission feeds it. |
| InputLayout.MergedAllFits | core/cu29_derive/src/lib.rs:6363-6394 | After merging any sequence of missions every mission's mapping fits the final slots. |
| InputLayout.CollectTaskInputLayout | core/cu29_derive/src/lib.rs:6363-6394 | The per-task loop errs exactly if some merge is ambiguous and otherwise returns the merged layout. |
| InputLayout.AmbiguityIsFinal | core/cu29_derive/src/lib.rs:6387-6389 | An ambiguous merge on the way makes the whole collection fail. |
| JsonPointer.UnescapeUndoesEscape | core/cu29_export/src/serde_to_jsonschema.rs:497-499 | Unescaping an escaped token gives it back, for every string (section 4 of RFC 6901). |
| JsonPointer.EscapedIsOneToken | core/cu29_export/src/serde_to_jsonschema.rs:497-499 | An escaped token contains no separator (section 3 of RFC 6901). |
| JsonPointer.OtherOrderFails | core/cu29_export/src/mcap_export.rs:171-173 | With the two replacements swapped the round trip fails. |
| RefInliner.RefToFindsKey | core/cu29_export/src/mcap_export.rs:175-180 | Looking up a generated reference finds exactly the type path it was built from. |
| RefInliner.LocalKeyIff | core/cu29_export/src/mcap_export.rs:175-180 | Exactly the references that begin with the definitions' prefix name a key: the rest of them, unescaped. |
| RefInliner.LocalRefInliner.ResolveLocalRef | core/cu29_export/src/mcap_export.rs:175-193 | Terminates on cyclic definitions, restores the stack, and computes the specified resolution. |
| RefInliner.LocalRefInliner.InlineLocalRefsInValue | core/cu29_export/src/mcap_export.rs:195-232 | Terminates on every schema, restores the stack, and computes the specified inlining. |
| RefInliner.InlineSchemaLocalRefs | core/cu29_export/src/mcap_export.rs:234-245 | The root loses `$schema` and `$defs` and is inlined with those definitions. |
| RefInliner.InliningClears | core/cu29_export/src/mcap_export.rs:195-232 | If no definition is a string that resolves, no resolvable reference is left. |
| RefInliner.InliningClearsIff | core/cu29_export/src/mcap_export.rs:195-232 | Inlining leaves no resolvable reference on any value if and only if no definition is such a string. |
| RefInliner.InliningIsIdempotent | core/cu29_export/src/mcap_export.rs:195-232 | A second inlining changes nothing. |
| RefInliner.AcyclicRefExpands | core/cu29_export/src/mcap_export.rs:175-193 | Over acyclic definitions a reference expands to its definition's own expansion, nothing omitted. |
| RefInliner.ClosedInliningRemovesAllRefs | core/cu29_export/src/mcap_export.rs:195-232 | If every reference names an object definition, inlining removes all of them. |
| InlinedMeaning.InliningKeepsValidity | core/cu29_export/src/mcap_export.rs:195-232 | Over acyclic definitions the inlined schema accepts, without any definitions, exactly what the schema accepts with them. |
| InlinedDocuments.InlinedDocumentMeans | core/cu29_export/src/mcap_export.rs:234-245 | For types that are not recursive the inlined document accepts exactly what the structure of the root admits. |
| InlinedDocuments.InlinedValuesValidate | core/cu29_export/src/mcap_export.rs:234-245 | For regular types that are not recursive everything a value serialises to is valid against the inlined document. |
| InlinedDocuments.RecursionUnderAnOption | core/cu29_export/src/mcap_export.rs:181-186 | A reference to a type being expanded becomes a schema that accepts anything, so an option of it refuses null. |
| SchemaRefs.SchemaRefsAreEdges | core/cu29_export/src/serde_to_jsonschema.rs:107-417 | The references in a type's schema are exactly to the types its fields, elements and variants name, and the schema is never the placeholder. |
| PrimitiveSchemas.PrimitivesArePlain | core/cu29_export/src/serde_to_jsonschema.rs:451-495 | Whatever its rows, the table maps every path to a non-empty object without references. |
| PrimitiveSchemas.ReflectionIsWellFormed | core/cu29_export/src/serde_to_jsonschema.rs:451-495 | With the source's own table the builder's assumption about primitives holds, so complete reflection data is all it needs. |
| PrimitiveValues.TableIsOfPrimitives | core/cu29_export/src/serde_to_jsonschema.rs:451-495 | The table holds a schema exactly for the paths that name a primitive of the language, and for each its own. |
| PrimitiveValues.ShapeFits | core/cu29_export/src/serde_to_jsonschema.rs:451-495 | Those schemas accept exactly the type's values up to 16 bits, and any integer of the right sign beyond. |
| SchemaBuilder.ReflectSchemaBuilder.EnsureDefinition | core/cu29_export/src/serde_to_jsonschema.rs:90-100 | The depth-first search ends on every finite, possibly cyclic type graph and adds exactly finished definitions of types it reaches, with all they refer to. |
| SchemaBuilder.ReflectSchemaBuilder.SchemaForReflectedOrPath | core/cu29_export/src/serde_to_jsonschema.rs:402-417 | A named type becomes a reference to a defined key, a primitive its schema, anything else a description. |
| SchemaBuilder.ReflectSchemaBuilder.InlineSchemaForType | core/cu29_export/src/serde_to_jsonschema.rs:107-122 | The inline schema is the type's schema, with everything it refers to defined. |
| SchemaBuilder.BuiltIsReached | core/cu29_export/src/serde_to_jsonschema.rs:90-105 | Started from nothing, the definitions are exactly the types reachable from the root, each with its finished schema. |
| SchemaBuilder.FindRoot | core/cu29_export/src/serde_to_jsonschema.rs:52-63 | Finds the exact path or some suffix match among the registered types, and nothing only if there is none. |
| SchemaBuilder.EndsWithIff | core/cu29_export/src/serde_to_jsonschema.rs:57-62 | The suffix test holds if and only if one path is something followed by the other. |
| SchemaBuilder.DocumentInFull | core/cu29_export/src/serde_to_jsonschema.rs:40-47 | The document has exactly the draft-07 marker, the reference to its root with an escaped path, and the definitions. |
| SchemaBuilder.RegistryToJsonSchema | core/cu29_export/src/serde_to_jsonschema.rs:30-50 | The document refers to the root and defines exactly the reachable types; an unknown root gives the fallback schema. |
| SchemaMeaning.SchemaMeans | core/cu29_export/src/serde_to_jsonschema.rs:107-417 | Over definitions that hold the schemas of the types referred to, the schema of a type accepts exactly the values that the type's structure admits. |
| SchemaMeaning.FieldsMeaning | core/cu29_export/src/serde_to_jsonschema.rs:124-157 | A struct's schema accepts exactly the objects with all fields that are neither skipped nor optional, no member that is not a field, and every member admitted by its field. |
| SchemaMeaning.FieldMeans | core/cu29_export/src/serde_to_jsonschema.rs:386-400 | An optional field accepts one of null and its payload but not both, or anything but null if its payload is unknown; any other field what its type does. |
| ReflectedTypes.IsCoreOptionIff | core/cu29_export/src/serde_to_jsonschema.rs:430-434 | A path is that of the standard `Option` if and only if it begins with its module and name. |
| SchemaMeaning.EnumMeans | core/cu29_export/src/serde_to_jsonschema.rs:257-300 | An enum's schema accepts null or the payload, not both, if it looks like an option, and otherwise exactly the values of some variant. |
| SchemaMeaning.TupleMeaning | core/cu29_export/src/serde_to_jsonschema.rs:159-206 | A tuple's schema accepts exactly the arrays of its unskipped elements in order; in draft-07 only the empty one. |
| SchemaDocuments.DocumentMeans | core/cu29_export/src/serde_to_jsonschema.rs:30-50 | The document of a root accepts exactly the values that the structure of the root admits. |
| SchemaDocuments.GenerateSchema | core/cu29_export/src/serde_to_jsonschema.rs:30-50 | The schema generated for a requested type accepts exactly what the structure of the type found admits, with the source's own table of primitives. |
| SchemaDocuments.WorldIsSoundIff | core/cu29_export/src/serde_to_jsonschema.rs:451-495 | With the source's own table nothing more is assumed about primitives. |
| SchemaDocuments.SerialisedIsAdmitted | core/cu29_export/src/serde_to_jsonschema.rs:107-417 | Whatever a value of a regular type serialises to, the type's structure admits. |
| SchemaDocuments.SerialisedValuesValidateIff | core/cu29_export/src/serde_to_jsonschema.rs:274-300 | With standard options, everything that values of described types serialise to is valid against their documents if and only if no option's payload accepts null. |
| SchemaDocuments.SerialisedValuesValidate | core/cu29_export/src/serde_to_jsonschema.rs:30-50 | Everything a value of a regular type serialises to is valid against its document; in draft-07 if no type has a tuple. |
| SchemaDocuments.StructRefuses | core/cu29_export/src/serde_to_jsonschema.rs:124-157 | Against a struct's document nothing is valid that is no object, lacks a field neither skipped nor optional, or has a member that is no field. |
| SchemaDocuments.OptionalMayBeAbsent | core/cu29_export/src/serde_to_jsonschema.rs:141-143 | A valid object stays valid when an optional field is left out. |
| SchemaDocuments.NullIsRefused | core/cu29_export/src/serde_to_jsonschema.rs:294-299 | `None` of an option whose payload accepts null is refused. |
| SchemaDocuments.OwnOptionIsMisread | core/cu29_export/src/serde_to_jsonschema.rs:274-300 | For an enum of one's own that looks like `Option`, `None` is valid exactly if the payload's schema accepts that text, and null, which it never serialises to, if the payload's does not. |
| SchemaDocuments.UndescribedOptionRefusesNull | core/cu29_export/src/serde_to_jsonschema.rs:386-400 | The standard `Option` without a description serialises to null and refuses it. |
| SchemaDocuments.DeclaredDialectRefusesTuples | core/cu29_export/src/serde_to_jsonschema.rs:184-206 | In the declared dialect nothing is valid against a tuple of one or more elements. |
| SchemaDocuments.NonFiniteIsRefused | core/cu29_export/src/serde_to_jsonschema.rs:482-483 | The schema of a float refuses null, which a float that is not finite is written as. |
| SchemaBuilder.ReachedDefsAreClosed | core/cu29_export/src/serde_to_jsonschema.rs:86-122 | Every emitted reference names a defined key, every definition is an object, and none is the placeholder. |
| SchemaBuilder.BuiltSchemaInlinesCompletely | core/cu29_export/src/mcap_export.rs:234-245 | Building a schema and inlining it leaves no reference at all, however cyclic the types are. |
| SchemaBuilder.InlinedSchemaFor | core/cu29_export/src/mcap_export.rs:234-245 | The whole export path, with the source's primitives and unknown roots included, yields a schema without any reference: the fallback exactly if no registered type answers the request. |
| AsyncTask.BackgroundTask.BeginPoll | core/cu29_runtime/src/cuasynctask.rs:35-56 | A pending error is returned first and once; a poll is refused with an empty message while a run is outstanding or its result is not due; otherwise it is accepted. |
| AsyncTask.BackgroundTask.CopyAndSpawn | core/cu29_runtime/src/cuasynctask.rs:58-64 | An accepted poll emits what the latest finished run left and launches the only outstanding run. |
| AsyncTask.BackgroundTask.StartRun | core/cu29_runtime/src/cuasynctask.rs:218-239 | A run starts from an empty output that only carries its start time. |
| AsyncTask.BackgroundTask.FinalizeRun | core/cu29_runtime/src/cuasynctask.rs:67-92 | A successful run records its end time, its own or the clock's; a failed one its error. |
| AsyncTask.BackgroundTask.ReleaseOutput | core/cu29_runtime/src/cuasynctask.rs:246-250 | Until the worker lets go of the output lock an accepted poll cannot copy the buffer. |
| AsyncTask.AcceptedPollsLagByOneRun | core/cu29_runtime/src/cuasynctask.rs:26-92 | The k-th accepted poll emits run k-1's message (the first: nothing), not before that run's recorded end if it succeeded, and after its error was returned if it failed. |
| AsyncTask.FailedRunLeaksItsOutput | core/cu29_runtime/src/cuasynctask.rs:67-92 | Whatever a failing run wrote is emitted by the accepted poll after the one that returned its error. |
| CodecCache.ConfiguredCodec.WriteText | core/cu29_runtime/src/logcodec.rs:121-124 | First half of a set: the new text is in place, the version not yet bumped. |
| CodecCache.ConfiguredCodec.BumpVersion | core/cu29_runtime/src/logcodec.rs:121-124 | Second half of a set: one more version, behind a text already written. |
| CodecCache.ConfiguredCodec.Begin | core/cu29_runtime/src/logcodec.rs:167-167 | A call begins by reading the version, outside any lock. |
| CodecCache.ConfiguredCodec.ReadText | core/cu29_runtime/src/logcodec.rs:173-173 | On a miss the call reads whatever text is there now, which may be newer than its version. |
| CodecCache.ConfiguredCodec.Lookup | core/cu29_runtime/src/logcodec.rs:167-172 | Under the cache lock a call uses the cached codec exactly if it was stored for the version the call has read. |
| CodecCache.ConfiguredCodec.BuildAndStore | core/cu29_runtime/src/logcodec.rs:173-177 | A build stores the codec of the text just read under the version read before; a failing build leaves the cache as it is. |
| CodecCache.ConfiguredCodec.Use | core/cu29_runtime/src/logcodec.rs:157-182 | In every interleaving the codec used was built from a text at least as new as that of every set that returned before the call began, and has since only been used; it stays cached under its version, evolved by this use. |
| CodecCache.OneBuildServesTheStretch | core/cu29_runtime/src/logcodec.rs:167-181 | In a stretch in which all calls read the same version at most the first event is a build, and each call uses the codec the stretch began with, evolved by all the calls before it. |
| CodecCache.ConfiguredCodec.OneBuildWhileWatching | core/cu29_runtime/src/logcodec.rs:167-181 | Watched from a moment at which no call in progress has read an older version, and until a set bumps the version, at most one build succeeds and every later call uses its codec, evolved by the calls before. |
| CodecCache.LateCallEvicts | core/cu29_runtime/src/logcodec.rs:167-177 | A call that read the version before a set replaces the codec built for the new version, and the next call builds again. |
| CodecCache.ReturnedSetsAreSeen | core/cu29_runtime/src/logcodec.rs:157-182 | A set that had returned when a call read the version wrote no later text than the one the call's codec comes from. |
| Bincode.ManyReadBack | core/cu29_log/src/lib.rs:96-104 | A list of items reads back, whatever follows it. |
| Bincode.ReadMany | core/cu29_log/src/lib.rs:126-137 | The decoding loop reads n items or stops at the first failure. |
| LogStream.EncodeEntry | core/cu29_log/src/lib.rs:87-108 | The encoder writes exactly the entry's format: time, level, index, then both length-prefixed lists. |
| LogStream.DecodeEntry | core/cu29_log/src/lib.rs:110-147 | The decoder reads exactly that format; unknown levels count as Debug. |
| LogStream.EntryReadsBack | core/cu29_log/src/lib.rs:87-147 | Decoding an encoded entry gives it back and leaves what follows. |
| LogStream.LevelsReadBack | core/cu29_log/src/lib.rs:110-124 | Every level has a byte of its own, in order of severity from 0 to 4, and every other byte reads as Debug. |
| LogStream.PaddingIsTheEnd | core/cu29_export/src/lib.rs:570-596 | Any number of zero bytes reads as the end of the log. |
| LogStream.StructlogReader | core/cu29_export/src/lib.rs:570-596 | The reader, run to its end, yields the specified log. |
| LogStream.ReaderStopsAtIndexZero | core/cu29_export/src/lib.rs:587-593 | Reading a padded log yields its entries up to the first with message index 0. |
| LogStream.LogRoundTrip | core/cu29_export/src/lib.rs:570-596 | Encoding, padding with any number of zero bytes and reading gives all entries back if and only if none has message index 0. |
| MessageCodec.MessageReadsBack | core/cu29_runtime/src/logcodec.rs:287-348 | A message is read back, presence tag included, if its codec reads back its payload. |
| MessageCodec.OtherTagsAreInvalid | core/cu29_runtime/src/logcodec.rs:334-343 | A presence tag above 1 is an error. |
| MessageCodec.FirstFailureDecides | core/cu29_runtime/src/logcodec.rs:323-348 | The first part of a message that cannot be read decides how reading it fails. |
| CopperListCodec.IndexesAgreeIff | core/cu29_derive/src/lib.rs:6497-6538 | The builders' running index and the index of a slot's codec binding agree exactly if no earlier slot is without ports. |
| CopperListCodec.GeneratedIff | core/cu29_derive/src/lib.rs:6493-6594 | The builders stay inside the list of codecs exactly if every slot has a port, which the runtime plan guarantees. |
| CopperListCodec.SlotGetsItsBindings | core/cu29_derive/src/lib.rs:5839-5888 | Port p of slot s is encoded and decoded with the codec bound to it. |
| CopperListCodec.BuildTupleEncode | core/cu29_derive/src/lib.rs:6493-6547 | The builder emits one statement per port, in order, with the codecs by flat index. |
| CopperListCodec.BuildTupleDecode | core/cu29_derive/src/lib.rs:6550-6594 | The builder reads every slot with the same codecs. |
| CopperListCodec.EncodeIsInOrder | core/cu29_derive/src/lib.rs:6501-6538 | The generated statements write the messages slot after slot, port after port. |
| CopperListCodec.SlotFailure | core/cu29_derive/src/lib.rs:6550-6594 | The first message that cannot be read decides how reading its slot fails. |
| CopperListCodec.ListFailure | core/cu29_derive/src/lib.rs:6550-6594 | The first slot that cannot be read decides how reading the list fails. |
| CopperListCodec.CopperListRoundTrip | core/cu29_derive/src/lib.rs:6493-6594 | With a port in every slot, decoding undoes encoding and leaves what follows, provided each codec undoes itself on its message. |
| CuListsManager.Manager.constructor | core/cu29_runtime/src/copperlist.rs:150-176 | A new manager is empty, and every slot is free, with id 0 and the initialised blank payload. |
| CuListsManager.Manager.Create | core/cu29_runtime/src/copperlist.rs:207-225 | Pushes a list with the next id into a slot that keeps its old payloads, or changes nothing if full. |
| CuListsManager.Manager.IndexIsLengthModSize | core/cu29_runtime/src/copperlist.rs:215-217 | The insertion index is always the number of lists modulo the number of slots. |
| CuListsManager.CreateThenPop | core/cu29_runtime/src/copperlist.rs:207-280 | Pop undoes create, and the list in between has a larger id than every other. |
| CuListsManager.Manager.Pop | core/cu29_runtime/src/copperlist.rs:269-280 | Removes the newest list and gives its slot. |
| CuListsManager.Manager.DropLast | core/cu29_runtime/src/copperlist.rs:256-266 | Removes the newest list. |
| CuListsManager.Manager.Clear | core/cu29_runtime/src/copperlist.rs:201-204 | Empties the manager, keeping slots and the id counter. |
| CuListsManager.Manager.Peek | core/cu29_runtime/src/copperlist.rs:242-252 | The newest list, if any. |
| CuListsManager.Manager.Iter | core/cu29_runtime/src/copperlist.rs:287-290 | Newest to oldest, although it iterates over two halves of the slots. |
| CuListsManager.Manager.AscIter | core/cu29_runtime/src/copperlist.rs:307-310 | Oldest to newest, with increasing ids: the reverse of the other iterator. |
| CuListsManager.IdsIncreaseOverAnyMix | core/cu29_runtime/src/copperlist.rs:201-280 | Over any mix of create, pop, drop and clear the active ids increase, no id is given twice, and there are never more lists than slots. |
| CuListsManager.RunOperations | core/cu29_runtime/src/copperlist.rs:201-280 | The manager behaves as that stack. |
| ClockCalibration.Clock.Calibrate | core/cu29_clock/src/calibration.rs:11-38 | Stores the whole part of the counter's ticks per second over the interval, clamped to 64 bits, and the origin; fails on a zero interval, and leaves the clock alone if the counter did not move. |
| ClockCalibration.Clock.CounterToNanos | core/cu29_clock/src/calibration.rs:41-52 | Reads the origin plus the whole nanoseconds since, while that fits 64 bits; beyond, 128-bit arithmetic is cut to 64 bits and the addition saturates; uncalibrated is an error. |
| ClockCalibration.CalibratedClockKeepsTime | core/cu29_clock/src/calibration.rs:24-51 | A clock calibrated with a counter of exactly R ticks per second shows k seconds after the origin when the counter has gained k times R. |
| ClockCalibration.ExactRateIsFound | core/cu29_clock/src/calibration.rs:31-33 | A counter that gained exactly R ticks per second over the interval is calibrated to R. |
| ClockCalibration.NoFrequencyIff | core/cu29_clock/src/calibration.rs:31-33 | A calibrated clock is left without a frequency if and only if the counter gained less than one tick per second. |
| ClockCalibration.CalibrationError | core/cu29_clock/src/calibration.rs:31-33 | The calibrated interval converts to at least its duration and at most (duration - 1) / frequency more. |
| ClockCalibration.ReadingAtTheEndOfCalibration | core/cu29_clock/src/calibration.rs:24-51 | At the counter value that ended the calibration the clock never shows less than the time measured there and at most floor(interval / frequency) more. |
| ClockCalibration.ReadingsAreMonotone | core/cu29_clock/src/calibration.rs:41-52 | Readings never go back while the quotient fits 64 bits. |
| ClockCalibration.NeverGoesBackIff | core/cu29_clock/src/calibration.rs:41-52 | Unless calibration began within a second of the end of 64-bit time, readings up to a counter value never go back if and only if the quotient there fits 64 bits. |
| ClockCalibration.LastNanosecondStandsStill | core/cu29_clock/src/calibration.rs:51-51 | A clock calibrated at the last nanosecond of 64-bit time never goes back, whatever overflows. |

## Left out

- Early exits of the dispatcher through `?` (failed enqueue, list manager, monitor or keyframe errors), a disconnected done channel and a failed hand-over: terminal, and outside the drain and progress claims.
- Progress under a rate limiter before a stop or an error: only that it can strand the dispatcher is proved.
- Lifecycle differences on abort: the sequential loop runs preprocess and postprocess around all stages, the parallel one attaches them to stages. Process steps only are compared.
- A plan without stages, which is refused before the loop.
- Components with more than one stage (bridges with receiving and sending stages).
- `SyncCopperListsManager`, `KeyFramesManager`, `LoopRateLimiter`, the queues and the checkpoint: abstract, with the contracts stated above.
- `AsyncCopperListsManager` beyond what the dispatcher sees of it: its errors, lists pending from before the run, and the flush at the end. Without a logger it recycles at once and counts as synchronous.
- Monitors, statistics and byte counters.
- 64-bit wrap-around of list ids, of the configuration version and of counters other than the clock's; the i32 of the alignment score, which `Alignment.CellRange` bounds by 101 times the shorter list.
- Mutex poisoning, zeroed allocation and unsafe pointers; tampering with ids through the mutable iterators.
- JSON Schema beyond the keywords the generator emits; the envelope that wraps a payload schema into a message schema; serialisations other than serde's default.
- Order of the members of a JSON object; two different reflected types with one type path; what the reader does after an unreadable entry.
- Executor.Step: a relation rather than imperative code, since the interleavings of its threads are what is proved about.
- CopperListCodec.CopperListRoundTrip: payload and primitive codecs are hypotheses, and encoding errors are not modelled. That every slot has a port is a hypothesis too; `compute_runtime_plan` sees to it, refusing components without outputs and giving sinks one of type `()` (core/cu29_runtime/src/curuntime.rs:1580, 1633-1636, 1681).
- LogStream.LogRoundTrip: the primitive and value codecs are hypotheses, as is that a zero byte reads as zero.
- CodecCache.ConfiguredCodec.Use: the registry that finds the configuration entry, and the resolution of a codec from the configuration text, are one abstract build function.
- The MCAP writer, the command line, Python bindings, string formatting of log lines, configuration reading and token emission.
