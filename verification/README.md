# zscalerctl: verified models of the engine protocol, the wire codec, dump diffs and dump replacement

A Dafny 4.11 project that models the parts of zscalerctl whose correctness depends on many functions
working together, and proves what they promise:

- **The stdio session** (`Session*.dfy`, `EffectCommit.dfy`): the coordinator's event loop, as a value with one
  function per handler (`Session`), as part of a transition system with the decoder, the writer, the operation
  worker, the timers and external cancellation (`SessionSystem`), and as the class it is in the program
  (`SessionCoordinator`), whose methods are proved equal to the functions.  `SessionControl` and `SessionTrace` hold
  the invariants of every step, `SessionTheorems` and `SessionRequests` what they mean for arbitrary runs.
  `SessionHandshake`, `SessionOutcomes`, `SessionAnswers` and `SessionEnding` hold a run against records of its own, of
  what was agreed, reported, read and met, and `SessionContexts` says exactly what is canceled and timed when.
  `SessionLoop` is the event loop on the object, which stays in reachable states.
- **Success plans and their streams** (`Success*.dfy`, `Preflight.dfy`, `FrameTexts.dfy`, `Planner.dfy`,
  `DiffItems.dfy`): what the planner admits before a success is committed, and that the cursor then emits just that.
- **The wire codec** (`Json*.dfy`, `StrictJson*.dfy`, `Framing.dfy`, `SafeInteger.dfy`): the strict JSON validator
  against a grammar of syntax trees, bounded framing over arbitrary fragmentation, exact integers.
- **Dump diffs** (`CanonicalNumbers.dfy`, `IdentityNumbers.dfy`, `JsonTree.dfy`, `FieldDiff.dfy`, `KeyedDiff.dfy`,
  `ContentDiff.dfy`, `Order.dfy`): canonical numbers, value equality and content hashes, diffs as patches.
- **Replacing a dump directory** (`Namespace.dfy`, `ForceReplace.dfy`) and **the event bridge** (`Events.dfy`).

`dafny verify dfyconfig.toml` checks the whole project.

Strings stand for byte strings, one character per byte.  A session theorem speaks of `Reachable` systems: any
interleaving of any length of the coordinator's select arms and the moves of the goroutines around it.  Where the
program leaves something to a library or the outside world (the range gate of floating-point conversion, the content
hash, the formatting of odd identities, the effect runner, other users of a directory) it is a parameter or a
nondeterministic choice, and the theorems hold for all of them.

One place where the code does less than one may expect, stated exactly: the clipped exponent of structural integers
(`SafeInteger.ReadsExactlyIff` gives the condition, `ClippedNegativeExponentIsMisread` and `BoundIsSharp` inputs that
fail).  And one where it relies on checks elsewhere: the composite identities of diff fields, parts with NULs between
them, are ambiguous exactly when a part holds a NUL (`DiffItems.AmbiguousIff`), and the check would then refuse a good
stream (`NulsConfuseIdentities`); the validation of the single items keeps control bytes out
(`internal/enginewire/adapter/results.go:398-414`, `internal/enginewire/data.go:283-301`), so what reaches the check is
judged by what the fields are (`ValidateDiffItems`, `ValidatedIsPlain`).

In `ForceReplace` others may change the namespace before every operation.  The one assumption about them is that nobody
acts inside the private quarantine directory: what is bound there, and the files of a root bound there, change only by
the program's own doing, as `internal/dump/force.go:325-327` says of other accounts.

## Model

| member | source | states |
|---|---|---|
| `SessionTheorems.AppliedEffectIsNeverCanceled` | internal/enginehost/session.go:700-794 | In every reachable session, whatever the interleaving, no request whose effect was applied gets a `canceled` terminal for a client cancel or a shutdown, and no request has two applied effects |
| `SessionTheorems.GrantedBeginIsUndisputed` | internal/enginehost/session.go:712-727 | A begin is granted only when no cancel was asked, the session is not shutting down and no effect of the request was applied; an already decoded frame is handled first |
| `SessionTheorems.DecodedCancelBlocksEffect` | internal/enginehost/session.go:783-794 | A cancel that is already decoded when the begin is selected makes the begin be refused |
| `SessionTheorems.DeferredCancelWinsIffNotApplied` | internal/enginehost/session.go:729-776 | A cancel deferred during the attempt stands, cancels the operation and arms its timer exactly when the effect was not applied |
| `SessionTheorems.TerminalSaysWhetherCanceled` | internal/enginehost/session.go:637-672 | A terminal in a slot answers a requested cancel exactly when a cancel stands against its request |
| `SessionOutcomes.OutcomesAreReported` | internal/enginehost/session.go:637-698 | In any run, against a record of what each request reported: every terminal accepted or in a slot is the verdict on its request's report, `completed` for a plan that fitted, `failed` for a failure or a plan that did not fit, `canceled` for its own cancellation or a cancel that stood; it comes where the frames of the plan end, the items lie before it, and no provisional frame follows the report |
| `SessionOutcomes.ReportsAreAnswered` | internal/enginehost/session.go:637-698 | While the session is open, an active request that has reported has that terminal in a slot or its plan being streamed |
| `SessionAnswers.BusyMeansRejected` | internal/enginehost/session.go:417-430 | In any run, against a record of what each request found when it was read: it is started exactly when it found no other at work, and rejected as busy exactly when it did, one whose terminal is with the writer not counted |
| `SessionEnding.ShutdownsHaveTheirCause` | internal/enginehost/session.go:439-526 | In any run, against a record of the trouble each step meets: the session shuts down when it has met trouble and not before, in the mode and with the error of the first of the worst kind, timed out exactly when a timer ran out; a fatal frame names the offence and its protocol |
| `SessionEnding.InputTakes` | internal/enginehost/session.go:439-526 | What a decoded frame does to a session that is not shutting down is the trouble that the frame is: none, the end of the input, or the named offence |
| `SessionEnding.BoundariesAreAnswered` | internal/enginehost/session.go:700-781 | In every reachable session a begin is granted, refused as canceled, as closing or as an error, and a finish likewise, exactly by what stands against the request and what the frame handled first does |
| `SessionEnding.UselessBoundaries` | internal/enginehost/session.go:700-711 | A boundary message for a request that is gone, or of no known stage, changes nothing and is told so |
| `SessionEnding.CancelTimeoutGivesUp` | internal/enginehost/session.go:612-635 | A cancel whose operation does not end in time ends the loop with the request given up, every context canceled and nothing left to write |
| `SessionHandshake.HandshakeComesFirst` | internal/enginehost/session.go:850-870 | In any run, against a record of whether a supported initialize was decoded: hello is the first frame, ready the second and only after that initialize, no frame with an id comes before both, and the phase says how far this has come |
| `SessionContexts.ContextsFollowTheSession` | internal/enginehost/session.go:559-635 | In every reachable session exactly: input is closed and unblocked under a shutdown, output unblocked when nothing can be written or the time is up, the shutdown timer runs while no effect is in flight, and the operation, message and outcome contexts are canceled by a cancel that is not deferred, with the request, or by the time |
| `SessionTheorems.EffectIsShielded` | internal/enginehost/session.go:559-635 | While an effect is in flight nothing cancels the operation or its outcome context, marks the request abandoned, times the session out or ends the loop |
| `SessionTheorems.CommittingMeansWorkerInside` | internal/enginehost/session.go:700-781 | `effectCommitting` holds exactly while the worker is between a granted begin and its finish, and then the worker is not done |
| `SessionTheorems.FramesFormALifecycle` | internal/enginehost/session.go:796-900 | The frames the writer took for an id are one rejection, or `started`, then gap-free sequence numbers from 2 on, at most one terminal and nothing after it |
| `SessionTheorems.TerminalFollowsWorker` | internal/enginehost/session.go:394-399 | A terminal is handed to the writer only after its worker exited |
| `SessionTheorems.FatalFrameIsLast` | internal/enginehost/session.go:406-415 | After a fatal error frame the writer takes no frame |
| `SessionTheorems.GracefulEndClosesEveryRequest` | internal/enginehost/session.go:1013-1031 | A loop that ends gracefully and in time has no active request and empty slots, has written all it handed over, and has closed every started request with exactly one terminal, its last frame |
| `SessionTheorems.SlotsAreNeverOverwritten` | internal/enginehost/session.go:406-549 | `pending`, `inflight` and `held` are never filled while full, in any run |
| `SessionOutcomes.FullSlotsAreKept` | internal/enginehost/session.go:401-549 | In no step is a full slot filled again: a pending frame stays until the writer takes it or a failing shutdown begins, one in flight until it is acknowledged, a held request until it is answered or the session shuts down |
| `SessionTheorems.RequestsAreAnsweredInOrder` | internal/enginehost/session.go:406-549 | Absent shutdown the valid requests, in increasing id order, are exactly those answered by `started` or `request_rejected`, then the one in `pending`, then the one held; under shutdown a prefix of them is answered |
| `SessionTheorems.DecodedBehindTerminalWaits` | internal/enginehost/session.go:439-526 | A request decoded while a terminal write is in flight is held and not marked busy |
| `SessionTheorems.WaitingRequestIsStarted` | internal/enginehost/session.go:417-430 | Such a request, whatever step follows, keeps waiting, is started, or the session shuts down; it is never rejected as busy |
| `SessionLoop.EventLoop.Run` | internal/enginehost/session.go:246-392 | The loop on the coordinator object: for any schedule of ready arms and outside moves the object takes just the steps that are on offer in their turn, a run of the transition system, so what holds of reachable systems holds of it |
| `SessionLoop.FollowedIsRun` | internal/enginehost/session.go:246-392 | What is followed of a schedule is a run, and a schedule that is a run is followed step by step |
| `SessionLoop.EventLoop.Offered` | internal/enginehost/session.go:246-309 | The guards computed on the object's fields let exactly the steps through that the transition system enables |
| `SessionLoop.EventLoop.SelectArm` | internal/enginehost/session.go:309-362 | Each arm of the select does to the object what the transition system's step does |
| `SessionLoop.EventLoop.Take` | internal/enginehost/session.go:246-392 | One step and the top of the next iteration keep the object in a reachable state |
| `SessionLoop.EventLoop.EffectIsShielded` | internal/enginehost/session.go:559-635 | In the object: an effect in flight is not canceled or abandoned, nothing has timed out and the loop goes on |
| `SessionLoop.EventLoop.ShutdownIsBounded` | internal/enginehost/session.go:902-1011 | In the object: a shutdown has a timer armed, is over, or waits for an effect in flight |
| `SessionLoop.EventLoop.GracefulEndLeavesNothing` | internal/enginehost/session.go:1013-1031 | In the object: a loop that ended gracefully and in time has no active request and empty slots, has written all it handed over and has ended every started request |
| `SessionLoop.Serve` | internal/enginehost/session.go:246-392 | A whole session on a new object: no slot was ever overwritten, and no request whose effect was applied was told that it was canceled on request |
| `SessionRequests.WaitingRequestIsNeverRejected` | internal/enginehost/session.go:417-430 | In any run from a state where such a request waits it has no rejection, in the slot or accepted by the writer: it waits, its start is on its way or accepted, or the session shuts down |
| `SessionRequests.NoRejectionUnderShutdown` | internal/enginehost/session.go:902-1011 | Once a shutdown has begun no step puts a rejection in the pending slot |
| `SessionRequests.StartIsHandedOver` | internal/enginehost/session.go:401-415 | A start that waits in the pending slot stays there until the writer has it, unless the session shuts down |
| `SessionRequests.ShutdownIsForGood` | internal/enginehost/session.go:902-1011 | No step of the loop or around it ends a shutdown that has begun |
| `SessionTheorems.ReadsAndWritesArePaired` | internal/enginehost/io.go:16-107 | In every reachable session a read is outstanding exactly while the decoder reads or its one result waits, a frame is in flight exactly while the writer writes it or its one acknowledgement waits, and a writer that is gone after a failure means a transport shutdown once its acknowledgement is taken |
| `SessionTheorems.ShutdownIsBounded` | internal/enginehost/session.go:902-1011 | In every reachable state with shutdown begun a timer is armed, the loop has ended, or an effect is in flight |
| `SessionTheorems.ShutdownTimerEnds` | internal/enginehost/session.go:347-359 | The shutdown timer ends the loop exactly when no effect is in flight |
| `SessionTheorems.CancelIsBounded` | internal/enginehost/session.go:559-581 | Outside shutdown a cancel that is not deferred has canceled a live operation and armed its timer |
| `SessionTheorems.CommittedStreamNeverFails` | internal/enginehost/session.go:673-686 | While a success stream is committed the next frame always has a sequence number and the cursor always has a frame to give |
| `SessionTheorems.RunKeeps` | internal/enginehost/session.go:246-392 | Any run from a state with the control and history invariants ends in one |
| `SessionControl.MoveKeeps` | internal/enginehost/session.go:246-392 | Every enabled step, of the loop or of a goroutine around it, keeps the control invariant |
| `SessionTrace.ApplyPast` | internal/enginehost/session.go:246-392 | Every enabled step keeps the invariant that ties the frames taken, the requests received and the effects applied to the state |
| `SessionCoordinator.Coordinator.Submit` | internal/enginehost/session.go:310-313 | The pending frame becomes the one in flight and the slot is free (the object's whole state afterwards is the specification's) |
| `SessionCoordinator.Coordinator.FillPending` | internal/enginehost/session.go:406-437 | An empty slot gets the queued fatal frame, the answer to the held request, or the next success frame, in this order of preference; a full slot is left alone (the object's whole state afterwards is the specification's) |
| `SessionCoordinator.Coordinator.BeginGraceful` | internal/enginehost/session.go:902-924 | A first shutdown closes the input, drops the held request, arms a timer and asks to cancel an operation that no effect protects; later calls change nothing (the object's whole state afterwards is the specification's) |
| `SessionCoordinator.Coordinator.BeginFatal` | internal/enginehost/session.go:926-969 | A fatal shutdown replaces a graceful one, clears the output, abandons the operation unless an effect is in flight, and keeps the error frame to be queued (the object's whole state afterwards is the specification's) |
| `SessionCoordinator.Coordinator.BeginTransport` | internal/enginehost/session.go:971-1011 | A transport shutdown replaces any other, keeps its timer only when no effect is in flight, drops frames and abandons an unprotected operation (the object's whole state afterwards is the specification's) |
| `SessionCoordinator.Coordinator.ProcessRequest` | internal/enginehost/session.go:528-549 | A request is rejected as busy while another is active, and otherwise started with sequence 1 (the object's whole state afterwards is the specification's) |
| `SessionCoordinator.Coordinator.HandleCancel` | internal/enginehost/session.go:559-572 | Only a cancel of the active, uncommitted, unprotected request is recorded; during an effect attempt it is deferred (the object's whole state afterwards is the specification's) |
| `SessionCoordinator.Coordinator.CancelActiveOperation` | internal/enginehost/session.go:574-581 | A live operation is canceled once and its timer armed (the object's whole state afterwards is the specification's) |
| `SessionCoordinator.Coordinator.LaunchWorker` | internal/enginehost/session.go:583-596 | The worker starts once, and not for an abandoned request (the object's whole state afterwards is the specification's) |
| `SessionCoordinator.Coordinator.MarkWorkerDone` | internal/enginehost/session.go:598-610 | A worker's exit stops the cancel timer and restores the shutdown timer an effect had held back (the object's whole state afterwards is the specification's) |
| `SessionCoordinator.Coordinator.HandleCancelTimeout` | internal/enginehost/session.go:612-635 | The cancel timer of an unprotected operation whose worker is still running ends the session; an exited worker is only recorded (the object's whole state afterwards is the specification's) |
| `SessionCoordinator.Coordinator.HandleWorkerMessage` | internal/enginehost/session.go:637-698 | A message is dispatched by kind, with the acknowledgement its sender gets (the object's whole state afterwards is the specification's) |
| `SessionCoordinator.Coordinator.HandleOutcome` | internal/enginehost/session.go:667-697 | An outcome becomes a canceled terminal if a cancel stands, a failure if the stream has too few sequence numbers left, and a committed stream otherwise (the object's whole state afterwards is the specification's) |
| `SessionCoordinator.Coordinator.HandleEffectBoundary` | internal/enginehost/session.go:700-781 | A boundary is refused without an active request and otherwise answered by stage (the object's whole state afterwards is the specification's) |
| `SessionCoordinator.Coordinator.AnswerBegin` | internal/enginehost/session.go:712-727 | A begin is granted only with no cancel, no shutdown and no earlier effect (the object's whole state afterwards is the specification's) |
| `SessionCoordinator.Coordinator.AnswerFinish` | internal/enginehost/session.go:729-776 | An applied finish clears the cancel and stops both timers; a failed one restores the shutdown timer or carries out a deferred cancel (the object's whole state afterwards is the specification's) |
| `SessionCoordinator.Coordinator.QueueNumbered` | internal/enginehost/session.go:796-819 | A numbered frame takes the next sequence number, or its exhaustion is fatal (the object's whole state afterwards is the specification's) |
| `SessionCoordinator.Coordinator.QueueNextSuccess` | internal/enginehost/session.go:821-840 | The cursor's next frame is queued under the next sequence number; its failure is fatal (the object's whole state afterwards is the specification's) |
| `SessionCoordinator.Coordinator.TakeDecoded` | internal/enginehost/session.go:439-526 | The outstanding read ends and its result is handled by phase; under shutdown it is dropped (the object's whole state afterwards is the specification's) |
| `SessionCoordinator.Coordinator.HandleRequest` | internal/enginehost/session.go:502-522 | An id that does not increase is fatal; behind a pending frame or a terminal write the request is held, marked busy only behind a pending terminal (the object's whole state afterwards is the specification's) |
| `SessionCoordinator.Coordinator.HandleBootstrapFrame` | internal/enginehost/session.go:458-481 | The right version queues `ready`; anything else is fatal with its kind (the object's whole state afterwards is the specification's) |
| `SessionCoordinator.Coordinator.HandleWriteAck` | internal/enginehost/session.go:850-887 | A written frame advances the phase, launches the worker or ends the request; a codec or transport error starts its shutdown (the object's whole state afterwards is the specification's) |
| `SessionCoordinator.Coordinator.MaybeReleaseActive` | internal/enginehost/session.go:889-900 | The request is released once its terminal is written and its worker exited (the object's whole state afterwards is the specification's) |
| `SessionCoordinator.Coordinator.HandleShutdownTimer` | internal/enginehost/session.go:347-359 | With an effect in flight the timer is only disarmed; otherwise the session times out, streams are closed and every context canceled (the object's whole state afterwards is the specification's) |
| `SessionCoordinator.Coordinator.HandleWriterStopped` | internal/enginehost/session.go:335-339 | A writer that stops without a frame in flight starts a transport shutdown (the object's whole state afterwards is the specification's) |
| `SessionCoordinator.Coordinator.LoopEnds` | internal/enginehost/session.go:1013-1031 | Whether the loop ends, changing nothing |
| `EffectCommit.RunEffectBoundary` | internal/enginehost/operation.go:161-187 | The effect runs at most once, only between a granted begin and its report; a panic is reported as applied; the worker's states are a path the session's worker automaton allows |
| `EffectCommit.Run` | internal/effectcommit/effectcommit.go:32-47 | The effect runs at most once, and through the session when there is one only if it grants the begin; each outcome, with or without a session, is told exactly by whether the effect ran, what came of it and whether the session took the report |
| `EffectCommit.SystemMovesWorker` | internal/enginehost/operation.go:108-219 | Every step of the system moves the worker along that automaton, leaves it, or drops it with its request |
| `SuccessStream.CommittedPlanStreamsToCompletion` | internal/enginehost/success_stream.go:27-102 | Called until it says `terminal`, the cursor yields the plan's stream: exactly `frameCount` frames, `completed` last and only last |
| `SuccessStream.NextEmitsRest` | internal/enginehost/success_stream.go:27-102 | While frames remain, a call never fails, yields the next one and leaves a cursor for the others |
| `SuccessStream.FragmentsReassemble` | internal/enginehost/success_stream.go:47-99 | The chunk data of a fragmented item concatenate to its payload, with the declared length, count and digest, in 1 to 128 chunks of 1 to 512 KiB numbered from 0 |
| `SuccessStream.ItemsWithinFrameCount` | internal/enginehost/success_stream.go:47-50 | Item numbers stay below the frame count, so the safe-integer check on them passes |
| `SuccessCursor.Streamer.Advance` | internal/enginehost/success_stream.go:27-102 | The cursor object does what the cursor function says and, on a good plan, yields the head of what remains |
| `SuccessCounts.CursorCounts` | internal/enginehost/session.go:821-840 | The coordinator's count of a committed stream is exact for the real cursor: same failure, same terminal, same remainder |
| `Planner.PreflightSuccess` | internal/enginehost/preflight.go:40-116 | With a context that does not end, a plan is returned exactly for a valid limit and admissible data; a returned plan plans every item, counts its stream exactly and has passed sizing under maximal ids; each refusal has its cause, and it is interrupted exactly when a check of its context reported the end |
| `Planner.PreflightFragments` | internal/enginehost/preflight.go:115-162 | Succeeds only when every frame of the item fits under maximal ids, and reports bad data only when one does not |
| `Planner.PreflightItem` | internal/enginehost/preflight.go:63-112 | One item is planned inline or in chunks exactly as its size demands, or refused for its own fault |
| `Planner.AddPlanFrames` | internal/enginehost/preflight.go:164-170 | The sum, or nothing when it exceeds the safe-integer range |
| `Planner.PlannedStreamCanBeWritten` | internal/enginehost/preflight.go:40-116 | Whatever request id and sequence numbers its frames get, every frame of a returned plan is valid and within the frame limit |
| `Preflight.PreflightedFrameFits` | internal/enginehost/preflight.go:48-58 | No frame with real ids is longer than the one sized with maximal ids |
| `FrameTexts.WireBytesIsLength` | internal/enginewire/server.go:95-310 | The size the planner works with is the length of the frame's JSON text, numbers in decimal and chunk data in base64 |
| `FrameTexts.FitsByLength` | internal/enginewire/codec.go:166-184 | A valid frame fits exactly when its text has at most one MiB, and a valid payload when it has at most 64 MiB |
| `FrameTexts.FragmentFrames` | internal/enginewire/server.go:202-290 | The frames of a fragmented item are valid exactly within the limits of items, chunks and safe integers |
| `FrameTexts.Base64Size` | internal/enginewire/server.go:234-241 | Base64 text has four characters for every three bytes begun |
| `Preflight.FragmentsFit` | internal/enginehost/preflight.go:91-112 | An admitted item that does not fit inline is cut into 1 to 128 chunks and all its frames fit |
| `Preflight.StreamCounts` | internal/enginehost/preflight.go:164-170 | The planner's running count is the length of the stream the cursor will emit |
| `DiffItems.ValidateDiffItems` | internal/enginehost/preflight.go:227-293 | Accepts exactly the item streams that some list of resource groups flattens to, with the declared counts, matching identities, no repeated composite identity of a field and the summary's totals; where products, resources and keys hold no NUL, exactly those in which no field of a record changes twice and the total of changed records is right |
| `DiffItems.DescribedIff` | internal/enginehost/preflight.go:231-292 | Some grouping describes the items, by what the fields are or by their spelling, exactly when they are well ordered, without repeated fields and with the declared totals |
| `DiffItems.FlattenedLength` | internal/enginehost/preflight.go:284-292 | The stream is as long as its headers and all their declared counts |
| `DiffItems.MatchesIff` | internal/enginehost/preflight.go:295-323 | Records and field changes match a header exactly when they are of its resource and identified as its mode says |
| `DiffItems.PlainItemsAreTold` | internal/enginehost/preflight.go:274-280 | Where products, resources and keys hold no NUL, repeated composite identities are repeated fields, and as many records are counted as have changed |
| `DiffItems.ValidatedIsPlain` | internal/enginewire/types.go:262-279 | Items that passed their own validation, which refuses control bytes and unknown products, hold no NUL in those parts |
| `DiffItems.AmbiguousIff` | internal/enginehost/preflight.go:274-275 | The composite identity of a field is that of another field too exactly when one of its parts holds a NUL |
| `DiffItems.FieldTextIsUnique` | internal/enginehost/preflight.go:274-275 | For parts without NULs, fields have one composite identity exactly when they are the same field |
| `DiffItems.NulsConfuseIdentities` | internal/enginehost/preflight.go:274-278 | A stream whose keys and fields hold NULs, as no validated item does, is what its summary says and yet refused |
| `StrictJsonValidator.AcceptsTheGrammar` | internal/enginewire/jsoncheck.go:17-37 | A text is accepted if and only if it is valid UTF-8 and derives from RFC 8259 with blanks narrowed to space and tab, nesting within the limit, paired surrogate escapes, pairwise distinct decoded keys, and an object on top where required |
| `StrictJsonValidator.DerivationsAreUnique` | internal/enginewire/jsoncheck.go:17-37 | No text has two derivations |
| `StrictJsonErrors.FirstFlawIsReported` | internal/enginewire/jsoncheck.go:17-133 | A text that is no UTF-8 is refused as that; a document of the grammar is refused for its first flaw in reading order, a container too deep or a decoded key that was there before, and accepted when it has none |
| `StrictJsonErrors.LargerLimits` | internal/enginewire/jsoncheck.go:62-115 | A larger limit on nesting changes no verdict but those of depth |
| `StrictJsonValidator.AcceptedIsOneLine` | internal/enginewire/jsoncheck.go:266-270 | Nothing that is accepted holds a LF or CR |
| `StrictJsonValidator.UnquoteIsDecode` | internal/enginewire/jsoncheck.go:141-145 | Decoding a literal from its spelling gives what its escapes stand for, surrogate pairs joined |
| `JsonCharacters.CodeUnitIff` | internal/enginewire/jsoncheck.go:192-214 | A code unit is the number that four hexadecimal digits of either case spell, the spelling taken by division |
| `JsonCharacters.PairIff` | internal/enginewire/jsoncheck.go:160-180 | A surrogate pair is the one code point beyond the first plane that its twenty bits hold |
| `JsonCharacters.Utf8ValidIff` | internal/enginewire/jsoncheck.go:18-20 | Valid UTF-8 is exactly what encodes some sequence of scalar values |
| `JsonCharacters.Utf8IsOneRune` | internal/enginewire/jsoncheck.go:18-20 | The encoding of a scalar value is one well-formed rune, whatever follows, and the value is read back from its bits |
| `JsonCharacters.RuneIsUtf8` | internal/enginewire/jsoncheck.go:18-20 | A well-formed rune encodes the scalar value it holds: nothing overlong, no surrogate |
| `JsonCharacters.Utf8IsUnique` | internal/enginewire/jsoncheck.go:18-20 | Two scalar values have two encodings, neither the start of the other |
| `JsonCharacters.SimpleEscapes` | internal/enginewire/jsoncheck.go:133-190 | The eight two-character escapes stand for the characters that section 7 of RFC 8259 lists |
| `JsonCharacters.CharacterClasses` | internal/enginewire/jsoncheck.go:133-190 | Space, digits, hexadecimal digits, escape letters and raw characters, by their codes |
| `StrictJsonGrammar.ValueSound` | internal/enginewire/jsoncheck.go:45-66 | The tree that was read is valid, nests within what the depth leaves, and its text is what was read |
| `StrictJsonGrammar.ValueOf` | internal/enginewire/jsoncheck.go:45-66 | The text of a valid tree is read back as that tree, up to where the text ends |
| `StrictJsonGrammar.ItemsSound` | internal/enginewire/jsoncheck.go:68-131 | What is read of an object or array is valid members or elements with keys not seen before |
| `StrictJsonGrammar.ItemsOf` | internal/enginewire/jsoncheck.go:68-131 | Valid members or elements with fresh keys are read back as written |
| `StrictJsonGrammar.FreshIsDistinct` | internal/enginewire/jsoncheck.go:77-89 | Meeting no key twice is having pairwise distinct keys |
| `StrictJsonGrammar.NumberSound` | internal/enginewire/jsoncheck.go:223-264 | A number that is read is of the number grammar, and its text is what was read |
| `StrictJsonGrammar.NumberOf` | internal/enginewire/jsoncheck.go:223-264 | A number of the grammar that nothing lengthens is read back as written |
| `StrictJsonGrammar.CharsOf` | internal/enginewire/jsoncheck.go:133-190 | A string's characters and escapes are read back as written |
| `JsonText.TextOneLine` | internal/enginewire/jsoncheck.go:133-190 | No text of a valid tree holds a line break |
| `StrictJsonParser.ValidateJson` | internal/enginewire/jsoncheck.go:17-37 | The validator's result, and that it is acceptance exactly for UTF-8 texts of the grammar |
| `StrictJsonParser.Parser.ParseJsonValue` | internal/enginewire/jsoncheck.go:45-66 | The object reads what the functions read; its position only moves forward, strictly on success |
| `StrictJsonParser.Parser.ParseObject` | internal/enginewire/jsoncheck.go:68-107 | Likewise for objects, with the keys seen in a set that grows |
| `StrictJsonParser.Parser.ParseMemberKey` | internal/enginewire/jsoncheck.go:79-94 | Likewise for a member's key: the key added to the set is the decoded one, and a key seen before is a duplicate |
| `StrictJsonParser.Parser.ParseArray` | internal/enginewire/jsoncheck.go:109-131 | Likewise for arrays |
| `StrictJsonParser.Parser.ParseStringLiteral` | internal/enginewire/jsoncheck.go:133-190 | Likewise for string literals, moving a rune at a time; the decoded string is returned |
| `StrictJsonParser.Parser.ParseEscapeSequence` | internal/enginewire/jsoncheck.go:146-179 | Likewise for escapes and surrogate pairs |
| `StrictJsonParser.Parser.ParseHexCodeUnit` | internal/enginewire/jsoncheck.go:192-213 | Likewise for four hexadecimal digits, with their value |
| `StrictJsonParser.Parser.ParseNumeral` | internal/enginewire/jsoncheck.go:223-264 | Likewise for numbers |
| `StrictJsonParser.Parser.ParseWord` | internal/enginewire/jsoncheck.go:215-221 | Likewise for literals |
| `StrictJsonParser.Parser.SkipWhitespace` | internal/enginewire/jsoncheck.go:266-270 | Moves past the leading spaces and tabs and no further |
| `StrictJsonParser.Parser.Consume` | internal/enginewire/jsoncheck.go:272-278 | Moves past the byte exactly when it is next |
| `StrictJsonParser.RuneIsRaw` | internal/enginewire/jsoncheck.go:184-187 | Moving over a rune skips nothing a string treats specially |
| `Framing.FrameReader.ReadFrameLimit` | internal/enginewire/framing.go:43-70 | However the bytes arrive, the reading is that of splitting at LF, stripping one CR and checking length and CR; behind a frame reading goes on after its line |
| `Framing.FrameReader.ReadFrame` | internal/enginewire/framing.go:32-37 | The same under the reader's own limit |
| `Framing.FrameReader.constructor` | internal/enginewire/framing.go:20-29 | A limit that is not positive becomes the v1 frame limit; nothing is read yet |
| `Framing.FrameReader.ReadSlice` | internal/enginewire/framing.go:52 | A fragment up to and with the first LF, a full buffer, or all that was left; nothing is lost or reordered |
| `Framing.FinishedLine` | internal/enginewire/framing.go:72-87 | Finishing a complete line gives the verdict on the stream it heads |
| `Framing.TooLongToFit` | internal/enginewire/framing.go:53-55 | Giving up past limit + 2 bytes agrees with the verdict on the whole line |
| `Framing.WriteBounded` | internal/enginewire/codec.go:186-209 | A frame is written, as its text and a LF after all that was there, exactly when the codec takes it and no write goes wrong; otherwise the error is that of the codec, with nothing written, or of the first write that miscounted, failed or took nothing, with a part written |
| `Framing.MarshalBounded` | internal/enginewire/codec.go:166-184 | A frame is marshaled exactly when its fields validate, it has a text, the text is within the limit and the validator accepts it, and then as just this text; it is too large exactly when a valid frame's text is longer |
| `Framing.WrittenFramesAreReadBack` | internal/enginewire/framing.go:43-87 | Any list of frames the codec can write, each under a nesting limit of its own, is read back byte for byte under any sufficient limits, whatever follows |
| `Framing.Transfer` | internal/enginewire/codec.go:186-209 | Frames written one after the other through a writer that may write short or fail, and read from a stream cut anywhere, come back as they were: all of them up to the first that the codec does not take, unless a write goes wrong |
| `Framing.WriteAll` | internal/enginewire/codec.go:186-209 | Writing stops only at a frame the codec does not take or a write that goes wrong; the lines of the frames before it are all in the sink, in order |
| `Framing.ReadAll` | internal/enginewire/framing.go:43-87 | Successive reads give the verdicts on the successive lines, up to the first that is not a frame |
| `SafeInteger.ParseSafeIntegerLexeme` | internal/enginewire/types.go:137-186 | Any valid lexeme is read as the value of its digits under the clipped exponent |
| `SafeInteger.NumbersPassTheTest` | internal/enginewire/value.go:233-236 | The test of number syntax, which embeds the lexeme in an object, passes every number lexeme |
| `SafeInteger.UnmarshalSafeInteger` | internal/enginewire/types.go:115-135 | An integer is read from a JSON value exactly when it is a number, by the reading of its lexeme |
| `SafeInteger.ParseBoundedExponent` | internal/enginewire/types.go:188-204 | The exponent as written, or 1001 with its sign from magnitude 10010 on |
| `SafeInteger.ReadShifted` | internal/enginewire/types.go:161-185 | Moving the digits gives the integer exactly when it is one and safe |
| `SafeInteger.FewDigitsReadExactly` | internal/enginewire/types.go:137-204 | Up to 986 digits an integer is returned exactly when it is the lexeme's value and at most 2^53 - 1 |
| `SafeInteger.ReadsExactlyIff` | internal/enginewire/types.go:137-204 | That holds if and only if the exponent is not clipped, the number is zero or negative, or neither the written nor the clipped exponent brings the digits into the safe range |
| `SafeInteger.ClippedNegativeExponentIsMisread` | internal/enginewire/types.go:188-204 | A 1 with 1001 zeros and exponent -10010 is read as 1 although its value is no integer |
| `SafeInteger.BoundIsSharp` | internal/enginewire/types.go:188-204 | A lexeme of 987 digits is misread, so 986 is the best bound |
| `CanonicalNumbers.SameTextIffSameValue` | internal/diff/diff.go:1679-1721 | Two lexemes have one canonical text exactly when their rational values are equal |
| `CanonicalNumbers.CanonicalKeepsValue` | internal/diff/diff.go:1679-1721 | The canonical text is a number lexeme of the same value |
| `CanonicalNumbers.CanonicalIsIdempotent` | internal/diff/diff.go:1679-1721 | A canonical text is its own canonical text |
| `CanonicalNumbers.SameValueIsEquivalence` | internal/diff/diff.go:1679-1721 | Having one rational value is an equivalence of lexemes |
| `CanonicalNumbers.CanonicalNumber` | internal/diff/diff.go:1679-1721 | The string operations yield that text for every lexeme that passes the range gate, and an error otherwise |
| `IdentityNumbers.IdentityIsTheValue` | internal/diff/diff.go:1421-1479 | An identity text has the value of the key, and two keys have one identity exactly when their values are equal, across plain and scientific spellings |
| `IdentityNumbers.PlainIdentities` | internal/diff/diff.go:1421-1479 | A plain decimal spelling without zeros to trim identifies itself exactly while it has at most 8192 characters, a point after other digits than a zero not counted unless there is a sign; a longer one is identified by the scientific spelling |
| `IdentityNumbers.CanonicalIdentityNumber` | internal/diff/diff.go:1421-1479 | The string operations on the canonical text yield that identity |
| `IdentityNumbers.PlainText` | internal/diff/diff.go:1442-1472 | The plain spelling of digits at an exponent, or none when it would exceed 8192 bytes |
| `IdentityNumbers.PlainKeepsForm` | internal/diff/diff.go:1442-1472 | The plain spelling is a number lexeme of the same value |
| `JsonTree.EqualIffSameCanonical` | internal/diff/diff.go:1610-1638 | Values compare as equal exactly when the first has a canonical form and it is that of the second |
| `JsonTree.EqualityIsEquivalence` | internal/diff/diff.go:1772-1810 | Equality is symmetric and transitive, and reflexive exactly on values with a canonical form |
| `JsonTree.EqualIffSameJson` | internal/diff/diff.go:1772-1810 | Values compare as equal exactly when all their numbers are valid and pass the range gate and they are the same JSON value: numbers by rational value, arrays by place, objects by key, and nothing across kinds |
| `JsonTree.CanonicalIsSame` | internal/diff/diff.go:1610-1638 | A value has a canonical form exactly when all its numbers are valid and pass, and the form is the same JSON value |
| `JsonTree.PassingValuesEqualThemselves` | internal/diff/diff.go:1772-1810 | A value whose numbers are valid and pass equals itself and has a canonical form |
| `JsonTree.NumbersCompareByValue` | internal/diff/diff.go:1772-1781 | Numbers that pass are equal exactly when their rational values are |
| `JsonTree.CanonicalIsStable` | internal/diff/diff.go:1610-1638 | The canonical form is its own, so it equals the value it is taken of |
| `FieldDiff.DiffFields` | internal/diff/diff.go:1730-1770 | Lists, sorted, exactly the fields whose values differ, null for an absent one, with both values |
| `FieldDiff.Filtered` | internal/diff/diff.go:1556-1572 | A record without its operational fields, when they are to be ignored, and with all of them otherwise |
| `FieldDiff.FieldDiffIsAPatch` | internal/diff/diff.go:1730-1770 | Setting the changed fields turns the old record into the new one, up to equal values and absent fields |
| `FieldDiff.FieldDiffIsUnique` | internal/diff/diff.go:1730-1770 | The list is determined by the two records |
| `FieldDiff.SortedUnion` | internal/diff/diff.go:1812-1826 | Each key of either side once, in strictly ascending order |
| `Order.LessIff` | internal/diff/diff.go:1812-1826 | A key is less than another exactly when it is a proper prefix or has the smaller byte at the first difference |
| `KeyedDiff.CompareKeyed` | internal/diff/diff.go:1341-1376 | Succeeds exactly when every record has an identity of its own, and then lists what was added, removed and changed |
| `KeyedDiff.CompareRecords` | internal/diff/diff.go:1354-1375 | Added, removed and changed keys, each sorted, are those of one side only and those whose records differ, with the records and the field changes |
| `KeyedDiff.KeyRecords` | internal/diff/diff.go:1378-1402 | Keys every record by its identity, or refuses a missing, empty or repeated one |
| `KeyedDiff.KeyedDiffIsAPatch` | internal/diff/diff.go:1341-1402 | Dropping the removed, setting the changed fields and adding the added turns the old keyed dump into the new one, up to equal values and absent fields |
| `KeyedDiff.KeyedDiffIsUnique` | internal/diff/diff.go:1341-1402 | The diff is determined by the two keyed dumps |
| `KeyedDiff.KeySetsAreDisjoint` | internal/diff/diff.go:1357-1374 | No key is in two of the lists |
| `KeyedDiff.EmptyIffSame` | internal/diff/diff.go:1341-1402 | Nothing is listed exactly when the dumps have the same keys and agree in every field |
| `KeyedDiff.SwappingSwaps` | internal/diff/diff.go:1341-1402 | Swapping the dumps swaps added with removed and old with new values |
| `KeyedDiff.AbsentIsNullButNotInTheHash` | internal/diff/diff.go:1757-1765 | An absent and a null field compare as equal at the top of a record, while the content hash separates the records |
| `ContentDiff.CompareContentHash` | internal/diff/diff.go:1481-1519 | Succeeds exactly when every record, without its operational fields, can be hashed, and lists, sorted by hash, the surplus of either side |
| `ContentDiff.ContentDiffIsTheDifference` | internal/diff/diff.go:1481-1519 | Old hashes less the removed with the added are the new hashes as multisets, no hash is on both sides, and nothing is listed exactly when the multisets agree |
| `ContentDiff.HashListsIgnoreOrder` | internal/diff/diff.go:1828-1851 | The reported hash lists do not change when either dump is permuted |
| `ContentDiff.SameHashIffEqual` | internal/diff/diff.go:1543-1554 | Without collisions records have one hash exactly when they compare as equal |
| `ContentDiff.HashRecords` | internal/diff/diff.go:1521-1541 | Buckets the records, without their operational fields, by hash in their order, or refuses one that has no hash |
| `ContentDiff.SortRecordRefs` | internal/diff/diff.go:1844-1851 | The same references, as a multiset, in the order of their hashes |
| `ForceReplace.PublishReplacing` | internal/dump/force.go:52-218 | Others may act before every operation, but not inside the private quarantine.  Then files are removed only after, in this order, the root at the target was opened and examined, the target seen to be it still, the paths exchanged and seen, the root examined again, moved to `<quarantine>/root`, seen there and examined a third time, and just the examined files of that root are removed.  With nobody else acting the target ends bound to the staged root or to the old one intact, success means the staged root, and a refusal changes nothing.  A dangerous target is refused unseen, and after the end of its context nothing is changed.  Alone, with nothing failing, it is published exactly when the target is absent, empty, or an allowed valid dump; and one failure never leaves the roll-back stuck |
| `ForceReplace.ExchangeAndClean` | internal/dump/force.go:147-217 | From the exchange on: what is cleared was exchanged, seen, examined, moved and examined again; alone, success means the staged root is bound and the old one cleared, a completed roll-back the old one bound and intact, and no other root loses files |
| `ForceReplace.LookAndCleanUp` | internal/dump/force.go:171-217 | After the exchange nothing is done unless both paths are seen exchanged; alone, what is not published was hindered |
| `ForceReplace.CleanUp` | internal/dump/force.go:177-217 | After the exchange: the old root is cleared, or the exchange taken back, and then nothing was cleared |
| `ForceReplace.RemoveReplacedRoot` | internal/dump/force.go:275-337 | The old root is cleared only at `<quarantine>/root`, moved, seen and examined there, and of just what was examined; a result that allows roll-back has cleared nothing |
| `ForceReplace.ClearQuarantined` | internal/dump/force.go:310-336 | What was moved into the quarantine is cleared when it is the old root and disposable, and moved back otherwise |
| `ForceReplace.Rollback` | internal/dump/force.go:408-433 | Exchanges back only when both paths were seen as the exchange left them, and says so only when both were then seen as expected; alone, success is the exchange and a refusal changes nothing or has exchanged |
| `ForceReplace.CheckTarget` | internal/dump/force.go:98-139 | What is established before the exchange, in order: the old root open and empty, or an owned, valid dump, the staged root open, the target still bound to the old one |
| `ForceReplace.PublishNoReplace` | internal/dump/force.go:72-75 | A plain move to a free path; an existing target is never touched, and a free one is refused only if something fails or the context has ended |
| `ForceReplace.CleanupPlan` | internal/dump/force.go:385-406 | A root may be cleared only as a valid dump, or when it still has no files; inside a private directory that is what it still holds |
| `Events.EventBridge.Accept` | internal/enginehost/events.go:56-152 | An event is refused as invalid, and changes nothing, exactly when it does not continue an orderly run; an accepted one lengthens the run, and only a closing session refuses the frame of a valid one |
| `Events.EventBridge.FinishSuccess` | internal/enginehost/events.go:154-174 | Passes exactly the good runs: one start with n, progress 1 to n in order, one completion last whose counters add up; the emitted frames are the progress and warning events in order |
| `Events.EventBridge.AdmitsWhatContinues` | internal/enginehost/events.go:56-152 | The checks on the bridge's fields let through exactly the events that continue the run |
| `Events.EventBridge.Admit` | internal/enginehost/events.go:56-152 | An event is invalid exactly when the fields do not admit it, the codec's verdict on its frame included; otherwise its frame is emitted and the fields updated as its kind asks |

## Left out

- SessionTheorems.GracefulEndClosesEveryRequest: the wait for the decoder, writer and worker goroutines after the loop (`internal/enginehost/session.go:1033-1052`) is not part of the model; the loop's own end is.
- SessionTheorems.ShutdownIsBounded: a timer is armed, fired or stopped; wall-clock durations are not modelled.
- SessionTheorems.RequestsAreAnsweredInOrder: request contents are reduced to an id and whether the capability is available; decoding the frames themselves is a parameter.
- SessionTheorems.FramesFormALifecycle: frames keep their kind, id, sequence number and outcome; their other contents are not part of the session model.
- SuccessStream.FragmentsReassemble: SHA-256 is a term that remembers its input and base64 is left at its length; chunks carry raw bytes.
- Planner.PreflightSuccess: the checks that tie the data to the request are one flag, except the diff items, which `DiffItems` models; the validity of single values is a field of the value.
- FrameTexts.WireBytesIsLength: the texts of payloads, kinds and digests are given; how the encoder comes by them is not modelled.
- DiffItems.ValidateDiffItems: an item whose kind and value disagree is an item of no known kind.
- StrictJsonValidator.AcceptsTheGrammar: error texts and byte offsets are not modelled, only the kind of a failure.
- StrictJsonParser.Parser.ParseStringLiteral: the library decoder is the function `Unquote`, applied from the opening quote to the closing one.
- Framing.FrameReader.ReadSlice: reads that return no bytes and no error are left out, and the error of a broken transport has no further detail.
- Framing.WriteBounded: the encoder's result and the field validation of a frame are parameters.
- SafeInteger.ParseSafeIntegerLexeme: number syntax is a precondition, as the only caller (`internal/enginewire/types.go:115-135`) hands over the lexemes of numbers; what the embedding test makes of other texts is not modelled.
- CanonicalNumbers.CanonicalNumber: the range gate is a parameter; native Go number kinds other than number lexemes are left out.
- JsonTree.CanonicalIsStable: asks of the gate that it lets a canonical text through with the lexeme it stands for.
- ContentDiff.SameHashIffEqual: takes the hash of a JSON value to be free of collisions; the JSON text that is hashed is not modelled.
- KeyedDiff.CompareKeyed: cancellation between records and the normalisation of native floats are left out.
- ForceReplace.PublishReplacing: permissions, ACLs, inode flags and symlinks are nondeterministic checks; a failed exchange or rename is taken to have done nothing; nobody else acts inside the quarantine, so the interval between the last validation and the clearing is not open to others.
- ForceReplace.CheckTarget: symlink and path resolution before the target is opened is left out.
- Events.EventBridge.Accept: an event carries only the fields of its kind, so the checks that other fields are unset are left out; a warning's scope check is part of its validity, and what the codec says of a frame's product, resource or failure is a field.
- Events.EventBridge.FinishSuccess: the comparison of a returned error with a failed or canceled terminal is left out, as are the conversions it needs.
- EffectCommit.RunEffectBoundary: the engine's effect is its outcome: success, an error or a panic.
- The singleton comparison of diffs (`internal/diff/diff.go:1301-1339`) is one field diff of the two records, which `FieldDiff` models.
- Field validation of DTOs, manifests, CLI parsing, configuration, credentials and rendering are not part of this model.
