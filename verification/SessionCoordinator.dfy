/**
  The coordinator in the form it has in the program: an object whose handlers update its fields,
  with the active request and the shutdown state as objects of their own.

  `Value` is the coordinator as Session sees it, and every method is proved to do to it exactly what
  the function of the same name does.  SessionLoop runs this object and carries the theorems about
  sessions over to it.
*/
module SessionCoordinator {
  import opened Wire
  import opened Session

  class ActiveRequest {
    const request: Request
    var sequence: nat
    var opCanceled: Flag
    var messageCanceled: Flag
    var outcomeCanceled: Flag
    var workerStarted: Flag
    var workerDone: Flag
    var cancelAsked: Flag
    var cancelTimer: Flag
    var effectCommitting: Flag
    var effectCommitted: Flag
    var committed: Flag
    var success: Flag
    var abandoned: Flag
    var cursor: Option<Cursor>
    var terminalWrote: Flag

    constructor (request: Request)
      ensures Value() ==
              Active(request, 1, Off, Off, Off, Off, Off, Off, Off, Off, Off, Off, Off, Off, None, Off)
    {
      this.request := request;
      sequence := 1;
      opCanceled, messageCanceled, outcomeCanceled := Off, Off, Off;
      workerStarted, workerDone, cancelAsked, cancelTimer := Off, Off, Off, Off;
      effectCommitting, effectCommitted, committed, success, abandoned := Off, Off, Off, Off, Off;
      cursor, terminalWrote := None, Off;
    }

    function Value(): Active
      reads this
    {
      Active(request, sequence, opCanceled, messageCanceled, outcomeCanceled, workerStarted, workerDone, cancelAsked,
             cancelTimer, effectCommitting, effectCommitted, committed, success, abandoned, cursor, terminalWrote)
    }

    predicate EffectInFlight()
      reads this
      ensures EffectInFlight() <==> Session.EffectInFlight(Some(Value()))
    {
      !workerDone.On? && (effectCommitting.On? || effectCommitted.On?)
    }
  }

  class ShutdownState {
    var mode: Mode
    var result: SessionError
    var kind: ProtocolKind
    var bootstrapFatal: Flag
    var fatalQueued: Flag
    var fatalWritten: Flag
    var timedOut: Flag
    var timer: Flag

    constructor (mode: Mode, result: SessionError, kind: ProtocolKind, bootstrapFatal: Flag, timedOut: Flag,
                 timer: Flag)
      ensures Value() == Shutdown(mode, result, kind, bootstrapFatal, Off, Off, timedOut, timer)
    {
      this.mode, this.result, this.kind := mode, result, kind;
      this.bootstrapFatal, fatalQueued, fatalWritten := bootstrapFatal, Off, Off;
      this.timedOut, this.timer := timedOut, timer;
    }

    function Value(): Shutdown
      reads this
    {
      Shutdown(mode, result, kind, bootstrapFatal, fatalQueued, fatalWritten, timedOut, timer)
    }
  }

  class Coordinator {
    var decoderStopped: Flag
    var writerStopped: Flag
    var readOutstanding: Flag
    var inputClosed: Flag
    var phase: Phase
    var pending: Option<Frame>
    var inflight: Option<Frame>
    var held: Option<Request>
    var heldBusy: Flag
    var active: ActiveRequest?
    var lastId: nat
    var shutdown: ShutdownState?
    var inputUnblocked: Flag
    var outputUnblocked: Flag
    ghost var overwritten: Flag

    ghost function Value(): Coord
      reads this, active, shutdown
    {
      Coord(decoderStopped, writerStopped, readOutstanding, inputClosed, phase, pending, inflight, held, heldBusy,
            if active == null then None else Some(active.Value()),
            lastId,
            if shutdown == null then None else Some(shutdown.Value()),
            inputUnblocked, outputUnblocked, overwritten)
    }

    // -------------------------------------------------------------- the guards of the select arms

    predicate TerminalQueued()
      reads this
    {
      (pending.Some? && pending.value.Terminal?) || (inflight.Some? && inflight.value.Terminal?)
    }

    predicate PendingWriteReady()
      reads this, active
      ensures PendingWriteReady() <==> Session.PendingWriteReady(Value())
    {
      pending.None? || !pending.value.Terminal? || active == null || !active.workerStarted.On? || active.workerDone.On?
    }

    predicate CanRead()
      reads this
      ensures CanRead() <==> Session.CanRead(Value())
    {
      && shutdown == null && !inputClosed.On? && !readOutstanding.On? && held.None?
      && !TerminalQueued() && (phase == Bootstrapping || phase == Serving)
    }

    predicate CanReceive()
      reads this, active, shutdown
      ensures CanReceive() <==> Session.CanReceive(Value())
    {
      && active != null && active.workerStarted.On? && !active.abandoned.On? && !active.committed.On?
      && (|| pending.None?
          || active.effectCommitting.On?
          || (shutdown != null && !shutdown.mode.Graceful? && active.effectCommitted.On?))
    }

    /** The objects this one holds are its own or new. */
    twostate predicate OwnsAfter()
      reads this
    {
      && (active == null || active == old(active) || fresh(active))
      && (shutdown == null || shutdown == old(shutdown) || fresh(shutdown))
    }

    constructor ()
      ensures Value() == INITIAL && active == null && shutdown == null
    {
      decoderStopped, writerStopped, readOutstanding, inputClosed := Off, Off, Off, Off;
      phase, pending, inflight, held, heldBusy := AwaitHello, Some(Hello), None, None, Off;
      active, lastId, shutdown := null, 0, null;
      inputUnblocked, outputUnblocked, overwritten := Off, Off, Off;
    }

    // -------------------------------------------------------------- one-slot buffers

    method Queue(f: Frame)
      modifies this
      ensures Value() == Session.Queue(old(Value()), f)
      ensures active == old(active) && shutdown == old(shutdown)
    {
      overwritten := Mark(overwritten.On? || pending.Some?);
      pending := Some(f);
    }

    method Hold(request: Request, busy: bool)
      modifies this
      ensures Value() == Session.Hold(old(Value()), request, busy)
      ensures active == old(active) && shutdown == old(shutdown)
    {
      overwritten := Mark(overwritten.On? || held.Some?);
      held, heldBusy := Some(request), Mark(busy);
    }

    /** The write arm: the pending frame goes to the writer. */
    method Submit()
      modifies this
      ensures Value() == Session.Submit(old(Value()))
      ensures active == old(active) && shutdown == old(shutdown)
    {
      overwritten := Mark(overwritten.On? || inflight.Some?);
      inflight := pending;
      pending := None;
    }

    // -------------------------------------------------------------- shutdown

    /** Installs a new shutdown state and stops listening to the client. */
    method Install(mode: Mode, result: SessionError, kind: ProtocolKind, bootstrapFatal: Flag, timedOut: Flag,
                   timer: Flag)
      modifies this
      ensures Value() == old(Value()).(
                shutdown := Some(Shutdown(mode, result, kind, bootstrapFatal, Off, Off, timedOut, timer)),
                inputClosed := On, held := None, heldBusy := Off, inputUnblocked := On)
      ensures active == old(active) && fresh(shutdown)
    {
      shutdown := new ShutdownState(mode, result, kind, bootstrapFatal, timedOut, timer);
      DropInput();
    }

    method DropInput()
      modifies this
      ensures Value() == old(Value()).(inputClosed := On, held := None, heldBusy := Off, inputUnblocked := On)
      ensures active == old(active) && shutdown == old(shutdown)
    {
      inputClosed, held, heldBusy, inputUnblocked := On, None, Off, On;
    }

    method BeginGraceful(result: SessionError)
      modifies this, active
      ensures Value() == Session.BeginGraceful(old(Value()), result)
      ensures OwnsAfter() && active == old(active)
    {
      if shutdown != null {
        return;
      }
      var inFlight := active != null && active.EffectInFlight();
      Install(Graceful, result, Unspecified, Off, Off, Mark(!inFlight));
      if active != null && !active.committed.On? && !inFlight && !active.abandoned.On? {
        active.cancelTimer := Off;
        active.cancelAsked := On;
        active.opCanceled, active.messageCanceled := On, On;
      }
    }

    method ClearOutput(unblock: bool)
      modifies this
      ensures Value() == old(Value()).(
                pending := None, outputUnblocked := if unblock then On else old(outputUnblocked))
      ensures active == old(active) && shutdown == old(shutdown)
    {
      pending := None;
      if unblock {
        outputUnblocked := On;
      }
    }

    /** Gives the active request up: every context canceled, nothing left to stream. */
    method Abandon()
      requires active != null
      modifies active
      ensures Value() == old(Value()).(active := Some(old(active.Value()).(
                abandoned := On, opCanceled := On, messageCanceled := On, outcomeCanceled := On, cursor := None)))
    {
      active.abandoned, active.opCanceled, active.messageCanceled, active.outcomeCanceled := On, On, On, On;
      active.cursor := None;
    }

    method FailActive(dropCursor: bool, isProtected: bool)
      requires isProtected <==> EffectInFlight(Value().active)
      modifies active
      ensures Value() == old(Value()).(active := Session.FailActive(old(Value()).active, dropCursor))
    {
      if active != null {
        active.cancelTimer := Off;
        active.messageCanceled := On;
        if dropCursor {
          active.cursor := None;
        }
        if !isProtected {
          active.abandoned, active.opCanceled, active.outcomeCanceled := On, On, On;
          if !active.workerStarted.On? {
            active.workerDone := On;
          }
        }
      }
    }

    /** Drops the output that waits and gives up an operation that no effect protects. */
    method DropOutput(unblock: bool, dropCursor: bool, isProtected: bool)
      requires isProtected <==> EffectInFlight(Value().active)
      modifies this, active
      ensures Value() == old(Value()).(
                pending := None, outputUnblocked := if unblock then On else old(outputUnblocked),
                active := Session.FailActive(old(Value()).active, dropCursor))
      ensures active == old(active) && shutdown == old(shutdown)
    {
      ClearOutput(unblock);
      FailActive(dropCursor, isProtected);
    }

    method BeginFatal(result: SessionError, kind: ProtocolKind)
      modifies this, active
      ensures Value() == Session.BeginFatal(old(Value()), result, kind)
      ensures OwnsAfter() && active == old(active)
    {
      if shutdown == null || shutdown.mode.Graceful? {
        GoFatal(result, kind);
      }
    }

    method GoFatal(result: SessionError, kind: ProtocolKind)
      modifies this, active
      ensures Value() == Session.GoFatal(old(Value()), result, kind)
      ensures fresh(shutdown) && active == old(active)
    {
      var isProtected := active != null && active.EffectInFlight();
      Install(Fatal, result, kind, Mark(phase != Serving), Off, Mark(!isProtected));
      DropOutput(false, true, isProtected);
    }

    method BeginTransport(result: SessionError)
      modifies this, active, shutdown
      ensures Value() == Session.BeginTransport(old(Value()), result)
      ensures OwnsAfter() && active == old(active)
    {
      if shutdown != null && shutdown.mode.Transport? {
        return;
      }
      var isProtected := active != null && active.EffectInFlight();
      if shutdown == null {
        Install(Transport, result, Unspecified, Off, Off, Mark(!isProtected));
      } else {
        shutdown.mode, shutdown.result, shutdown.timer := Transport, result, Mark(!isProtected);
        DropInput();
      }
      DropOutput(true, false, isProtected);
    }

    // -------------------------------------------------------------- sequence numbers and terminals

    method QueueNumbered(n: Numbered)
      modifies this, active
      ensures Value() == Session.QueueNumbered(old(Value()), n)
      ensures OwnsAfter() && active == old(active)
    {
      if active == null || active.sequence >= MAX_SAFE_INTEGER {
        BeginFatal(InternalFailure, Internal);
        return;
      }
      active.sequence := active.sequence + 1;
      Queue(MakeFrame(n, active.request.id, active.sequence));
    }

    method QueueNextSuccess()
      requires active != null && active.cursor.Some?
      modifies this, active
      ensures Value() == Session.QueueNextSuccess(old(Value()))
      ensures OwnsAfter() && active == old(active)
    {
      if active.sequence >= MAX_SAFE_INTEGER {
        BeginFatal(InternalFailure, Internal);
        return;
      }
      active.sequence := active.sequence + 1;
      match NextEmission(active.cursor.value)
      case Stuck => BeginFatal(InternalFailure, Internal);
      case Emitted(cursor, terminal) =>
        Queue(MakeFrame(if terminal then NumberedTerminal(Completed) else NumberedItem,
                        active.request.id, active.sequence));
        active.cursor := if terminal then None else Some(cursor);
    }

    // -------------------------------------------------------------- requests, cancels and input

    method ProcessRequest(request: Request)
      modifies this
      ensures Value() == Session.ProcessRequest(old(Value()), request)
      ensures OwnsAfter() && shutdown == old(shutdown)
    {
      if active != null {
        Queue(Rejected(request.id));
        return;
      }
      active := new ActiveRequest(request);
      Queue(Started(request.id));
    }

    /** The top of the loop; the result says whether the loop ends. */
    method FillPending() returns (finish: bool)
      modifies this, active, shutdown
      ensures Value() == Session.FillPending(old(Value()))
      ensures finish <==> ShouldFinish(Value())
      ensures OwnsAfter()
    {
      if pending.Some? {
      } else if shutdown != null && shutdown.mode.Fatal? && !shutdown.fatalQueued.On? {
        shutdown.fatalQueued := On;
        Queue(FatalError(shutdown.bootstrapFatal.On?, shutdown.kind));
      } else if shutdown == null && held.Some? && !(inflight.Some? && inflight.value.Terminal?) {
        var request, busy := held.value, heldBusy;
        held, heldBusy := None, Off;
        if busy.On? {
          Queue(Rejected(request.id));
        } else {
          ProcessRequest(request);
        }
      } else if active != null && active.success.On? && active.cursor.Some? && !active.abandoned.On? {
        QueueNextSuccess();
      }
      finish := LoopEnds();
    }

    method LoopEnds() returns (finish: bool)
      ensures finish <==> ShouldFinish(Value())
    {
      if shutdown == null {
        return false;
      }
      if shutdown.timedOut.On? {
        return true;
      }
      var workerDone := active == null || active.workerDone.On?;
      match shutdown.mode
      case Graceful => finish := active == null && pending.None? && inflight.None?;
      case Fatal => finish := workerDone && shutdown.fatalWritten.On? && pending.None? && inflight.None?;
      case Transport => finish := workerDone;
    }

    method CancelActiveOperation()
      modifies active
      ensures Value() == Session.CancelActiveOperation(old(Value()))
    {
      if active == null || active.workerDone.On? || active.cancelTimer.On? {
        return;
      }
      active.opCanceled, active.messageCanceled, active.cancelTimer := On, On, On;
    }

    method HandleCancel(id: nat)
      modifies active
      ensures Value() == Session.HandleCancel(old(Value()), id)
    {
      if active == null || active.request.id != id || active.committed.On? || active.effectCommitted.On?
         || active.abandoned.On?
      {
        return;
      }
      if active.cancelAsked.On? {
        return;
      }
      active.cancelAsked := On;
      if active.effectCommitting.On? {
        return;
      }
      CancelActiveOperation();
    }

    method HandleBootstrapFrame(frame: BootstrapParse)
      modifies this, active
      ensures Value() == Session.HandleBootstrapFrame(old(Value()), frame)
      ensures OwnsAfter() && active == old(active)
    {
      match frame
      case Initialize(supported) =>
        if supported {
          Queue(Ready);
          phase := AwaitReady;
        } else {
          BeginFatal(ProtocolFailure, UnsupportedProtocol);
        }
      case Reject => BeginFatal(ProtocolFailure, UnsupportedProtocol);
      case BootstrapOther => BeginFatal(ProtocolFailure, Violation);
      case BootstrapInvalid(tooLarge) => BeginFatal(ProtocolFailure, TooLargeOr(tooLarge));
    }

    method HandleRequest(request: Request)
      modifies this, active
      ensures Value() == Session.HandleRequest(old(Value()), request)
      ensures OwnsAfter()
    {
      if request.id <= lastId {
        BeginFatal(ProtocolFailure, Violation);
        return;
      }
      lastId := request.id;
      if pending.Some? {
        Hold(request, pending.value.Terminal?);
      } else if inflight.Some? && inflight.value.Terminal? {
        Hold(request, false);
      } else {
        ProcessRequest(request);
      }
    }

    /** The decode arm. */
    method TakeDecoded(decoded: Decoded)
      modifies this, active
      ensures Value() == Session.TakeDecoded(old(Value()), decoded)
      ensures OwnsAfter()
    {
      readOutstanding := Off;
      if shutdown != null {
        return;
      }
      match decoded
      case InputEnded =>
        inputClosed := On;
        BeginGraceful(Clean);
      case InputFailed(tooLarge) => BeginFatal(ProtocolFailure, TooLargeOr(tooLarge));
      case InputFrame(bootstrap, client) =>
        match phase
        case Bootstrapping => HandleBootstrapFrame(bootstrap);
        case Serving => HandleClientFrame(client);
        case AwaitHello => BeginFatal(ProtocolFailure, Violation);
        case AwaitReady => BeginFatal(ProtocolFailure, Violation);
    }

    method HandleClientFrame(frame: ClientParse)
      modifies this, active
      ensures Value() == Session.HandleClientFrame(old(Value()), frame)
      ensures OwnsAfter()
    {
      match frame
      case Cancel(id) => HandleCancel(id);
      case NewRequest(request) => HandleRequest(request);
      case ClientOther => BeginFatal(ProtocolFailure, Violation);
      case ClientInvalid(tooLarge) => BeginFatal(ProtocolFailure, TooLargeOr(tooLarge));
    }

    // -------------------------------------------------------------- the worker

    method LaunchWorker()
      modifies active
      ensures Value() == Session.LaunchWorker(old(Value()))
    {
      if active == null || active.workerStarted.On? || active.abandoned.On? {
        return;
      }
      active.workerStarted := On;
    }

    method MarkWorkerDone()
      modifies active, shutdown
      ensures Value() == Session.MarkWorkerDone(old(Value()))
    {
      if active == null {
        return;
      }
      active.workerDone, active.cancelTimer := On, Off;
      if shutdown != null && !shutdown.timer.On? && !shutdown.timedOut.On? {
        shutdown.timer := On;
      }
    }

    method MaybeReleaseActive()
      modifies this
      ensures Value() == Session.MaybeReleaseActive(old(Value()))
      ensures OwnsAfter() && shutdown == old(shutdown)
    {
      if active == null || !active.terminalWrote.On? || !active.workerDone.On? {
        return;
      }
      active := null;
    }

    /** The operation cancel timer arm. */
    method HandleCancelTimeout(exited: bool)
      modifies this, active, shutdown
      ensures Value() == Session.HandleCancelTimeout(old(Value()), exited)
      ensures OwnsAfter()
    {
      if active == null || active.workerDone.On? || !active.cancelAsked.On? || active.effectCommitting.On?
         || active.effectCommitted.On?
      {
        return;
      }
      if exited {
        MarkWorkerDone();
        MaybeReleaseActive();
        return;
      }
      Install(Transport, Clean, Unspecified, Off, On, Off);
      ClearOutput(true);
      Abandon();
    }

    /** The shutdown timer arm. */
    method HandleShutdownTimer()
      requires shutdown != null
      modifies this, active, shutdown
      ensures Value() == Session.HandleShutdownTimer(old(Value()))
      ensures OwnsAfter()
    {
      if active != null && active.EffectInFlight() {
        shutdown.timer := Off;
        return;
      }
      shutdown.timedOut := On;
      inputUnblocked, outputUnblocked := On, On;
      if active != null {
        active.opCanceled, active.messageCanceled, active.outcomeCanceled := On, On, On;
      }
    }

    method HandleEffectBoundary(stage: Stage, applied: bool, ready: Option<Decoded>) returns (ack: Ack, consumed: bool)
      modifies this, active, shutdown
      ensures EffectReply(Value(), ack, consumed) ==
              Session.HandleEffectBoundary(old(Value()), stage, applied, ready)
      ensures OwnsAfter()
    {
      consumed := false;
      if active == null || active.abandoned.On? || active.committed.On? {
        return AckClosing, false;
      }
      match stage
      case Begin =>
        if ready.Some? {
          TakeDecoded(ready.value);
          consumed := true;
        }
        ack := AnswerBegin();
      case Finish => ack := AnswerFinish(applied);
      case UnknownStage => ack := AckInternal;
    }

    method AnswerBegin() returns (ack: Ack)
      modifies active
      ensures EffectReply(Value(), ack, false) == Session.AnswerBegin(old(Value()))
    {
      if active == null || active.abandoned.On? || active.committed.On? {
        return AckClosing;
      }
      if active.effectCommitting.On? || active.effectCommitted.On? {
        return AckInternal;
      }
      if active.cancelAsked.On? || shutdown != null {
        return AckCanceled;
      }
      active.effectCommitting := On;
      ack := Granted;
    }

    method AnswerFinish(applied: bool) returns (ack: Ack)
      requires active != null
      modifies active, shutdown
      ensures EffectReply(Value(), ack, false) == Session.AnswerFinish(old(Value()), applied)
    {
      if !active.effectCommitting.On? || active.effectCommitted.On? {
        return AckInternal;
      }
      active.effectCommitting := Off;
      if applied {
        active.effectCommitted, active.cancelAsked, active.cancelTimer := On, Off, Off;
        if shutdown != null {
          shutdown.timer := Off;
        }
        return Granted;
      }
      if shutdown != null {
        shutdown.timer := On;
        if shutdown.mode.Graceful? {
          active.cancelAsked, active.opCanceled, active.messageCanceled := On, On, On;
          return AckCanceled;
        }
        Abandon();
        return AckClosing;
      }
      if active.cancelAsked.On? {
        CancelActiveOperation();
        return AckCanceled;
      }
      ack := Granted;
    }

    method HandleOutcome(frameCount: Option<nat>, canceled: bool, failed: bool)
      requires active != null
      modifies this, active
      ensures Value() == Session.HandleOutcome(old(Value()), frameCount, canceled, failed)
      ensures OwnsAfter() && active == old(active)
    {
      if active.cancelAsked.On? {
        active.committed := On;
        QueueNumbered(NumberedTerminal(Canceled(true)));
        return;
      }
      if frameCount.Some? {
        if canceled || failed {
          BeginFatal(InternalFailure, Internal);
          return;
        }
        if active.sequence > MAX_SAFE_INTEGER - frameCount.value {
          active.committed := On;
          QueueNumbered(NumberedTerminal(Failed));
          return;
        }
        active.committed, active.success, active.cursor := On, On, Some(Cursor(frameCount.value, 0));
        return;
      }
      active.committed := On;
      if canceled {
        QueueNumbered(NumberedTerminal(Canceled(false)));
      } else if !failed {
        BeginFatal(InternalFailure, Internal);
      } else {
        QueueNumbered(NumberedTerminal(Failed));
      }
    }

    /** The worker-message arm. */
    method HandleWorkerMessage(message: Message, ready: Option<Decoded>) returns (ack: Ack, consumed: bool)
      modifies this, active, shutdown
      ensures EffectReply(Value(), ack, consumed) == Session.HandleWorkerMessage(old(Value()), message, ready)
      ensures OwnsAfter()
    {
      if message.EffectMessage? {
        ack, consumed := HandleEffectBoundary(message.stage, message.applied, ready);
      } else {
        HandlePlainMessage(message);
        ack, consumed := Granted, false;
      }
    }

    method HandlePlainMessage(message: Message)
      modifies this, active
      ensures Value() == Session.HandlePlainMessage(old(Value()), message)
      ensures OwnsAfter() && active == old(active)
    {
      if active == null || active.abandoned.On? || active.committed.On? {
        BeginFatal(InternalFailure, Internal);
      } else if shutdown != null && (active.effectCommitting.On? || active.effectCommitted.On?)
                && !shutdown.mode.Graceful?
      {
        if message.OutcomeMessage? {
          active.committed := On;
        }
      } else if message.ProvisionalMessage? {
        QueueNumbered(NumberedProvisional);
      } else if message.OutcomeMessage? {
        HandleOutcome(message.frameCount, message.canceled, message.failed);
      } else {
        BeginFatal(InternalFailure, Internal);
      }
    }

    /** The worker-done arm. */
    method HandleWorkerDone()
      modifies this, active, shutdown
      ensures Value() == Session.MaybeReleaseActive(Session.MarkWorkerDone(old(Value())))
      ensures OwnsAfter()
    {
      MarkWorkerDone();
      MaybeReleaseActive();
    }

    // -------------------------------------------------------------- the writer

    /** The acknowledgement arm. */
    method HandleWriteAck(frame: Frame, result: WriteResult)
      modifies this, active, shutdown
      ensures Value() == Session.HandleWriteAck(old(Value()), frame, result)
      ensures OwnsAfter()
    {
      if inflight.None? || !SameKind(frame, inflight.value) {
        BeginFatal(InternalFailure, Internal);
        return;
      }
      inflight := None;
      HandleResult(frame, result);
    }

    method HandleResult(frame: Frame, result: WriteResult)
      modifies this, active, shutdown
      ensures Value() == Session.HandleResult(old(Value()), frame, result)
      ensures OwnsAfter()
    {
      match result
      case CodecRejected => BeginFatal(InternalFailure, Internal);
      case Broken => BeginTransport(TransportFailure);
      case Written => HandleWritten(frame);
    }

    method HandleWritten(frame: Frame)
      modifies this, active, shutdown
      ensures Value() == Session.HandleWritten(old(Value()), frame)
      ensures OwnsAfter()
    {
      if frame.Hello? {
        phase := Bootstrapping;
      } else if frame.Ready? {
        phase := Serving;
      } else if frame.Started? {
        if shutdown == null || shutdown.mode.Graceful? {
          LaunchWorker();
        }
      } else if frame.Terminal? {
        if active == null {
          BeginFatal(InternalFailure, Internal);
          return;
        }
        active.terminalWrote := On;
        MaybeReleaseActive();
      } else if frame.FatalError? {
        if shutdown == null || !shutdown.mode.Fatal? {
          BeginTransport(TransportFailure);
          return;
        }
        shutdown.fatalWritten := On;
      }
    }

    /** The writer-done arm. */
    method HandleWriterStopped()
      modifies this, active, shutdown
      ensures Value() == Session.HandleWriterStopped(old(Value()))
      ensures OwnsAfter()
    {
      writerStopped := On;
      if shutdown == null && inflight.None? {
        BeginTransport(TransportFailure);
      }
    }
  }
}
