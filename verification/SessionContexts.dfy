/**
  What is canceled, unblocked and timed, and when: exact conditions in every reachable state.
*/
module SessionContexts {
  import opened Wire
  import opened Session
  import opened SessionSystem
  import opened SessionControl
  import opened SessionTheorems

  /** Input is closed and its reader unblocked exactly under a shutdown, output exactly when nothing can be written
      any more or the time is up; only a held request is marked busy; the shutdown timer runs exactly while no effect
      is in flight. */
  predicate StreamsFit(c: Coord) {
    && (c.inputClosed.On? <==> c.shutdown.Some?)
    && (c.inputUnblocked.On? <==> c.shutdown.Some?)
    && (c.outputUnblocked.On? <==> IsTransport(c.shutdown) || TimedOut(c.shutdown))
    && (c.heldBusy.On? ==> c.held.Some?)
    && (c.shutdown.Some? && !TimedOut(c.shutdown) ==> (c.shutdown.value.timer.On? <==> !EffectInFlight(c.active)))
  }

  /** The contexts of the active request.  Its operation is canceled by a cancel that is not deferred, or with the
      request; its messages with its operation or when they are of no use; its outcome only with the request or when
      the time is up.  A shutdown stops the timer of a cancel, unless the outcome is there. */
  predicate ContextsFit(shutdown: Option<Shutdown>, a: Active) {
    && (a.opCanceled.On? <==>
          || TimedOut(shutdown)
          || if Failing(shutdown) then a.abandoned.On? else a.cancelAsked.On? && !a.effectCommitting.On?)
    && (a.messageCanceled.On? <==> a.opCanceled.On? || Failing(shutdown))
    && (a.outcomeCanceled.On? <==> a.abandoned.On? || TimedOut(shutdown))
    && (a.cancelTimer.On? && !TimedOut(shutdown) ==> shutdown.None? || (a.committed.On? && !Failing(shutdown)))
  }

  predicate Fit(c: Coord) { StreamsFit(c) && (c.active.Some? ==> ContextsFit(c.shutdown, c.active.value)) }

  lemma GracefulFits(m: Machine, result: SessionError)
    requires Control(m) && Fit(m.c)
    ensures Fit(BeginGraceful(m.c, result))
  {}

  lemma FatalFits(m: Machine, result: SessionError, kind: ProtocolKind)
    requires Core(m) && Fit(m.c) && !TimedOut(m.c.shutdown)
    ensures Fit(BeginFatal(m.c, result, kind))
  {
    if !Failing(m.c.shutdown) {
      GoFatalFits(m, result, kind);
    }
  }

  lemma GoFatalFits(m: Machine, result: SessionError, kind: ProtocolKind)
    requires Core(m) && Fit(m.c) && !Failing(m.c.shutdown) && !TimedOut(m.c.shutdown)
    ensures Fit(GoFatal(m.c, result, kind))
  {}

  lemma TransportFits(m: Machine, result: SessionError)
    requires Core(m) && Fit(m.c) && !TimedOut(m.c.shutdown)
    ensures Fit(BeginTransport(m.c, result))
  {}

  lemma CancelFits(m: Machine, id: nat)
    requires Control(m) && Fit(m.c) && m.c.shutdown.None?
    ensures Fit(HandleCancel(m.c, id))
  {}

  lemma RequestFits(m: Machine, request: Request)
    requires Control(m) && Fit(m.c) && m.c.shutdown.None?
    ensures Fit(HandleRequest(m.c, request))
  {
    FatalFits(m, ProtocolFailure, Violation);
  }

  lemma NumberedFits(m: Machine, n: Numbered)
    requires Core(m) && Fit(m.c) && !TimedOut(m.c.shutdown)
    ensures Fit(QueueNumbered(m.c, n))
  {
    FatalFits(m, InternalFailure, Internal);
  }

  lemma BootstrapFits(m: Machine, frame: BootstrapParse)
    requires Control(m) && Fit(m.c) && m.c.shutdown.None?
    ensures Fit(HandleBootstrapFrame(m.c, frame))
  {
    FatalFits(m, ProtocolFailure, Violation);
    FatalFits(m, ProtocolFailure, FrameTooLarge);
    FatalFits(m, ProtocolFailure, UnsupportedProtocol);
  }

  lemma ClientFits(m: Machine, frame: ClientParse)
    requires Control(m) && Fit(m.c) && m.c.shutdown.None?
    ensures Fit(HandleClientFrame(m.c, frame))
  {
    match frame
    case Cancel(id) => CancelFits(m, id);
    case NewRequest(request) => RequestFits(m, request);
    case ClientOther => FatalFits(m, ProtocolFailure, Violation);
    case ClientInvalid(tooLarge) => FatalFits(m, ProtocolFailure, TooLargeOr(tooLarge));
  }

  lemma DecodedFits(m: Machine)
    requires Control(m) && Fit(m.c) && m.decoded.Some?
    ensures Fit(TakeDecoded(m.c, m.decoded.value))
  {
    var n := m.(decoded := None, c := m.c.(readOutstanding := Off));
    assert Control(n) && Fit(n.c);
    if n.c.shutdown.None? {
      match m.decoded.value
      case InputEnded => EndFits(n);
      case InputFailed(tooLarge) => FatalFits(n, ProtocolFailure, TooLargeOr(tooLarge));
      case InputFrame(bootstrap, client) =>
        FatalFits(n, ProtocolFailure, Violation);
        BootstrapFits(n, bootstrap);
        ClientFits(n, client);
    }
  }

  /** The end of the input closes it and begins the shutdown at once. */
  lemma EndFits(m: Machine)
    requires Control(m) && Fit(m.c) && m.c.shutdown.None?
    ensures Fit(BeginGraceful(m.c.(inputClosed := On), Clean))
  {
    GracefulFits(m, Clean);
    assert BeginGraceful(m.c.(inputClosed := On), Clean) == BeginGraceful(m.c, Clean);
  }

  // ---------------------------------------------------------------- the arms

  lemma MessageFits(m: Machine, message: Message)
    requires Inv(m) && Fit(m.c) && Enabled(m, ReceiveMessage(message))
    ensures Fit(HandleWorkerMessage(m.c, message, m.decoded).coord)
  {
    if message.OutcomeMessage? {
      OutcomeFits(m, message);
    } else if message.ProvisionalMessage? {
      NumberedFits(m, NumberedProvisional);
    } else if message.stage.Begin? {
      BeginFits(m);
    } else {
      FinishFits(m, message.applied);
    }
  }

  lemma OutcomeFits(m: Machine, message: Message)
    requires Inv(m) && Fit(m.c) && Enabled(m, ReceiveMessage(message)) && message.OutcomeMessage?
    ensures Fit(HandleWorkerMessage(m.c, message, m.decoded).coord)
  {
    if !Failing(m.c.shutdown) {
      HandledOutcomeFits(m, message);
    }
  }

  lemma HandledOutcomeFits(m: Machine, message: Message)
    requires Inv(m) && Fit(m.c) && Enabled(m, ReceiveMessage(message)) && message.OutcomeMessage?
    requires !Failing(m.c.shutdown)
    ensures Fit(HandleOutcome(m.c, message.frameCount, message.canceled, message.failed))
  {
    CommittedCore(m);
    var a := m.c.active.value;
    if a.cancelAsked.On? {
      TerminalFits(m, Canceled(true));
    } else if message.frameCount.None? || a.sequence > MAX_SAFE_INTEGER - message.frameCount.value {
      TerminalFits(m, if message.frameCount.None? && message.canceled then Canceled(false) else Failed);
    }
  }

  lemma TerminalFits(m: Machine, outcome: Outcome)
    requires Inv(m) && Fit(m.c) && m.c.active.Some? && Core(Committed(m)) && !TimedOut(m.c.shutdown)
    ensures Fit(QueueNumbered(Committed(m).c, NumberedTerminal(outcome)))
  {
    NumberedFits(Committed(m), NumberedTerminal(outcome));
  }

  lemma BeginFits(m: Machine)
    requires Inv(m) && Fit(m.c) && Enabled(m, ReceiveMessage(EffectMessage(Begin, false)))
    ensures Fit(HandleWorkerMessage(m.c, EffectMessage(Begin, false), m.decoded).coord)
  {
    if m.decoded.Some? {
      DecodedFits(m);
    }
    GrantFits(if m.decoded.Some? then TakeDecoded(m.c, m.decoded.value) else m.c);
  }

  lemma GrantFits(c: Coord)
    requires Fit(c)
    ensures Fit(AnswerBegin(c).coord)
  {}

  lemma FinishFits(m: Machine, applied: bool)
    requires Inv(m) && Fit(m.c) && Enabled(m, ReceiveMessage(EffectMessage(Finish, applied)))
    ensures Fit(AnswerFinish(m.c, applied).coord)
  {}

  lemma AckFits(m: Machine)
    requires Inv(m) && Fit(m.c) && Enabled(m, ReceiveAck)
    ensures Fit(Select(m, ReceiveAck).c)
  {
    match m.acks.value.result
    case Broken => TransportFits(m, TransportFailure);
    case CodecRejected =>
      AcknowledgedCore(m);
      FatalFits(Acknowledged(m), InternalFailure, Internal);
    case Written =>
      if m.acks.value.frame.Terminal? {
        TerminalWrittenKeeps(m);
      }
  }

  lemma WorkerDoneFits(m: Machine)
    requires Inv(m) && Fit(m.c) && Enabled(m, SeeWorkerDone)
    ensures Fit(Select(m, SeeWorkerDone).c)
  {
    WorkerDoneFlags(m.c, m.worker);
  }

  lemma TimersFit(m: Machine, step: Step)
    requires Inv(m) && Fit(m.c) && Enabled(m, step) && (step.SeeCancelTimer? || step.SeeShutdownTimer?)
    ensures Fit(Select(m, step).c)
  {}

  lemma SignalFits(m: Machine, step: Step)
    requires Inv(m) && Fit(m.c) && Enabled(m, step)
    requires step.SendFrame? || step.GrantRead? || step.SeeDecoderDone? || step.SeeWriterDone?
             || step.SeeExternalCancel?
    ensures Fit(Select(m, step).c)
  {
    if step.SeeExternalCancel? {
      GracefulFits(m, Interrupted);
    } else if step.SeeWriterDone? {
      TransportFits(m, TransportFailure);
    }
  }

  lemma LoopTopFits(m: Machine)
    requires Control(m) && Fit(m.c)
    ensures Fit(FillPending(m.c))
  {
    var c := m.c;
    if c.pending.Some? || (IsFatal(c.shutdown) && !c.shutdown.value.fatalQueued.On?) {
    } else if c.shutdown.None? && c.held.Some? && !TerminalWriteInFlight(c) {
      ProcessFits(c.(held := None, heldBusy := Off), c.held.value);
    } else if c.active.Some? && c.active.value.success.On? && c.active.value.cursor.Some?
              && !c.active.value.abandoned.On?
    {
      NextSuccessFits(c);
    }
  }

  lemma ProcessFits(c: Coord, request: Request)
    requires Fit(c) && c.shutdown.None?
    ensures Fit(ProcessRequest(c, request))
  {}

  lemma NextSuccessFits(c: Coord)
    requires Fit(c) && c.active.Some? && c.active.value.cursor.Some? && CursorInv(c.active.value)
    ensures Fit(QueueNextSuccess(c))
  {}

  lemma StepFits(m: Machine, step: Step)
    requires Inv(m) && Fit(m.c) && Enabled(m, step)
    ensures Fit(Move(m, step).c)
  {
    if !IsEnvironment(step) {
      ArmFits(m, step);
      SelectKeeps(m, step);
      LoopTopFits(Select(m, step));
    }
  }

  lemma ArmFits(m: Machine, step: Step)
    requires Inv(m) && Fit(m.c) && Enabled(m, step) && !IsEnvironment(step)
    ensures Fit(Select(m, step).c)
  {
    if step.ReceiveDecoded? {
      DecodedFits(m);
    } else if step.ReceiveMessage? {
      MessageFits(m, step.message);
    } else if step.ReceiveAck? {
      AckFits(m);
    } else if step.SeeWorkerDone? {
      WorkerDoneFits(m);
    } else if step.SeeCancelTimer? || step.SeeShutdownTimer? {
      TimersFit(m, step);
    } else {
      SignalFits(m, step);
    }
  }

  lemma {:induction false} RunFits(s: System, steps: seq<Step>)
    requires Inv(s.m) && Fit(s.m.c) && IsRun(s, steps)
    ensures Fit(After(s, steps).m.c)
    decreases |steps|
  {
    if steps != [] {
      MoveKeeps(s.m, steps[0]);
      StepFits(s.m, steps[0]);
      RunFits(Apply(s, steps[0]), steps[1..]);
    }
  }

  /** In every reachable state the streams are closed and unblocked, the shutdown timer runs and the contexts of the
      active request are canceled exactly when they should be. */
  lemma ContextsFollowTheSession(s: System)
    requires Reachable(s)
    ensures Fit(s.m.c)
  {
    var steps :| IsRun(START, steps) && After(START, steps) == s;
    StartKeeps();
    assert START.m.c == INITIAL;
    RunFits(START, steps);
  }
}
