/**
  Why a session shuts down, and with which error.

  A run is followed by a record of its own: the worst trouble that its steps have met, the first of
  its kind, and the offence that a fatal frame has to name.
*/
module SessionEnding {
  import opened Wire
  import opened Session
  import opened SessionSystem
  import opened SessionControl
  import opened SessionTheorems
  import opened SessionAnswers

  datatype Trouble = Trouble(mode: Mode, result: SessionError, kind: ProtocolKind)

  /** What a fatal frame names, and whether it is one of the bootstrap protocol. */
  datatype Offence = Offence(kind: ProtocolKind, bootstrap: bool)

  datatype Ending = Ending(worst: Option<Trouble>, offence: Option<Offence>, late: bool)

  function Rank(mode: Mode): nat {
    match mode
    case Graceful => 0
    case Fatal => 1
    case Transport => 2
  }

  function Protocol(kind: ProtocolKind): Option<Trouble> { Some(Trouble(Fatal, ProtocolFailure, kind)) }

  const INTERNAL: Option<Trouble> := Some(Trouble(Fatal, InternalFailure, Internal))

  function SizeOr(tooLarge: bool): ProtocolKind { if tooLarge then FrameTooLarge else Violation }

  /** What is wrong with the input: its end is the only trouble that is not the client's fault. */
  function InputTrouble(phase: Phase, lastId: nat, decoded: Decoded): Option<Trouble> {
    match decoded
    case InputEnded => Some(Trouble(Graceful, Clean, Unspecified))
    case InputFailed(tooLarge) => Protocol(SizeOr(tooLarge))
    case InputFrame(bootstrap, client) =>
      match phase
      case AwaitHello => Protocol(Violation)
      case AwaitReady => Protocol(Violation)
      case Bootstrapping =>
        (match bootstrap
         case Initialize(supported) => if supported then None else Protocol(UnsupportedProtocol)
         case Reject => Protocol(UnsupportedProtocol)
         case BootstrapOther => Protocol(Violation)
         case BootstrapInvalid(tooLarge) => Protocol(SizeOr(tooLarge)))
      case Serving =>
        match client
        case Cancel(_) => None
        case NewRequest(request) => if request.id > lastId then None else Protocol(Violation)
        case ClientOther => Protocol(Violation)
        case ClientInvalid(tooLarge) => Protocol(SizeOr(tooLarge))
  }

  /** A message that asks for one more numbered frame at once. */
  predicate NeedsNumber(a: Active, message: Message) {
    || message.ProvisionalMessage?
    || (message.OutcomeMessage?
        && !(!a.cancelAsked.On? && message.frameCount.Some?
             && a.sequence + message.frameCount.value <= MAX_SAFE_INTEGER))
  }

  /** The trouble that a step meets. */
  function Met(m: Machine, step: Step): Option<Trouble>
    requires Enabled(m, step)
  {
    if TakesDecoded(m, step) && m.decoded.Some? then
      if m.c.shutdown.None? then InputTrouble(m.c.phase, m.c.lastId, m.decoded.value) else None
    else
      match step
      case ReceiveAck =>
        (match m.acks.value.result
         case Written => None
         case CodecRejected => INTERNAL
         case Broken => Some(Trouble(Transport, TransportFailure, Unspecified)))
      case ReceiveMessage(message) =>
        var a := m.c.active.value;
        if NeedsNumber(a, message) && a.sequence == MAX_SAFE_INTEGER && !Failing(m.c.shutdown) then INTERNAL else None
      case SeeWriterDone =>
        if m.c.inflight.None? then Some(Trouble(Transport, TransportFailure, Unspecified)) else None
      case SeeExternalCancel => Some(Trouble(Graceful, Interrupted, Unspecified))
      case SeeCancelTimer => if m.worker.Exited? then None else Some(Trouble(Transport, Clean, Unspecified))
      case _ => None
  }

  /** Trouble counts when it is worse than what there was. */
  function Weigh(e: Ending, met: Option<Trouble>, bootstrap: bool): Ending {
    if met.None? || (e.worst.Some? && Rank(e.worst.value.mode) >= Rank(met.value.mode)) then e
    else
      e.(worst := met, offence := if met.value.mode.Fatal? then Some(Offence(met.value.kind, bootstrap)) else e.offence)
  }

  /** A timer ran out: that of a cancel, or that of the shutdown with no effect in flight. */
  predicate RunsOut(m: Machine, step: Step)
    requires Enabled(m, step)
  {
    (step.SeeCancelTimer? && !m.worker.Exited?) || (step.SeeShutdownTimer? && !EffectInFlight(m.c.active))
  }

  /** The record with one more step: the first of the worst trouble, its offence, and whether a timer ran out. */
  function Judged(e: Ending, m: Machine, step: Step): Ending
    requires Enabled(m, step)
  {
    Weigh(e, Met(m, step), !m.c.phase.Serving?).(late := e.late || RunsOut(m, step))
  }

  function EndingAfter(s: System, steps: seq<Step>, e: Ending): Ending
    requires IsRun(s, steps)
    decreases |steps|
  {
    if steps == [] then e else EndingAfter(Apply(s, steps[0]), steps[1..], Judged(e, s.m, steps[0]))
  }

  // ---------------------------------------------------------------- the invariant

  predicate NamesOffence(f: Frame, offence: Option<Offence>) {
    f.FatalError? ==> offence == Some(Offence(f.kind, f.bootstrap))
  }

  predicate SlotNames(slot: Option<Frame>, offence: Option<Offence>) {
    slot.Some? ==> NamesOffence(slot.value, offence)
  }

  /** The shutdown is the one that the worst trouble asks for. */
  predicate ShutdownFits(shutdown: Option<Shutdown>, e: Ending) {
    && (shutdown.None? <==> e.worst.None?)
    && (shutdown.Some? ==>
          && shutdown.value.mode == e.worst.value.mode && shutdown.value.result == e.worst.value.result
          && (shutdown.value.timedOut.On? <==> e.late)
          && (shutdown.value.mode.Fatal? ==>
                e.offence == Some(Offence(shutdown.value.kind, shutdown.value.bootstrapFatal.On?))))
    && (shutdown.None? ==> !e.late)
    && (!Failing(shutdown) ==> e.offence.None?)
  }

  predicate CoordEnds(c: Coord, e: Ending) { ShutdownFits(c.shutdown, e) && SlotNames(c.pending, e.offence) }

  predicate SameEnding(c: Coord, d: Coord) {
    && (c.shutdown.None? ==> d.shutdown.None?)
    && (c.shutdown.Some? ==>
          && d.shutdown.Some? && d.shutdown.value.mode == c.shutdown.value.mode
          && d.shutdown.value.result == c.shutdown.value.result && d.shutdown.value.kind == c.shutdown.value.kind
          && d.shutdown.value.bootstrapFatal == c.shutdown.value.bootstrapFatal
          && d.shutdown.value.timedOut == c.shutdown.value.timedOut)
    && (d.pending.Some? && d.pending.value.FatalError? ==> d.pending == c.pending)
  }

  lemma SameEnds(c: Coord, d: Coord, e: Ending)
    requires CoordEnds(c, e) && SameEnding(c, d)
    ensures CoordEnds(d, e)
  {}

  /** A shutdown that one trouble asks for, on top of the trouble so far. */
  predicate Takes(c: Coord, d: Coord, met: Trouble) {
    if c.shutdown.Some? && Rank(c.shutdown.value.mode) >= Rank(met.mode) then SameEnding(c, d)
    else
      && d.shutdown.Some? && d.shutdown.value.mode == met.mode && d.shutdown.value.result == met.result
      && (met.mode.Fatal? ==>
            && d.shutdown.value.kind == met.kind && (d.shutdown.value.bootstrapFatal.On? <==> !c.phase.Serving?))
      && (d.pending.Some? ==> d.pending == c.pending)
  }

  lemma GracefulTakes(c: Coord, result: SessionError)
    ensures Takes(c, BeginGraceful(c, result), Trouble(Graceful, result, Unspecified))
    ensures c.shutdown.None? ==> !BeginGraceful(c, result).shutdown.value.timedOut.On?
  {}

  lemma FatalTakes(c: Coord, result: SessionError, kind: ProtocolKind)
    ensures Takes(c, BeginFatal(c, result, kind), Trouble(Fatal, result, kind))
    ensures !Failing(c.shutdown) ==> !BeginFatal(c, result, kind).shutdown.value.timedOut.On?
  {}

  lemma TransportTakes(c: Coord, result: SessionError)
    ensures Takes(c, BeginTransport(c, result), Trouble(Transport, result, Unspecified))
    ensures c.shutdown.None? ==> !BeginTransport(c, result).shutdown.value.timedOut.On?
    ensures c.shutdown.Some? ==> BeginTransport(c, result).shutdown.value.timedOut == c.shutdown.value.timedOut
  {}

  lemma TakesEnds(c: Coord, d: Coord, met: Trouble, e: Ending)
    requires CoordEnds(c, e) && Takes(c, d, met) && !e.late
    requires d.shutdown.Some? ==> !d.shutdown.value.timedOut.On?
    ensures CoordEnds(d, Weigh(e, Some(met), !c.phase.Serving?))
  {}

  // ---------------------------------------------------------------- input

  /** The handling of a decoded frame takes the trouble that the frame is. */
  predicate TakesInput(c: Coord, d: Coord, met: Option<Trouble>) {
    if met.None? then SameEnding(c, d) else Takes(c, d, met.value) && !d.shutdown.value.timedOut.On?
  }

  lemma RequestTakes(c: Coord, request: Request)
    requires c.shutdown.None?
    ensures TakesInput(c, HandleRequest(c, request), if request.id > c.lastId then None else Protocol(Violation))
  {
    FatalTakes(c, ProtocolFailure, Violation);
  }

  lemma BootstrapTakes(c: Coord, bootstrap: BootstrapParse, client: ClientParse)
    requires c.shutdown.None? && c.phase.Bootstrapping?
    ensures TakesInput(c, HandleBootstrapFrame(c, bootstrap),
                       InputTrouble(c.phase, c.lastId, InputFrame(bootstrap, client)))
  {
    FatalTakes(c, ProtocolFailure, Violation);
    FatalTakes(c, ProtocolFailure, FrameTooLarge);
    FatalTakes(c, ProtocolFailure, UnsupportedProtocol);
  }

  lemma ClientTakes(c: Coord, bootstrap: BootstrapParse, client: ClientParse)
    requires c.shutdown.None? && c.phase.Serving?
    ensures TakesInput(c, HandleClientFrame(c, client), InputTrouble(c.phase, c.lastId, InputFrame(bootstrap, client)))
  {
    FatalTakes(c, ProtocolFailure, Violation);
    FatalTakes(c, ProtocolFailure, FrameTooLarge);
    if client.NewRequest? {
      RequestTakes(c, client.request);
    }
  }

  lemma InputTakes(c: Coord, decoded: Decoded)
    requires c.shutdown.None?
    ensures TakesInput(c, HandleDecoded(c, decoded), InputTrouble(c.phase, c.lastId, decoded))
  {
    match decoded
    case InputEnded => GracefulTakes(c.(inputClosed := On), Clean);
    case InputFailed(tooLarge) => FatalTakes(c, ProtocolFailure, SizeOr(tooLarge));
    case InputFrame(bootstrap, client) =>
      FatalTakes(c, ProtocolFailure, Violation);
      if c.phase.Bootstrapping? {
        BootstrapTakes(c, bootstrap, client);
      } else if c.phase.Serving? {
        ClientTakes(c, bootstrap, client);
      }
  }

  lemma DecodedEnds(c: Coord, decoded: Decoded, e: Ending)
    requires CoordEnds(c, e) && !e.late
    ensures var met := if c.shutdown.None? then InputTrouble(c.phase, c.lastId, decoded) else None;
            CoordEnds(TakeDecoded(c, decoded), Weigh(e, met, !c.phase.Serving?))
  {
    var d := c.(readOutstanding := Off);
    if c.shutdown.None? {
      InputTakes(d, decoded);
      var met := InputTrouble(c.phase, c.lastId, decoded);
      if met.Some? {
        TakesEnds(d, HandleDecoded(d, decoded), met.value, e);
      } else {
        SameEnds(d, HandleDecoded(d, decoded), e);
      }
    }
  }

  // ---------------------------------------------------------------- the other arms

  /** While a step is enabled nothing has timed out. */
  lemma NotLate(m: Machine, step: Step, e: Ending)
    requires Inv(m) && Enabled(m, step) && CoordEnds(m.c, e)
    ensures !e.late
  {}

  lemma BoundaryIsSame(c: Coord, applied: bool)
    ensures SameEnding(c, AnswerBegin(c).coord)
    ensures c.active.Some? ==> SameEnding(c, AnswerFinish(c, applied).coord)
  {}

  lemma NumberedTakes(c: Coord, n: Numbered)
    requires c.active.Some? && c.active.value.sequence <= MAX_SAFE_INTEGER
    ensures if c.active.value.sequence == MAX_SAFE_INTEGER then Takes(c, QueueNumbered(c, n), INTERNAL.value)
            else SameEnding(c, QueueNumbered(c, n))
    ensures !Failing(c.shutdown) && c.active.value.sequence == MAX_SAFE_INTEGER ==>
              !QueueNumbered(c, n).shutdown.value.timedOut.On?
  {
    FatalTakes(c, InternalFailure, Internal);
  }

  lemma NumberedEnds(c: Coord, n: Numbered, e: Ending)
    requires CoordEnds(c, e) && !e.late && !Failing(c.shutdown)
    requires c.active.Some? && c.active.value.sequence <= MAX_SAFE_INTEGER
    ensures var met := if c.active.value.sequence == MAX_SAFE_INTEGER then INTERNAL else None;
            CoordEnds(QueueNumbered(c, n), Weigh(e, met, !c.phase.Serving?))
  {
    NumberedTakes(c, n);
    if c.active.value.sequence == MAX_SAFE_INTEGER {
      TakesEnds(c, QueueNumbered(c, n), INTERNAL.value, e);
    } else {
      SameEnds(c, QueueNumbered(c, n), e);
    }
  }

  lemma PlainEnds(m: Machine, message: Message, e: Ending)
    requires Inv(m) && Enabled(m, ReceiveMessage(message)) && CoordEnds(m.c, e) && !message.EffectMessage?
    ensures CoordEnds(HandlePlainMessage(m.c, message), Weigh(e, Met(m, ReceiveMessage(message)), !m.c.phase.Serving?))
  {
    var c, a := m.c, m.c.active.value;
    NotLate(m, ReceiveMessage(message), e);
    if Failing(c.shutdown) {
      SameEnds(c, HandlePlainMessage(c, message), e);
    } else if message.ProvisionalMessage? {
      NumberedEnds(c, NumberedProvisional, e);
    } else {
      OutcomeEnds(c, message, e);
    }
  }

  lemma OutcomeEnds(c: Coord, message: Message, e: Ending)
    requires CoordEnds(c, e) && !e.late && !Failing(c.shutdown) && WellFormedOutcome(message)
    requires c.active.Some? && c.active.value.sequence <= MAX_SAFE_INTEGER
    ensures var a := c.active.value;
            var met := if NeedsNumber(a, message) && a.sequence == MAX_SAFE_INTEGER then INTERNAL else None;
            CoordEnds(HandleOutcome(c, message.frameCount, message.canceled, message.failed),
                      Weigh(e, met, !c.phase.Serving?))
  {
    var d := c.(active := Some(c.active.value.(committed := On)));
    SameEnds(c, d, e);
    if NeedsNumber(c.active.value, message) {
      NumberedEnds(d, NumberedTerminal(Canceled(true)), e);
      NumberedEnds(d, NumberedTerminal(Canceled(false)), e);
      NumberedEnds(d, NumberedTerminal(Failed), e);
    } else {
      SameEnds(c, HandleOutcome(c, message.frameCount, message.canceled, message.failed), e);
    }
  }

  lemma MessageEnds(m: Machine, message: Message, e: Ending)
    requires Inv(m) && Enabled(m, ReceiveMessage(message)) && CoordEnds(m.c, e)
    ensures CoordEnds(HandleWorkerMessage(m.c, message, m.decoded).coord,
                      Weigh(e, Met(m, ReceiveMessage(message)), !m.c.phase.Serving?))
  {
    NotLate(m, ReceiveMessage(message), e);
    if !message.EffectMessage? {
      PlainEnds(m, message, e);
    } else if message.stage.Begin? {
      var d := if m.decoded.Some? then TakeDecoded(m.c, m.decoded.value) else m.c;
      if m.decoded.Some? {
        DecodedEnds(m.c, m.decoded.value, e);
      }
      BoundaryIsSame(d, false);
      SameEnds(d, AnswerBegin(d).coord, Weigh(e, Met(m, ReceiveMessage(message)), !m.c.phase.Serving?));
    } else {
      BoundaryIsSame(m.c, message.applied);
      SameEnds(m.c, AnswerFinish(m.c, message.applied).coord, e);
    }
  }

  lemma AckEnds(m: Machine, e: Ending)
    requires Inv(m) && Enabled(m, ReceiveAck) && CoordEnds(m.c, e)
    ensures CoordEnds(Select(m, ReceiveAck).c, Weigh(e, Met(m, ReceiveAck), !m.c.phase.Serving?))
  {
    NotLate(m, ReceiveAck, e);
    var d := m.c.(inflight := None);
    SameEnds(m.c, d, e);
    match m.acks.value.result
    case CodecRejected =>
      FatalTakes(d, InternalFailure, Internal);
      TakesEnds(d, BeginFatal(d, InternalFailure, Internal), INTERNAL.value, e);
    case Broken =>
      TransportTakes(d, TransportFailure);
      TakesEnds(d, BeginTransport(d, TransportFailure), Trouble(Transport, TransportFailure, Unspecified), e);
    case Written => WrittenIsSame(m);
  }

  lemma WrittenIsSame(m: Machine)
    requires Inv(m) && Enabled(m, ReceiveAck) && m.acks.value.result.Written?
    ensures SameEnding(m.c, Select(m, ReceiveAck).c)
  {
    if m.acks.value.frame.Terminal? {
      TerminalWrittenKeeps(m);
    }
  }

  lemma TimerEnds(m: Machine, step: Step, e: Ending)
    requires Inv(m) && Enabled(m, step) && CoordEnds(m.c, e) && (step.SeeCancelTimer? || step.SeeShutdownTimer?)
    ensures CoordEnds(Select(m, step).c, Judged(e, m, step))
  {
    NotLate(m, step, e);
  }

  lemma SignalEnds(m: Machine, step: Step, e: Ending)
    requires Inv(m) && Enabled(m, step) && CoordEnds(m.c, e)
    requires step.GrantRead? || step.SeeWorkerDone? || step.SeeDecoderDone? || step.SeeWriterDone?
             || step.SeeExternalCancel?
    ensures CoordEnds(Select(m, step).c, Judged(e, m, step))
  {
    NotLate(m, step, e);
    if step.SeeWriterDone? {
      WriterDoneEnds(m, e);
    } else if step.SeeExternalCancel? {
      GracefulTakes(m.c, Interrupted);
      TakesEnds(m.c, BeginGraceful(m.c, Interrupted), Trouble(Graceful, Interrupted, Unspecified), e);
    } else {
      SameEnds(m.c, Select(m, step).c, e);
    }
  }

  /** A writer that is gone has failed, and the session knows it from the acknowledgement. */
  lemma WriterDoneEnds(m: Machine, e: Ending)
    requires Inv(m) && Enabled(m, SeeWriterDone) && CoordEnds(m.c, e)
    ensures CoordEnds(Select(m, SeeWriterDone).c, Judged(e, m, SeeWriterDone))
  {
    NotLate(m, SeeWriterDone, e);
    var d := m.c.(writerStopped := On);
    SameEnds(m.c, d, e);
    if m.c.inflight.None? {
      TransportTakes(d, TransportFailure);
      TakesEnds(d, BeginTransport(d, TransportFailure), Trouble(Transport, TransportFailure, Unspecified), e);
    }
  }

  lemma LoopTopEnds(m: Machine, e: Ending)
    requires Control(m) && CoordEnds(m.c, e)
    ensures CoordEnds(FillPending(m.c), e)
  {
    if m.c.pending.None? && IsFatal(m.c.shutdown) && !m.c.shutdown.value.fatalQueued.On? {
    } else {
      assert SameEnding(m.c, FillPending(m.c));
    }
  }

  // ---------------------------------------------------------------- runs

  predicate AllName(accepted: seq<Frame>, offence: Option<Offence>) {
    forall k :: 0 <= k < |accepted| ==> NamesOffence(accepted[k], offence)
  }

  predicate Ends(s: System, e: Ending) { CoordEnds(s.m.c, e) && AllName(s.h.accepted, e.offence) }

  lemma ArmEnds(m: Machine, step: Step, e: Ending)
    requires Inv(m) && Enabled(m, step) && CoordEnds(m.c, e) && !IsEnvironment(step)
    ensures CoordEnds(Select(m, step).c, Judged(e, m, step))
  {
    NotLate(m, step, e);
    if step.ReceiveDecoded? {
      DecodedEnds(m.c, m.decoded.value, e);
    } else if step.ReceiveMessage? {
      MessageEnds(m, step.message, e);
    } else if step.ReceiveAck? {
      AckEnds(m, e);
    } else if step.SeeCancelTimer? || step.SeeShutdownTimer? {
      TimerEnds(m, step, e);
    } else if !step.SendFrame? {
      SignalEnds(m, step, e);
    }
  }

  lemma StepEnds(s: System, step: Step, e: Ending)
    requires Inv(s.m) && Ends(s, e) && Enabled(s.m, step)
    ensures Ends(Apply(s, step), Judged(e, s.m, step))
  {
    NamesStay(s, step, e);
    MoveEnds(s.m, step, e);
  }

  lemma MoveEnds(m: Machine, step: Step, e: Ending)
    requires Inv(m) && CoordEnds(m.c, e) && Enabled(m, step)
    ensures CoordEnds(Move(m, step).c, Judged(e, m, step))
  {
    if IsEnvironment(step) {
      NobodyMeetsTrouble(m, step, e);
    } else {
      ArmEnds(m, step, e);
      SelectKeeps(m, step);
      LoopTopEnds(Select(m, step), Judged(e, m, step));
    }
  }

  /** Only the loop meets trouble. */
  lemma NobodyMeetsTrouble(m: Machine, step: Step, e: Ending)
    requires Enabled(m, step) && IsEnvironment(step)
    ensures Judged(e, m, step) == e && Move(m, step).c == m.c
  {}

  /** An offence is named once and for all. */
  lemma NamesStay(s: System, step: Step, e: Ending)
    requires Inv(s.m) && Ends(s, e) && Enabled(s.m, step)
    ensures AllName(Record(s.h, s.m, step).accepted, Judged(e, s.m, step).offence)
  {
    OffenceStays(s.m, step, e);
    AllStillName(s.h.accepted, e.offence, Judged(e, s.m, step).offence);
  }

  lemma OffenceStays(m: Machine, step: Step, e: Ending)
    requires CoordEnds(m.c, e) && Enabled(m, step)
    ensures e.offence.Some? ==> Judged(e, m, step).offence == e.offence
  {}

  lemma AllStillName(accepted: seq<Frame>, before: Option<Offence>, after: Option<Offence>)
    requires AllName(accepted, before) && (before.Some? ==> after == before)
    ensures AllName(accepted, after)
  {}

  lemma {:induction false} RunEnds(s: System, steps: seq<Step>, e: Ending)
    requires Inv(s.m) && Ends(s, e) && IsRun(s, steps)
    ensures Ends(After(s, steps), EndingAfter(s, steps, e))
    decreases |steps|
  {
    if steps != [] {
      MoveKeeps(s.m, steps[0]);
      StepEnds(s, steps[0], e);
      RunEnds(Apply(s, steps[0]), steps[1..], Judged(e, s.m, steps[0]));
    }
  }

  const NO_TROUBLE: Ending := Ending(None, None, false)

  /** In any run: the session shuts down when it has met trouble and not before, in the mode and with the error of the
      first of the worst kind it has met, late exactly when a timer ran out; and a fatal frame names the offence. */
  lemma ShutdownsHaveTheirCause(steps: seq<Step>)
    requires IsRun(START, steps)
    ensures var s, e := After(START, steps), EndingAfter(START, steps, NO_TROUBLE);
            ShutdownFits(s.m.c.shutdown, e) && AllName(s.h.accepted, e.offence) && SlotNames(s.m.c.pending, e.offence)
  {
    StartKeeps();
    assert START.m.c == INITIAL;
    RunEnds(START, steps, NO_TROUBLE);
  }

  // ---------------------------------------------------------------- acknowledgements

  /** A cancel of the active request stands, or is in the frame that is handled first. */
  predicate CancelStands(m: Machine) {
    m.c.active.Some? &&
    (|| m.c.active.value.cancelAsked.On?
     || (m.c.shutdown.None? && m.c.phase.Serving? && m.decoded.Some? && m.decoded.value.InputFrame?
         && m.decoded.value.client == Cancel(m.c.active.value.request.id)))
  }

  /** What a begin is answered: an offence of the frame handled first closes the request unless an effect of it was
      applied; a second effect is an error; a cancel or a shutdown forbids it. */
  function BeginAck(m: Machine): Ack
    requires m.c.active.Some?
  {
    var a := m.c.active.value;
    var met :=
      if m.c.shutdown.None? && m.decoded.Some? then InputTrouble(m.c.phase, m.c.lastId, m.decoded.value) else None;
    if met.Some? && met.value.mode.Fatal? && !a.effectCommitted.On? then AckClosing
    else if a.effectCommitted.On? then AckInternal
    else if CancelStands(m) || m.c.shutdown.Some? || met.Some? then AckCanceled
    else Granted
  }

  lemma BeginIsAnswered(m: Machine)
    requires Inv(m) && Enabled(m, ReceiveMessage(EffectMessage(Begin, false)))
    ensures HandleWorkerMessage(m.c, EffectMessage(Begin, false), m.decoded).ack == BeginAck(m)
  {
    if m.decoded.Some? && m.c.shutdown.None? {
      InputTakes(m.c.(readOutstanding := Off), m.decoded.value);
    }
  }

  /** What a finish is answered: an applied effect stands; otherwise what had to wait for it takes its course. */
  function FinishAck(m: Machine, applied: bool): Ack
    requires m.c.active.Some?
  {
    if applied then Granted
    else if Failing(m.c.shutdown) then AckClosing
    else if m.c.shutdown.Some? || m.c.active.value.cancelAsked.On? then AckCanceled
    else Granted
  }

  lemma FinishIsAnswered(m: Machine, applied: bool)
    requires Inv(m) && Enabled(m, ReceiveMessage(EffectMessage(Finish, applied)))
    ensures HandleWorkerMessage(m.c, EffectMessage(Finish, applied), m.decoded).ack == FinishAck(m, applied)
  {}

  /** In every reachable session begins and finishes are answered so. */
  lemma BoundariesAreAnswered(s: System, message: Message)
    requires Reachable(s) && Enabled(s.m, ReceiveMessage(message)) && message.EffectMessage?
    ensures HandleWorkerMessage(s.m.c, message, s.m.decoded).ack
         == if message.stage.Begin? then BeginAck(s.m) else FinishAck(s.m, message.applied)
  {
    ReachableInv(s);
    if message.stage.Begin? {
      BeginIsAnswered(s.m);
    } else {
      FinishIsAnswered(s.m, message.applied);
    }
  }

  /** A boundary message for a request that is gone, or of no known stage, changes nothing and is told so. */
  lemma UselessBoundaries(c: Coord, stage: Stage, applied: bool, ready: Option<Decoded>)
    requires c.active.None? || c.active.value.abandoned.On? || c.active.value.committed.On? || stage.UnknownStage?
    ensures var reply := HandleEffectBoundary(c, stage, applied, ready);
            && reply.coord == c && !reply.consumed
            && (reply.ack == AckInternal <==>
                  c.active.Some? && !c.active.value.abandoned.On? && !c.active.value.committed.On?)
            && (reply.ack == AckClosing <==> reply.ack != AckInternal)
  {}

  /** A cancel whose operation does not end in time gives everything up. */
  lemma CancelTimeoutGivesUp(s: System)
    requires Reachable(s) && Enabled(s.m, SeeCancelTimer) && !s.m.worker.Exited?
    ensures var n := Apply(s, SeeCancelTimer).m;
            && n.finished.On? && IsTransport(n.c.shutdown) && TimedOut(n.c.shutdown) && n.c.pending.None?
            && n.c.held.None? && n.c.active.Some? && n.c.active.value.cursor.None? && n.c.active.value.abandoned.On?
            && n.c.active.value.opCanceled.On? && n.c.active.value.messageCanceled.On?
            && n.c.active.value.outcomeCanceled.On?
  {
    ReachableInv(s);
  }
}
