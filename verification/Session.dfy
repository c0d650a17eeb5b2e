/**
  The stdio session coordinator as a value and its handlers as functions on that value.

  `Coord` holds the coordinator's fields; a nil pointer is `None`, a context is a flag that says
  whether it was canceled, and a timer is a flag that says whether it is armed.  Frames keep what
  the protocol's order depends on.  A `canceled` terminal also remembers whether it answers a
  client cancel or a shutdown (`requested`) or the operation's own canceled error; on the wire
  both look the same.
*/
module Session {
  import opened Wire

  /** A stored boolean, always asked by `On?`.  Two-valued fields of their own keep these many-field records
      cheap to reason about. */
  datatype Flag = Off | On

  function Mark(condition: bool): Flag { if condition then On else Off }

  datatype Phase = AwaitHello | Bootstrapping | AwaitReady | Serving

  datatype ProtocolKind = Unspecified | Violation | FrameTooLarge | UnsupportedProtocol | Internal

  datatype Outcome = Completed | Failed | Canceled(requested: bool)

  datatype Frame =
    | Hello
    | Ready
    | Started(id: nat)
    | Rejected(id: nat)
    | Provisional(id: nat, sequence: nat)
    | SuccessItem(id: nat, sequence: nat)
    | Terminal(id: nat, sequence: nat, outcome: Outcome)
    | FatalError(bootstrap: bool, kind: ProtocolKind)

  predicate SameKind(f: Frame, g: Frame) {
    match f
    case Hello => g.Hello?
    case Ready => g.Ready?
    case Started(_) => g.Started?
    case Rejected(_) => g.Rejected?
    case Provisional(_, _) => g.Provisional?
    case SuccessItem(_, _) => g.SuccessItem?
    case Terminal(_, _, _) => g.Terminal?
    case FatalError(_, _) => g.FatalError?
  }

  /** A committed success stream as the coordinator sees it: how many frames it has, how many are out.
      SuccessCounts.CursorCounts shows that the real cursor is exactly this. */
  datatype Cursor = Cursor(frames: nat, emitted: nat)

  datatype Emission = Emitted(cursor: Cursor, terminal: bool) | Stuck

  function NextEmission(c: Cursor): Emission {
    if c.emitted >= c.frames then Stuck
    else Emitted(c.(emitted := c.emitted + 1), c.emitted + 1 == c.frames)
  }

  datatype Mode = Graceful | Fatal | Transport

  datatype SessionError = Clean | Interrupted | ProtocolFailure | TransportFailure | InternalFailure

  datatype Shutdown = Shutdown(
    mode: Mode,
    result: SessionError,
    kind: ProtocolKind,
    bootstrapFatal: Flag,
    fatalQueued: Flag,
    fatalWritten: Flag,
    timedOut: Flag,
    timer: Flag)

  datatype Request = Request(id: nat, available: bool)

  datatype Active = Active(
    request: Request,
    sequence: nat,
    opCanceled: Flag,
    messageCanceled: Flag,
    outcomeCanceled: Flag,
    workerStarted: Flag,
    workerDone: Flag,
    cancelAsked: Flag,
    cancelTimer: Flag,
    effectCommitting: Flag,
    effectCommitted: Flag,
    committed: Flag,
    success: Flag,
    abandoned: Flag,
    cursor: Option<Cursor>,
    terminalWrote: Flag)
  {
    predicate EffectProtected() { effectCommitting.On? || effectCommitted.On? }
  }

  datatype Coord = Coord(
    decoderStopped: Flag,
    writerStopped: Flag,
    readOutstanding: Flag,
    inputClosed: Flag,
    phase: Phase,
    pending: Option<Frame>,
    inflight: Option<Frame>,
    held: Option<Request>,
    heldBusy: Flag,
    active: Option<Active>,
    lastId: nat,
    shutdown: Option<Shutdown>,
    inputUnblocked: Flag,
    outputUnblocked: Flag,
    overwritten: Flag)  // history: a one-slot buffer was filled while it was full

  /** What the decoder hands over: an end or failure of the input, or a frame, which the bootstrap
      and the v1 decoders read each in their own way. */
  datatype BootstrapParse = Initialize(supported: bool) | Reject | BootstrapOther | BootstrapInvalid(tooLarge: bool)
  datatype ClientParse = Cancel(id: nat) | NewRequest(request: Request) | ClientOther | ClientInvalid(tooLarge: bool)
  datatype Decoded =
    | InputEnded
    | InputFailed(tooLarge: bool)
    | InputFrame(bootstrap: BootstrapParse, client: ClientParse)

  datatype Stage = Begin | Finish | UnknownStage
  datatype Message =
    | ProvisionalMessage
    | EffectMessage(stage: Stage, applied: bool)
    | OutcomeMessage(frameCount: Option<nat>, canceled: bool, failed: bool)
    | EmptyMessage
  datatype Ack = Granted | AckCanceled | AckClosing | AckInternal

  datatype WriteResult = Written | CodecRejected | Broken

  const INITIAL: Coord := Coord(
    Off, Off, Off, Off, AwaitHello, Some(Hello), None, None, Off, None, 0, None, Off, Off, Off)

  // ---------------------------------------------------------------- small queries

  predicate EffectInFlight(active: Option<Active>) {
    active.Some? && !active.value.workerDone.On? && active.value.EffectProtected()
  }

  predicate TerminalWriteInFlight(c: Coord) { c.inflight.Some? && c.inflight.value.Terminal? }

  predicate TerminalQueued(c: Coord) {
    (c.pending.Some? && c.pending.value.Terminal?) || TerminalWriteInFlight(c)
  }

  predicate PendingWriteReady(c: Coord) {
    c.pending.None? || !c.pending.value.Terminal? || c.active.None?
    || !c.active.value.workerStarted.On? || c.active.value.workerDone.On?
  }

  predicate CanRead(c: Coord) {
    && c.shutdown.None? && !c.inputClosed.On? && !c.readOutstanding.On? && c.held.None?
    && !TerminalQueued(c) && (c.phase == Bootstrapping || c.phase == Serving)
  }

  /** The guard of the worker-message arm. */
  predicate CanReceive(c: Coord) {
    && c.active.Some? && c.active.value.workerStarted.On?
    && !c.active.value.abandoned.On? && !c.active.value.committed.On?
    && (|| c.pending.None?
        || c.active.value.effectCommitting.On?
        || (c.shutdown.Some? && !c.shutdown.value.mode.Graceful? && c.active.value.effectCommitted.On?))
  }

  predicate ShouldFinish(c: Coord) {
    c.shutdown.Some? &&
    (|| c.shutdown.value.timedOut.On?
     || match c.shutdown.value.mode
        case Graceful => c.active.None? && c.pending.None? && c.inflight.None?
        case Fatal =>
          (c.active.None? || c.active.value.workerDone.On?) && c.shutdown.value.fatalWritten.On?
          && c.pending.None? && c.inflight.None?
        case Transport => c.active.None? || c.active.value.workerDone.On?)
  }

  // ---------------------------------------------------------------- one-slot buffers

  function Queue(c: Coord, f: Frame): Coord {
    c.(pending := Some(f), overwritten := Mark(c.overwritten.On? || c.pending.Some?))
  }

  function Hold(c: Coord, request: Request, busy: bool): Coord {
    c.(held := Some(request), heldBusy := Mark(busy), overwritten := Mark(c.overwritten.On? || c.held.Some?))
  }

  function Submit(c: Coord): Coord {
    c.(inflight := c.pending, pending := None, overwritten := Mark(c.overwritten.On? || c.inflight.Some?))
  }

  /** An operation at work stays the active one. */
  predicate KeepsOperation(c: Coord, d: Coord) {
    c.active.Some? ==>
      && d.active.Some?
      && d.active.value.request == c.active.value.request
      && d.active.value.workerStarted == c.active.value.workerStarted
      && d.active.value.effectCommitted == c.active.value.effectCommitted
  }

  // ---------------------------------------------------------------- shutdown

  function BeginGraceful(c: Coord, result: SessionError): (d: Coord)
    ensures KeepsOperation(c, d)
  {
    if c.shutdown.Some? then c
    else
      var timer := Mark(!EffectInFlight(c.active));
      var active :=
        if c.active.Some? && !c.active.value.committed.On? && timer.On? && !c.active.value.abandoned.On? then
          Some(c.active.value.(cancelTimer := Off, cancelAsked := On, opCanceled := On, messageCanceled := On))
        else c.active;
      c.(shutdown := Some(Shutdown(Graceful, result, Unspecified, Off, Off, Off, Off, timer)),
         inputClosed := On, held := None, heldBusy := Off, inputUnblocked := On, active := active)
  }

  /** What both failing shutdowns do to the active request; only the fatal one drops its cursor. */
  function FailActive(active: Option<Active>, dropCursor: bool): Option<Active> {
    if active.None? then None
    else
      var a := active.value.(
        cancelTimer := Off,
        messageCanceled := On,
        cursor := if dropCursor then None else active.value.cursor);
      if EffectInFlight(active) then Some(a)
      else
        Some(a.(abandoned := On, opCanceled := On, outcomeCanceled := On,
                workerDone := Mark(a.workerDone.On? || !a.workerStarted.On?)))
  }

  function BeginFatal(c: Coord, result: SessionError, kind: ProtocolKind): (d: Coord)
    ensures KeepsOperation(c, d)
  {
    if c.shutdown.Some? && !c.shutdown.value.mode.Graceful? then c
    else
      GoFatal(c, result, kind)
  }

  function GoFatal(c: Coord, result: SessionError, kind: ProtocolKind): Coord {
    var timer := Mark(!EffectInFlight(c.active));
    c.(shutdown := Some(Shutdown(Fatal, result, kind, Mark(c.phase != Serving), Off, Off, Off, timer)),
       inputClosed := On, held := None, heldBusy := Off, pending := None, inputUnblocked := On,
       active := FailActive(c.active, true))
  }

  function BeginTransport(c: Coord, result: SessionError): Coord {
    if c.shutdown.Some? && c.shutdown.value.mode.Transport? then c
    else
      var timer := Mark(!EffectInFlight(c.active));
      var shutdown :=
        if c.shutdown.None? then Shutdown(Transport, result, Unspecified, Off, Off, Off, Off, timer)
        else c.shutdown.value.(mode := Transport, result := result, timer := timer);
      c.(shutdown := Some(shutdown), inputClosed := On, held := None, heldBusy := Off, pending := None,
         inputUnblocked := On, outputUnblocked := On, active := FailActive(c.active, false))
  }

  // ---------------------------------------------------------------- sequence numbers and terminals

  predicate HasSequence(c: Coord) { c.active.Some? && c.active.value.sequence < MAX_SAFE_INTEGER }

  /** The frames that consume the next sequence number of the active request. */
  datatype Numbered = NumberedProvisional | NumberedItem | NumberedTerminal(outcome: Outcome)

  function MakeFrame(n: Numbered, id: nat, sequence: nat): Frame {
    match n
    case NumberedProvisional => Provisional(id, sequence)
    case NumberedItem => SuccessItem(id, sequence)
    case NumberedTerminal(outcome) => Terminal(id, sequence, outcome)
  }

  function QueueNumbered(c: Coord, n: Numbered): Coord {
    if !HasSequence(c) then BeginFatal(c, InternalFailure, Internal)
    else
      var a := c.active.value.(sequence := c.active.value.sequence + 1);
      Queue(c.(active := Some(a)), MakeFrame(n, a.request.id, a.sequence))
  }

  function QueueNextSuccess(c: Coord): Coord
    requires c.active.Some? && c.active.value.cursor.Some?
  {
    if !HasSequence(c) then BeginFatal(c, InternalFailure, Internal)
    else
      var a := c.active.value.(sequence := c.active.value.sequence + 1);
      match NextEmission(a.cursor.value)
      case Stuck => BeginFatal(c.(active := Some(a)), InternalFailure, Internal)
      case Emitted(cursor, terminal) =>
        Queue(c.(active := Some(a.(cursor := if terminal then None else Some(cursor)))),
              MakeFrame(if terminal then NumberedTerminal(Completed) else NumberedItem, a.request.id, a.sequence))
  }

  // ---------------------------------------------------------------- requests, cancels and input

  function ProcessRequest(c: Coord, request: Request): Coord {
    if c.active.Some? then Queue(c, Rejected(request.id))
    else
      var a := Active(
        request, 1, Off, Off, Off, Off, Off, Off, Off, Off, Off, Off, Off, Off, None, Off);
      Queue(c.(active := Some(a)), Started(request.id))
  }

  /** The top of the loop: give the pending slot a frame when there is one to give. */
  function FillPending(c: Coord): Coord {
    if c.pending.Some? then c
    else if c.shutdown.Some? && c.shutdown.value.mode.Fatal? && !c.shutdown.value.fatalQueued.On? then
      Queue(c.(shutdown := Some(c.shutdown.value.(fatalQueued := On))),
            FatalError(c.shutdown.value.bootstrapFatal.On?, c.shutdown.value.kind))
    else if c.shutdown.None? && c.held.Some? && !TerminalWriteInFlight(c) then
      var released := c.(held := None, heldBusy := Off);
      if c.heldBusy.On? then Queue(released, Rejected(c.held.value.id))
      else ProcessRequest(released, c.held.value)
    else if c.active.Some? && c.active.value.success.On? && c.active.value.cursor.Some?
            && !c.active.value.abandoned.On? then
      QueueNextSuccess(c)
    else c
  }

  function CancelActiveOperation(c: Coord): Coord {
    if c.active.None? || c.active.value.workerDone.On? || c.active.value.cancelTimer.On? then c
    else c.(active := Some(c.active.value.(opCanceled := On, messageCanceled := On, cancelTimer := On)))
  }

  function HandleCancel(c: Coord, id: nat): (d: Coord)
    ensures KeepsOperation(c, d)
  {
    if || c.active.None? || c.active.value.request.id != id || c.active.value.committed.On?
       || c.active.value.effectCommitted.On? || c.active.value.abandoned.On? || c.active.value.cancelAsked.On?
    then c
    else
      var asked := c.(active := Some(c.active.value.(cancelAsked := On)));
      if c.active.value.effectCommitting.On? then asked else CancelActiveOperation(asked)
  }

  function TooLargeOr(tooLarge: bool): ProtocolKind { if tooLarge then FrameTooLarge else Violation }

  function HandleBootstrapFrame(c: Coord, frame: BootstrapParse): (d: Coord)
    ensures KeepsOperation(c, d)
  {
    match frame
    case Initialize(supported) =>
      if supported then Queue(c, Ready).(phase := AwaitReady)
      else BeginFatal(c, ProtocolFailure, UnsupportedProtocol)
    case Reject => BeginFatal(c, ProtocolFailure, UnsupportedProtocol)
    case BootstrapOther => BeginFatal(c, ProtocolFailure, Violation)
    case BootstrapInvalid(tooLarge) => BeginFatal(c, ProtocolFailure, TooLargeOr(tooLarge))
  }

  function HandleRequest(c: Coord, request: Request): (d: Coord)
    ensures KeepsOperation(c, d)
  {
    if request.id <= c.lastId then BeginFatal(c, ProtocolFailure, Violation)
    else
      var d := c.(lastId := request.id);
      if c.pending.Some? then Hold(d, request, c.pending.value.Terminal?)
      else if TerminalWriteInFlight(c) then Hold(d, request, false)
      else ProcessRequest(d, request)
  }

  function HandleClientFrame(c: Coord, frame: ClientParse): (d: Coord)
    ensures KeepsOperation(c, d)
  {
    match frame
    case Cancel(id) => HandleCancel(c, id)
    case NewRequest(request) => HandleRequest(c, request)
    case ClientOther => BeginFatal(c, ProtocolFailure, Violation)
    case ClientInvalid(tooLarge) => BeginFatal(c, ProtocolFailure, TooLargeOr(tooLarge))
  }

  function HandleDecoded(c: Coord, decoded: Decoded): (d: Coord)
    ensures KeepsOperation(c, d)
  {
    if c.shutdown.Some? then c
    else match decoded
      case InputEnded => BeginGraceful(c.(inputClosed := On), Clean)
      case InputFailed(tooLarge) => BeginFatal(c, ProtocolFailure, TooLargeOr(tooLarge))
      case InputFrame(bootstrap, client) =>
        match c.phase
        case Bootstrapping => HandleBootstrapFrame(c, bootstrap)
        case Serving => HandleClientFrame(c, client)
        case _ => BeginFatal(c, ProtocolFailure, Violation)
  }

  /** The decode arm: the outstanding read is over. */
  function TakeDecoded(c: Coord, decoded: Decoded): Coord {
    HandleDecoded(c.(readOutstanding := Off), decoded)
  }

  // ---------------------------------------------------------------- the worker

  function LaunchWorker(c: Coord): Coord {
    if c.active.None? || c.active.value.workerStarted.On? || c.active.value.abandoned.On? then c
    else c.(active := Some(c.active.value.(workerStarted := On)))
  }

  function MarkWorkerDone(c: Coord): Coord {
    if c.active.None? then c
    else
      var d := c.(active := Some(c.active.value.(workerDone := On, cancelTimer := Off)));
      if d.shutdown.Some? && !d.shutdown.value.timer.On? && !d.shutdown.value.timedOut.On? then
        d.(shutdown := Some(d.shutdown.value.(timer := On)))
      else d
  }

  function MaybeReleaseActive(c: Coord): Coord {
    if c.active.None? || !c.active.value.terminalWrote.On? || !c.active.value.workerDone.On? then c
    else c.(active := None)
  }

  /** The operation cancel timer fired; `exited` says whether the worker's done channel is closed. */
  function HandleCancelTimeout(c: Coord, exited: bool): Coord {
    if || c.active.None? || c.active.value.workerDone.On? || !c.active.value.cancelAsked.On?
       || c.active.value.EffectProtected()
    then c
    else if exited then MaybeReleaseActive(MarkWorkerDone(c))
    else
      c.(shutdown := Some(Shutdown(Transport, Clean, Unspecified, Off, Off, Off, On, Off)),
         inputClosed := On, held := None, heldBusy := Off, pending := None,
         inputUnblocked := On, outputUnblocked := On,
         active := Some(c.active.value.(
           abandoned := On, opCanceled := On, messageCanceled := On, outcomeCanceled := On, cursor := None)))
  }

  /** The shutdown timer fired: it is put aside while an effect is in flight. */
  function HandleShutdownTimer(c: Coord): Coord
    requires c.shutdown.Some?
  {
    if EffectInFlight(c.active) then c.(shutdown := Some(c.shutdown.value.(timer := Off)))
    else
      c.(shutdown := Some(c.shutdown.value.(timedOut := On)), inputUnblocked := On, outputUnblocked := On,
         active := if c.active.None? then None
                   else Some(c.active.value.(opCanceled := On, messageCanceled := On, outcomeCanceled := On)))
  }

  datatype EffectReply = EffectReply(coord: Coord, ack: Ack, consumed: bool)

  /** An effect boundary message; `ready` is a decoded frame already waiting, if there is one. */
  function HandleEffectBoundary(c: Coord, stage: Stage, applied: bool, ready: Option<Decoded>): EffectReply {
    if c.active.None? || c.active.value.abandoned.On? || c.active.value.committed.On? then
      EffectReply(c, AckClosing, false)
    else match stage
      case Begin =>
        var d := if ready.Some? then TakeDecoded(c, ready.value) else c;
        EffectReply(AnswerBegin(d).coord, AnswerBegin(d).ack, ready.Some?)
      case Finish => AnswerFinish(c, applied)
      case UnknownStage => EffectReply(c, AckInternal, false)
  }

  function AnswerBegin(c: Coord): EffectReply {
    if c.active.None? || c.active.value.abandoned.On? || c.active.value.committed.On? then
      EffectReply(c, AckClosing, false)
    else if c.active.value.EffectProtected() then EffectReply(c, AckInternal, false)
    else if c.active.value.cancelAsked.On? || c.shutdown.Some? then EffectReply(c, AckCanceled, false)
    else EffectReply(c.(active := Some(c.active.value.(effectCommitting := On))), Granted, false)
  }

  function AnswerFinish(c: Coord, applied: bool): EffectReply
    requires c.active.Some?
  {
    if !c.active.value.effectCommitting.On? || c.active.value.effectCommitted.On? then
      EffectReply(c, AckInternal, false)
    else
      var a := c.active.value.(effectCommitting := Off);
      if applied then
        EffectReply(
          c.(active := Some(a.(effectCommitted := On, cancelAsked := Off, cancelTimer := Off)),
             shutdown := if c.shutdown.None? then None else Some(c.shutdown.value.(timer := Off))),
          Granted, false)
      else if c.shutdown.Some? then
        var d := c.(shutdown := Some(c.shutdown.value.(timer := On)));
        if c.shutdown.value.mode.Graceful? then
          EffectReply(
            d.(active := Some(a.(cancelAsked := On, opCanceled := On, messageCanceled := On))), AckCanceled, false)
        else
          EffectReply(
            d.(active := Some(a.(
              abandoned := On, opCanceled := On, messageCanceled := On, outcomeCanceled := On, cursor := None))),
            AckClosing, false)
      else if a.cancelAsked.On? then EffectReply(CancelActiveOperation(c.(active := Some(a))), AckCanceled, false)
      else EffectReply(c.(active := Some(a)), Granted, false)
  }

  function HandleOutcome(c: Coord, frameCount: Option<nat>, canceled: bool, failed: bool): Coord
    requires c.active.Some?
  {
    var a := c.active.value;
    var committed := c.(active := Some(a.(committed := On)));
    if a.cancelAsked.On? then QueueNumbered(committed, NumberedTerminal(Canceled(true)))
    else if frameCount.Some? then
      if canceled || failed then BeginFatal(c, InternalFailure, Internal)
      else if a.sequence > MAX_SAFE_INTEGER - frameCount.value then
        QueueNumbered(committed, NumberedTerminal(Failed))
      else
        c.(active := Some(a.(committed := On, success := On, cursor := Some(Cursor(frameCount.value, 0)))))
    else if canceled then QueueNumbered(committed, NumberedTerminal(Canceled(false)))
    else if !failed then BeginFatal(committed, InternalFailure, Internal)
    else QueueNumbered(committed, NumberedTerminal(Failed))
  }

  function HandleWorkerMessage(c: Coord, message: Message, ready: Option<Decoded>): EffectReply {
    if message.EffectMessage? then HandleEffectBoundary(c, message.stage, message.applied, ready)
    else EffectReply(HandlePlainMessage(c, message), Granted, false)
  }

  function HandlePlainMessage(c: Coord, message: Message): Coord {
    if c.active.None? || c.active.value.abandoned.On? || c.active.value.committed.On? then
      BeginFatal(c, InternalFailure, Internal)
    else if c.shutdown.Some? && c.active.value.EffectProtected() && !c.shutdown.value.mode.Graceful? then
      if message.OutcomeMessage? then c.(active := Some(c.active.value.(committed := On))) else c
    else match message
      case ProvisionalMessage => QueueNumbered(c, NumberedProvisional)
      case OutcomeMessage(frameCount, canceled, failed) => HandleOutcome(c, frameCount, canceled, failed)
      case _ => BeginFatal(c, InternalFailure, Internal)
  }

  // ---------------------------------------------------------------- the writer

  function HandleWriteAck(c: Coord, frame: Frame, result: WriteResult): Coord {
    if c.inflight.None? || !SameKind(frame, c.inflight.value) then BeginFatal(c, InternalFailure, Internal)
    else
      HandleResult(c.(inflight := None), frame, result)
  }

  function HandleResult(c: Coord, frame: Frame, result: WriteResult): Coord {
    match result
    case CodecRejected => BeginFatal(c, InternalFailure, Internal)
    case Broken => BeginTransport(c, TransportFailure)
    case Written => HandleWritten(c, frame)
  }

  function HandleWritten(c: Coord, frame: Frame): Coord {
    match frame
    case Hello => c.(phase := Bootstrapping)
    case Ready => c.(phase := Serving)
    case Started(_) => if c.shutdown.None? || c.shutdown.value.mode.Graceful? then LaunchWorker(c) else c
    case Terminal(_, _, _) =>
      if c.active.None? then BeginFatal(c, InternalFailure, Internal)
      else MaybeReleaseActive(c.(active := Some(c.active.value.(terminalWrote := On))))
    case FatalError(_, _) =>
      if c.shutdown.None? || !c.shutdown.value.mode.Fatal? then BeginTransport(c, TransportFailure)
      else c.(shutdown := Some(c.shutdown.value.(fatalWritten := On)))
    case _ => c
  }

  function HandleWriterStopped(c: Coord): Coord {
    var d := c.(writerStopped := On);
    if c.shutdown.None? && c.inflight.None? then BeginTransport(d, TransportFailure) else d
  }
}
