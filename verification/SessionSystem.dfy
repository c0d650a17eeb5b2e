/**
  The whole session as a transition system: the coordinator together with the decoder, the writer,
  the operation worker, the timers and the outside world, each stepping when it likes.

  One `Step` is either one arm of the coordinator's select, followed by the top of its next loop
  iteration, or one move of a goroutine around it.  The engine is unknown, so the worker may do
  anything its side of the protocol allows.
*/
module SessionSystem {
  import opened Wire
  import opened Session

  /** Where the worker goroutine is.  `Finishing` means the effect has returned and its result is on
      offer; an effect that panicked counts as applied, as the worker reports it. */
  datatype WorkerAt =
    | Absent
    | Working
    | BeginAnswered(granted: bool)
    | InEffect
    | Finishing(applied: bool)
    | Exiting
    | Exited

  datatype WriterAt = WriterIdle | Writing(frame: Frame) | WriterGone
  datatype Acked = Acked(frame: Frame, result: WriteResult)
  datatype DecoderAt = DecoderIdle | Reading | DecoderGone

  /** The coordinator and the goroutines around it. */
  datatype Machine = Machine(
    c: Coord,
    worker: WorkerAt,
    writer: WriterAt,
    acks: Option<Acked>,        // the acknowledgement channel, one slot
    decoder: DecoderAt,
    decoded: Option<Decoded>,   // the decode-result channel, one slot
    finished: Flag)             // the loop has ended

  /** What has happened so far. */
  datatype History = History(
    accepted: seq<Frame>,       // frames the writer took, in order
    written: seq<Frame>,        // frames the writer wrote in full
    received: seq<nat>,         // ids of the valid requests decoded
    applied: seq<nat>)          // ids of the requests whose effect was applied

  datatype System = System(m: Machine, h: History)

  datatype Step =
    | SendFrame
    | GrantRead
    | ReceiveDecoded
    | ReceiveAck
    | ReceiveMessage(message: Message)
    | SeeWorkerDone
    | SeeDecoderDone
    | SeeWriterDone
    | SeeExternalCancel
    | SeeCancelTimer
    | SeeShutdownTimer
    | DecoderDelivers(result: Decoded)
    | WriterWrites(outcome: WriteResult)
    | WorkerResumes
    | EffectEnds(effectApplied: bool)
    | WorkerGivesUp
    | WorkerExits

  /** The loop's own part between two selects: fill the pending slot, then decide whether to stop. */
  function LoopTop(m: Machine): Machine {
    var c := FillPending(m.c);
    m.(c := c, finished := Mark(ShouldFinish(c)))
  }

  const START: System := System(
    LoopTop(Machine(INITIAL, Absent, WriterIdle, None, DecoderIdle, None, Off)),
    History([], [], [], []))

  /** An outcome carries a plan, a cancellation or a failure, and just one of them; a plan has at
      least its completion frame and passed the preflight count. */
  predicate WellFormedOutcome(m: Message) {
    m.OutcomeMessage? &&
    match m.frameCount
    case Some(frames) => 1 <= frames <= MAX_SAFE_INTEGER && !m.canceled && !m.failed
    case None => m.canceled != m.failed
  }

  predicate WorkerOffers(m: Machine, message: Message) {
    match m.worker
    case Working =>
      || (WellFormedOutcome(message) && (CurrentAvailable(m.c) || message.failed))
      || (CurrentAvailable(m.c) && (message == ProvisionalMessage || message == EffectMessage(Begin, false)))
    case Finishing(applied) => message == EffectMessage(Finish, applied)
    case _ => false
  }

  predicate CurrentAvailable(c: Coord) { c.active.Some? && c.active.value.request.available }

  function AfterMessage(message: Message, ack: Ack): WorkerAt {
    match message
    case OutcomeMessage(_, _, _) => Exiting
    case EffectMessage(Begin, _) => BeginAnswered(ack == Granted)
    case _ => Working
  }

  predicate OutcomeContextCanceled(c: Coord) { c.active.Some? && c.active.value.outcomeCanceled.On? }

  predicate Enabled(m: Machine, step: Step) {
    && !m.finished.On?
    && match step
       case SendFrame =>
         m.c.pending.Some? && m.c.inflight.None? && !m.c.writerStopped.On? && PendingWriteReady(m.c)
             && m.writer.WriterIdle?
       case GrantRead => CanRead(m.c) && m.decoder.DecoderIdle?
       case ReceiveDecoded => m.decoded.Some?
       case ReceiveAck => m.acks.Some?
       case ReceiveMessage(message) => CanReceive(m.c) && WorkerOffers(m, message)
       case SeeWorkerDone =>
         m.c.active.Some? && m.c.active.value.workerStarted.On? && !m.c.active.value.workerDone.On? && m.worker.Exited?
       case SeeDecoderDone => !m.c.decoderStopped.On? && m.decoder.DecoderGone?
       case SeeWriterDone => !m.c.writerStopped.On? && m.writer.WriterGone?
       case SeeExternalCancel => m.c.shutdown.None?
       case SeeCancelTimer =>
         m.c.shutdown.None? && m.c.active.Some? && m.c.active.value.cancelTimer.On? && !m.c.active.value.workerDone.On?
       case SeeShutdownTimer => m.c.shutdown.Some? && m.c.shutdown.value.timer.On?
       case DecoderDelivers(result) => m.decoder.Reading? && m.decoded.None?
       case WriterWrites(_) => m.writer.Writing? && m.acks.None?
       case WorkerResumes => m.worker.BeginAnswered?
       case EffectEnds(_) => m.worker.InEffect?
       case WorkerGivesUp =>
         OutcomeContextCanceled(m.c) && (m.worker.Working? || m.worker.BeginAnswered? || m.worker.Finishing?)
       case WorkerExits => m.worker.Exiting?
  }

  /** The worker goroutine starts with its request and is forgotten with it. */
  function Hire(c: Coord, worker: WorkerAt): WorkerAt {
    if c.active.None? then Absent
    else if worker.Absent? && c.active.value.workerStarted.On? then Working
    else worker
  }

  function Arm(m: Machine, c: Coord): Machine { m.(c := c, worker := Hire(c, m.worker)) }

  /** The arms, before the next loop top. */
  function Select(m: Machine, step: Step): Machine
    requires Enabled(m, step)
  {
    match step
    case SendFrame => Arm(m.(writer := Writing(m.c.pending.value)), Submit(m.c))
    case GrantRead => Arm(m.(decoder := Reading), m.c.(readOutstanding := On))
    case ReceiveDecoded => Arm(m.(decoded := None), TakeDecoded(m.c, m.decoded.value))
    case ReceiveAck => Arm(m.(acks := None), HandleWriteAck(m.c, m.acks.value.frame, m.acks.value.result))
    case ReceiveMessage(message) =>
      var reply := HandleWorkerMessage(m.c, message, m.decoded);
      Arm(m.(decoded := if reply.consumed then None else m.decoded, worker := AfterMessage(message, reply.ack)),
          reply.coord)
    case SeeWorkerDone => Arm(m, MaybeReleaseActive(MarkWorkerDone(m.c)))
    case SeeDecoderDone => Arm(m, m.c.(decoderStopped := On))
    case SeeWriterDone => Arm(m, HandleWriterStopped(m.c))
    case SeeExternalCancel => Arm(m, BeginGraceful(m.c, Interrupted))
    case SeeCancelTimer => Arm(m, HandleCancelTimeout(m.c, m.worker.Exited?))
    case SeeShutdownTimer => Arm(m, HandleShutdownTimer(m.c))
    case _ => m
  }

  /** The moves of the goroutines around the coordinator. */
  function Environment(m: Machine, step: Step): Machine
    requires Enabled(m, step)
  {
    match step
    case DecoderDelivers(result) =>
      m.(decoded := Some(result), decoder := if result.InputFrame? then DecoderIdle else DecoderGone)
    case WriterWrites(outcome) =>
      m.(acks := Some(Acked(m.writer.frame, outcome)), writer := if outcome.Broken? then WriterGone else WriterIdle)
    case WorkerResumes => m.(worker := if m.worker.granted then InEffect else Working)
    case EffectEnds(applied) => m.(worker := Finishing(applied))
    case WorkerGivesUp => m.(worker := if m.worker.Working? then Exiting else Working)
    case WorkerExits => m.(worker := Exited)
    case _ => m
  }

  predicate IsEnvironment(step: Step) {
    step.DecoderDelivers? || step.WriterWrites? || step.WorkerResumes? || step.EffectEnds?
    || step.WorkerGivesUp? || step.WorkerExits?
  }

  function Move(m: Machine, step: Step): Machine
    requires Enabled(m, step)
  {
    if IsEnvironment(step) then Environment(m, step) else LoopTop(Select(m, step))
  }

  function Record(h: History, m: Machine, step: Step): History
    requires Enabled(m, step)
  {
    match step
    case SendFrame => h.(accepted := h.accepted + [m.c.pending.value])
    case WriterWrites(outcome) => if outcome.Written? then h.(written := h.written + [m.writer.frame]) else h
    case EffectEnds(applied) =>
      if applied && m.c.active.Some? then h.(applied := h.applied + [m.c.active.value.request.id]) else h
    case _ =>
      var lastId := Select(m, step).c.lastId;
      if lastId != m.c.lastId then h.(received := h.received + [lastId]) else h
  }

  function Apply(s: System, step: Step): System
    requires Enabled(s.m, step)
  {
    System(Move(s.m, step), Record(s.h, s.m, step))
  }

  // ---------------------------------------------------------------- runs

  predicate IsRun(s: System, steps: seq<Step>)
    decreases |steps|
  {
    steps == [] || (Enabled(s.m, steps[0]) && IsRun(Apply(s, steps[0]), steps[1..]))
  }

  function After(s: System, steps: seq<Step>): System
    requires IsRun(s, steps)
    decreases |steps|
  {
    if steps == [] then s else After(Apply(s, steps[0]), steps[1..])
  }

  ghost predicate Reachable(s: System) { exists steps :: IsRun(START, steps) && After(START, steps) == s }
}
