/**
  What holds of the coordinator and the goroutines around it in every reachable state.

  `Control` holds between an arm and the next loop top too; `Settled` is what the loop top adds.
*/
module SessionControl {
  import opened Wire
  import opened Session
  import opened SessionSystem

  // ---------------------------------------------------------------- vocabulary

  function FrameId(f: Frame): Option<nat> {
    match f
    case Started(id) => Some(id)
    case Rejected(id) => Some(id)
    case Provisional(id, _) => Some(id)
    case SuccessItem(id, _) => Some(id)
    case Terminal(id, _, _) => Some(id)
    case _ => None
  }

  function SequenceOf(f: Frame): nat {
    match f
    case Started(_) => 1
    case Provisional(_, sequence) => sequence
    case SuccessItem(_, sequence) => sequence
    case Terminal(_, sequence, _) => sequence
    case _ => 0
  }

  predicate IsTransport(shutdown: Option<Shutdown>) { shutdown.Some? && shutdown.value.mode.Transport? }

  predicate IsFatal(shutdown: Option<Shutdown>) { shutdown.Some? && shutdown.value.mode.Fatal? }

  /** A failing shutdown: fatal or transport. */
  predicate Failing(shutdown: Option<Shutdown>) { shutdown.Some? && !shutdown.value.mode.Graceful? }

  predicate TimedOut(shutdown: Option<Shutdown>) { shutdown.Some? && shutdown.value.timedOut.On? }

  predicate Open(shutdown: Option<Shutdown>) { !Failing(shutdown) && !TimedOut(shutdown) }

  predicate FatalQueued(shutdown: Option<Shutdown>) { Failing(shutdown) && shutdown.value.fatalQueued.On? }

  predicate InsideEffect(w: WorkerAt) { w == BeginAnswered(true) || w.InEffect? || w.Finishing? }

  predicate Handshake(f: Frame) { f.Hello? || f.Ready? || f.FatalError? }

  predicate InOneSlot(pending: Option<Frame>, inflight: Option<Frame>, f: Frame) {
    (pending == Some(f) && inflight.None?) || (pending.None? && inflight == Some(f))
  }

  /** A slot holds a frame of the lifecycle of `id` (a rejection is not part of one). */
  predicate Carries(slot: Option<Frame>, id: nat) {
    slot.Some? && FrameId(slot.value) == Some(id) && !slot.value.Rejected?
  }

  // ---------------------------------------------------------------- the invariant, by concern
  // Each part names the components it speaks of, and so is untouched by a change of the others.

  /** One read permit, one decoded frame, one held request. */
  predicate ReaderInv(outstanding: bool, decoder: DecoderAt, decoded: Option<Decoded>, held: Option<Request>,
                      phase: Phase) {
    && (outstanding <==> decoder.Reading? || decoded.Some?)
    && !(decoder.Reading? && decoded.Some?)
    && (outstanding ==> held.None? && (phase.Bootstrapping? || phase.Serving?))
  }

  predicate HeldInv(held: Option<Request>, shutdown: Option<Shutdown>, phase: Phase, lastId: nat) {
    held.Some? ==> shutdown.None? && phase.Serving? && 0 < held.value.id <= lastId
  }

  /** The in-flight frame is with the writer or in its acknowledgement. */
  predicate WriterInv(inflight: Option<Frame>, acks: Option<Acked>, writer: WriterAt) {
    && (inflight.None? ==> acks.None? && !writer.Writing?)
    && (inflight.Some? ==>
          || (writer == Writing(inflight.value) && acks.None?)
          || (acks.Some? && acks.value.frame == inflight.value && !writer.Writing?))
    && (acks.Some? ==> (acks.value.result.Broken? <==> writer.WriterGone?))
  }

  /** The writer leaves only after a failed write, and nothing is in flight from then on. */
  predicate OutputInv(shutdown: Option<Shutdown>, inflight: Option<Frame>, acks: Option<Acked>, writer: WriterAt,
                      stopped: bool) {
    && (writer.WriterGone? ==> acks.Some? || IsTransport(shutdown))
    && (stopped ==> writer.WriterGone?)
    && (IsTransport(shutdown) ==> (writer.WriterGone? && inflight.None?) || TimedOut(shutdown))
  }

  predicate PhaseInv(phase: Phase, active: Option<Active>, lastId: nat) {
    !phase.Serving? ==> active.None? && lastId == 0
  }

  predicate WorkerInv(worker: WorkerAt, a: Active) {
    && !a.terminalWrote.On?
    && (!a.workerStarted.On? ==>
          worker.Absent? && !a.committed.On? && !a.EffectProtected() && a.sequence == 1
              && (a.workerDone.On? ==> a.abandoned.On?))
    && (a.workerStarted.On? ==> !worker.Absent?)
    && (a.workerStarted.On? && a.workerDone.On? ==> worker.Exited?)
    && (a.committed.On? ==> worker.Exiting? || worker.Exited?)
    && (worker.Exiting? || worker.Exited? ==> a.committed.On? || a.outcomeCanceled.On?)
    && (a.effectCommitting.On? <==> InsideEffect(worker))
  }

  /** The arbitration between effects, cancellation and shutdown. */
  predicate EffectInv(shutdown: Option<Shutdown>, a: Active) {
    && !(a.effectCommitting.On? && a.effectCommitted.On?)
    && (a.EffectProtected() && !a.workerDone.On? ==> !a.opCanceled.On? && !a.outcomeCanceled.On? && !a.abandoned.On?)
    && (a.opCanceled.On? && shutdown.None? ==> a.cancelAsked.On? && !a.EffectProtected())
    && (a.cancelTimer.On? ==> a.cancelAsked.On? && !a.EffectProtected() && !a.workerDone.On?)
    && (shutdown.None? && a.cancelAsked.On? && !a.effectCommitting.On? && !a.workerDone.On? ==>
        a.cancelTimer.On? && a.opCanceled.On?)
    && (a.effectCommitted.On? ==> !a.cancelAsked.On?)
    && (a.outcomeCanceled.On? ==> a.abandoned.On? || TimedOut(shutdown))
    && (a.abandoned.On? ==> Failing(shutdown))
  }

  /** A committed success always fits in the sequence numbers that are left. */
  predicate CursorInv(a: Active) {
    && 1 <= a.sequence <= MAX_SAFE_INTEGER
    && (a.success.On? ==> a.committed.On? && !a.cancelAsked.On?)
    && (a.cursor.Some? ==>
          && a.success.On?
          && a.cursor.value.emitted < a.cursor.value.frames
          && a.sequence + (a.cursor.value.frames - a.cursor.value.emitted) <= MAX_SAFE_INTEGER)
  }

  predicate ActiveInv(active: Option<Active>, worker: WorkerAt, shutdown: Option<Shutdown>, phase: Phase, lastId: nat) {
    match active
    case None => worker.Absent?
    case Some(a) =>
      phase.Serving? && 0 < a.request.id <= lastId && WorkerInv(worker, a) && EffectInv(shutdown, a) && CursorInv(a)
  }

  /** Shutdown is bounded by a timer or waits for an effect, and the active request is winding up. */
  predicate ShutdownInv(shutdown: Option<Shutdown>, active: Option<Active>) {
    shutdown.Some? ==>
      && (shutdown.value.timer.On? || shutdown.value.timedOut.On? || EffectInFlight(active))
      && (shutdown.value.timedOut.On? ==> !EffectInFlight(active))
      && (if shutdown.value.mode.Graceful? then
            && !shutdown.value.fatalQueued.On?
            && !shutdown.value.fatalWritten.On?
            && (active.Some? ==>
                  active.value.cancelAsked.On? || active.value.committed.On? || active.value.EffectProtected())
          else
            active.Some? ==>
              && (active.value.abandoned.On? || active.value.EffectProtected())
              && (shutdown.value.mode.Fatal? ==> active.value.cursor.None?))
  }

  predicate FatalInv(shutdown: Option<Shutdown>, pending: Option<Frame>, inflight: Option<Frame>) {
    && (pending.Some? && pending.value.FatalError? ==> FatalQueued(shutdown))
    && (inflight.Some? && inflight.value.FatalError? ==> FatalQueued(shutdown) && IsFatal(shutdown) && pending.None?)
    && (IsFatal(shutdown) && pending.Some? ==> pending.value.FatalError?)
  }

  /** A frame in a slot belongs to the phase, or to the active request. */
  predicate SlotInv(slot: Option<Frame>, phase: Phase, lastId: nat, active: Option<Active>) {
    slot.Some? ==>
      match slot.value
      case Hello => phase.AwaitHello?
      case Ready => phase.AwaitReady?
      case FatalError(_, _) => true
      case Rejected(id) => phase.Serving? && 0 < id <= lastId
      case Started(id) => Owns(active, id) && !active.value.workerStarted.On?
      case Provisional(id, sequence) => Owns(active, id) && sequence >= 2
      case SuccessItem(id, sequence) => Owns(active, id) && sequence >= 2
      case Terminal(id, sequence, outcome) =>
        && Owns(active, id)
        && sequence >= 2
        && active.value.committed.On?
        && active.value.cursor.None?
        && (outcome == Canceled(true) <==> active.value.cancelAsked.On?)
  }

  predicate Owns(active: Option<Active>, id: nat) { active.Some? && active.value.request.id == id }

  predicate SlotsInv(pending: Option<Frame>, inflight: Option<Frame>, active: Option<Active>) {
    && (inflight.Some? && inflight.value.Terminal? ==> active.Some? && active.value.workerDone.On?)
    && (inflight.Some? && (inflight.value.Terminal? || Handshake(inflight.value)) && pending.Some? ==>
          pending.value.FatalError?)
    && (inflight.Some? && inflight.value.Started? && pending.Some? ==> !pending.value.Started?)
    && (active.Some? && Carries(pending, active.value.request.id) ==>
        SequenceOf(pending.value) == active.value.sequence)
  }

  /** What is on its way while no failing shutdown has begun: the handshake frame of the phase, or
      the next thing the active request owes its client. */
  predicate OpenInv(
    shutdown: Option<Shutdown>, phase: Phase, pending: Option<Frame>, inflight: Option<Frame>, active: Option<Active>)
  {
    && (shutdown.None? ==>
          match phase
          case AwaitHello => InOneSlot(pending, inflight, Hello)
          case Bootstrapping => pending.None? && inflight.None?
          case AwaitReady => InOneSlot(pending, inflight, Ready)
          case Serving =>
            (pending.Some? ==> !Handshake(pending.value)) && (inflight.Some? ==> !Handshake(inflight.value)))
    && (Open(shutdown) && active.Some? ==>
          && (!active.value.workerStarted.On? ==>
                pending == Some(Started(active.value.request.id)) || inflight == Some(Started(active.value.request.id)))
          && (active.value.committed.On? ==>
                active.value.cursor.Some? || (pending.Some? && pending.value.Terminal?)
                || (inflight.Some? && inflight.value.Terminal?)))
  }

  predicate Core(m: Machine) {
    && ReaderInv(m.c.readOutstanding.On?, m.decoder, m.decoded, m.c.held, m.c.phase)
    && HeldInv(m.c.held, m.c.shutdown, m.c.phase, m.c.lastId)
    && WriterInv(m.c.inflight, m.acks, m.writer)
    && OutputInv(m.c.shutdown, m.c.inflight, m.acks, m.writer, m.c.writerStopped.On?)
    && PhaseInv(m.c.phase, m.c.active, m.c.lastId)
    && ActiveInv(m.c.active, m.worker, m.c.shutdown, m.c.phase, m.c.lastId)
    && ShutdownInv(m.c.shutdown, m.c.active)
    && FatalInv(m.c.shutdown, m.c.pending, m.c.inflight)
    && SlotInv(m.c.pending, m.c.phase, m.c.lastId, m.c.active)
    && SlotInv(m.c.inflight, m.c.phase, m.c.lastId, m.c.active)
    && SlotsInv(m.c.pending, m.c.inflight, m.c.active)
    && (m.c.shutdown.Some? ==> m.c.inputClosed.On?)
    && !m.c.overwritten.On?
  }

  predicate Control(m: Machine) {
    Core(m) && OpenInv(m.c.shutdown, m.c.phase, m.c.pending, m.c.inflight, m.c.active)
  }

  predicate Settled(m: Machine) {
    && (m.finished.On? <==> ShouldFinish(m.c))
    && (m.c.pending.None? ==>
          && (m.c.held.Some? ==> TerminalWriteInFlight(m.c))
          && (m.c.active.Some? && Open(m.c.shutdown) ==> m.c.active.value.cursor.None?)
          && (IsFatal(m.c.shutdown) ==> m.c.shutdown.value.fatalQueued.On?))
  }

  predicate Inv(m: Machine) { Control(m) && Settled(m) }

  // ---------------------------------------------------------------- every step keeps it

  lemma EnvironmentKeeps(m: Machine, step: Step)
    requires Inv(m) && Enabled(m, step) && IsEnvironment(step)
    ensures Inv(Environment(m, step))
  {}

  lemma SendFrameKeeps(m: Machine)
    requires Inv(m) && Enabled(m, SendFrame)
    ensures Control(Select(m, SendFrame))
  {}

  lemma GrantReadKeeps(m: Machine)
    requires Inv(m) && Enabled(m, GrantRead)
    ensures Control(Select(m, GrantRead))
  {}

  lemma GracefulKeeps(m: Machine, result: SessionError)
    requires Control(m)
    ensures Control(Arm(m, BeginGraceful(m.c, result)))
  {
    var d := BeginGraceful(m.c, result);
    if m.c.shutdown.None? {
      if m.c.active.Some? {
        assert ActiveInv(d.active, m.worker, d.shutdown, d.phase, d.lastId);
        assert SlotInv(d.pending, d.phase, d.lastId, d.active);
        assert SlotInv(d.inflight, d.phase, d.lastId, d.active);
      } else {
        assert d.active == m.c.active;
      }
    }
  }

  /** A fatal shutdown is sound from any state, whatever the open session still owed. */
  lemma FatalKeeps(m: Machine, result: SessionError, kind: ProtocolKind)
    requires Core(m)
    ensures Control(Arm(m, BeginFatal(m.c, result, kind)))
  {
    if !Failing(m.c.shutdown) {
      var d := BeginFatal(m.c, result, kind);
      if m.c.active.Some? {
        FailedActive(m, d.shutdown);
        assert d.active == FailActive(m.c.active, true);
      } else {
        assert d.active == m.c.active;
      }
    }
  }

  /** Failing the active request under a new fatal shutdown keeps what is asked of it. */
  lemma FailedActive(m: Machine, shutdown: Option<Shutdown>)
    requires Core(m) && !Failing(m.c.shutdown) && m.c.active.Some?
    requires IsFatal(shutdown) && !shutdown.value.timedOut.On? && !shutdown.value.fatalQueued.On?
    requires !shutdown.value.fatalWritten.On? && shutdown.value.timer == Mark(!EffectInFlight(m.c.active))
    ensures ActiveInv(FailActive(m.c.active, true), m.worker, shutdown, m.c.phase, m.c.lastId)
    ensures SlotInv(m.c.inflight, m.c.phase, m.c.lastId, FailActive(m.c.active, true))
    ensures ShutdownInv(shutdown, FailActive(m.c.active, true))
  {}

  predicate SameButTimer(x: Option<Shutdown>, y: Option<Shutdown>) {
    if x.None? then y.None? else y.Some? && y.value == x.value.(timer := y.value.timer)
  }

  /** Two views of one request that differ at most in its cancel and effect flags. */
  predicate SameCourse(a: Active, b: Active) {
    && a.request == b.request && a.sequence == b.sequence && a.workerStarted == b.workerStarted
    && a.workerDone == b.workerDone && a.committed == b.committed && a.cursor == b.cursor
    && (a.committed.On? ==> a.cancelAsked == b.cancelAsked)
  }

  /** The cancel and effect flags may change as long as what the slots rely on stays. */
  lemma Retouch(m: Machine, n: Machine, a: Active, b: Active)
    requires Control(m) && m.c.active == Some(a)
    requires n == m.(c := m.c.(active := Some(b), shutdown := n.c.shutdown), worker := n.worker)
    requires SameCourse(a, b)
    requires WorkerInv(n.worker, b) && EffectInv(n.c.shutdown, b) && CursorInv(b)
        && ShutdownInv(n.c.shutdown, n.c.active)
    requires SameButTimer(m.c.shutdown, n.c.shutdown)
    ensures Control(n)
  {}

  lemma CancelFlags(c: Coord, id: nat, worker: WorkerAt)
    requires c.shutdown.None? && c.active.Some?
    requires WorkerInv(worker, c.active.value) && EffectInv(None, c.active.value) && CursorInv(c.active.value)
    ensures var b := HandleCancel(c, id).active;
            && b.Some?
            && HandleCancel(c, id) == c.(active := b)
            && WorkerInv(worker, b.value) && EffectInv(None, b.value) && CursorInv(b.value)
            && SameCourse(c.active.value, b.value)
  {
    if HandleCancel(c, id) == c {
    } else if c.active.value.effectCommitting.On? {
    } else {
      assert !c.active.value.cancelTimer.On?;
    }
  }

  lemma CancelKeeps(m: Machine, id: nat)
    requires Control(m) && m.c.shutdown.None?
    ensures Control(Arm(m, HandleCancel(m.c, id)))
  {
    if m.c.active.Some? {
      CancelFlags(m.c, id, m.worker);
      Retouch(m, Arm(m, HandleCancel(m.c, id)), m.c.active.value, HandleCancel(m.c, id).active.value);
    }
  }

  /** A request is started or refused into an empty pending slot. */
  lemma ProcessKeeps(m: Machine, request: Request)
    requires Control(m) && m.c.shutdown.None? && m.c.phase.Serving? && 0 < request.id <= m.c.lastId
    requires m.c.pending.None? && !TerminalWriteInFlight(m.c)
    ensures Control(Arm(m, ProcessRequest(m.c, request)))
  {
    var n := Arm(m, ProcessRequest(m.c, request));
    if m.c.active.Some? {
      assert n.c == m.c.(pending := Some(Rejected(request.id)));
    } else {
      assert n.c == m.c.(pending := Some(Started(request.id)), active := n.c.active);
      assert ActiveInv(n.c.active, n.worker, n.c.shutdown, n.c.phase, n.c.lastId);
    }
  }

  lemma RaiseLastId(m: Machine, id: nat)
    requires Control(m) && m.c.phase.Serving? && m.c.lastId < id
    ensures Control(m.(c := m.c.(lastId := id)))
  {}

  lemma HoldKeeps(m: Machine, request: Request, busy: bool)
    requires Control(m) && m.c.shutdown.None? && m.c.phase.Serving? && 0 < request.id <= m.c.lastId
    requires m.c.held.None? && !m.c.readOutstanding.On?
    ensures Control(Arm(m, Hold(m.c, request, busy)))
  {}

  lemma RequestKeeps(m: Machine, request: Request)
    requires Control(m) && m.c.shutdown.None? && m.c.phase.Serving? && m.c.held.None? && !m.c.readOutstanding.On?
    ensures Control(Arm(m, HandleRequest(m.c, request)))
  {
    if request.id <= m.c.lastId {
      FatalKeeps(m, ProtocolFailure, Violation);
    } else {
      RaiseLastId(m, request.id);
      var n := m.(c := m.c.(lastId := request.id));
      if m.c.pending.Some? {
        HoldKeeps(n, request, m.c.pending.value.Terminal?);
      } else if TerminalWriteInFlight(m.c) {
        HoldKeeps(n, request, false);
      } else {
        ProcessKeeps(n, request);
      }
    }
  }

  lemma DecodedKeeps(m: Machine)
    requires Control(m) && m.decoded.Some?
    ensures Control(Arm(m.(decoded := None), TakeDecoded(m.c, m.decoded.value)))
  {
    var n := m.(decoded := None, c := m.c.(readOutstanding := Off));
    assert Control(n);
    if n.c.shutdown.None? {
      match m.decoded.value
      case InputEnded => GracefulKeeps(n.(c := n.c.(inputClosed := On)), Clean);
      case InputFailed(tooLarge) => FatalKeeps(n, ProtocolFailure, TooLargeOr(tooLarge));
      case InputFrame(bootstrap, client) =>
        match n.c.phase
        case Bootstrapping => BootstrapKeeps(n, bootstrap);
        case Serving => ClientKeeps(n, client);
        case _ => FatalKeeps(n, ProtocolFailure, Violation);
    }
  }

  lemma BootstrapKeeps(m: Machine, frame: BootstrapParse)
    requires Control(m) && m.c.shutdown.None? && m.c.phase.Bootstrapping? && !m.c.readOutstanding.On?
    ensures Control(Arm(m, HandleBootstrapFrame(m.c, frame)))
  {
    match frame
    case Initialize(supported) => if !supported { FatalKeeps(m, ProtocolFailure, UnsupportedProtocol); }
    case Reject => FatalKeeps(m, ProtocolFailure, UnsupportedProtocol);
    case BootstrapOther => FatalKeeps(m, ProtocolFailure, Violation);
    case BootstrapInvalid(tooLarge) => FatalKeeps(m, ProtocolFailure, TooLargeOr(tooLarge));
  }

  lemma ClientKeeps(m: Machine, frame: ClientParse)
    requires Control(m) && m.c.shutdown.None? && m.c.phase.Serving? && m.c.held.None? && !m.c.readOutstanding.On?
    ensures Control(Arm(m, HandleClientFrame(m.c, frame)))
  {
    match frame
    case Cancel(id) => CancelKeeps(m, id);
    case NewRequest(request) => RequestKeeps(m, request);
    case ClientOther => FatalKeeps(m, ProtocolFailure, Violation);
    case ClientInvalid(tooLarge) => FatalKeeps(m, ProtocolFailure, TooLargeOr(tooLarge));
  }

  // ---------------------------------------------------------------- acknowledgements

  /** The state with its acknowledgement taken and the in-flight slot emptied. */
  function Acknowledged(m: Machine): Machine { m.(acks := None, c := m.c.(inflight := None)) }

  lemma BrokenKeeps(m: Machine)
    requires Inv(m) && Enabled(m, ReceiveAck) && m.acks.value.result.Broken?
    ensures Control(Select(m, ReceiveAck))
  {}

  lemma AcknowledgedCore(m: Machine)
    requires Control(m) && m.acks.Some? && !m.acks.value.result.Broken?
    ensures Core(Acknowledged(m))
  {}

  lemma WrittenKeeps(m: Machine)
    requires Inv(m) && Enabled(m, ReceiveAck) && m.acks.value.result.Written?
    ensures Control(Arm(Acknowledged(m), HandleWritten(Acknowledged(m).c, m.acks.value.frame)))
  {
    AcknowledgedCore(m);
    var f := m.acks.value.frame;
    if f.Terminal? {
      TerminalWrittenKeeps(m);
    } else if f.Started? {
      StartedWrittenKeeps(m);
    } else {
      OtherWrittenKeeps(m);
    }
  }

  lemma OtherWrittenKeeps(m: Machine)
    requires Inv(m) && Enabled(m, ReceiveAck) && m.acks.value.result.Written?
    requires !m.acks.value.frame.Terminal? && !m.acks.value.frame.Started?
    ensures Control(Arm(Acknowledged(m), HandleWritten(Acknowledged(m).c, m.acks.value.frame)))
  {}

  /** A written terminal releases its request. */
  lemma TerminalWrittenKeeps(m: Machine)
    requires Inv(m) && Enabled(m, ReceiveAck) && m.acks.value == Acked(m.acks.value.frame, Written)
    requires m.acks.value.frame.Terminal?
    ensures Select(m, ReceiveAck).c == m.c.(inflight := None, active := None)
    ensures Control(Select(m, ReceiveAck))
  {}

  lemma StartedWrittenKeeps(m: Machine)
    requires Inv(m) && Enabled(m, ReceiveAck) && m.acks.value == Acked(m.acks.value.frame, Written)
    requires m.acks.value.frame.Started?
    ensures Control(Select(m, ReceiveAck))
  {}

  lemma ReceiveAckKeeps(m: Machine)
    requires Inv(m) && Enabled(m, ReceiveAck)
    ensures Control(Select(m, ReceiveAck))
  {
    match m.acks.value.result
    case Broken => BrokenKeeps(m);
    case CodecRejected =>
      AcknowledgedCore(m);
      FatalKeeps(Acknowledged(m), InternalFailure, Internal);
    case Written => WrittenKeeps(m);
  }

  // ---------------------------------------------------------------- worker messages

  lemma BeginKeeps(m: Machine)
    requires Control(m) && m.worker.Working?
    ensures var reply := AnswerBegin(m.c);
            Control(Arm(m.(worker := BeginAnswered(reply.ack == Granted)), reply.coord))
  {}

  /** A failed effect under a failing shutdown: the request is given up. */
  lemma AbandonKeeps(m: Machine)
    requires Control(m) && m.worker == Finishing(false) && m.c.active.Some? && Failing(m.c.shutdown)
    requires !TimedOut(m.c.shutdown)
    ensures Control(Arm(m.(worker := Working), AnswerFinish(m.c, false).coord))
  {}

  lemma FinishKeeps(m: Machine)
    requires Control(m) && m.worker.Finishing? && m.c.active.Some? && !TimedOut(m.c.shutdown)
    ensures Control(Arm(m.(worker := Working), AnswerFinish(m.c, m.worker.applied).coord))
  {
    if !m.worker.applied && Failing(m.c.shutdown) {
      AbandonKeeps(m);
    } else {
      FinishFlags(m.c, m.worker.applied);
      var d := AnswerFinish(m.c, m.worker.applied).coord;
      Retouch(m, Arm(m.(worker := Working), d), m.c.active.value, d.active.value);
    }
  }

  lemma FinishFlags(c: Coord, applied: bool)
    requires c.active.Some? && c.active.value.effectCommitting.On? && (applied || !Failing(c.shutdown))
    requires !TimedOut(c.shutdown)
    requires WorkerInv(Finishing(applied), c.active.value) && EffectInv(c.shutdown, c.active.value)
    requires CursorInv(c.active.value) && ShutdownInv(c.shutdown, c.active)
    ensures var d := AnswerFinish(c, applied).coord;
            && d.active.Some?
            && d == c.(active := d.active, shutdown := d.shutdown)
            && SameButTimer(c.shutdown, d.shutdown)
            && ShutdownInv(d.shutdown, d.active)
            && WorkerInv(Working, d.active.value) && EffectInv(d.shutdown, d.active.value) && CursorInv(d.active.value)
            && SameCourse(c.active.value, d.active.value)
  {
    if applied {
    } else if c.shutdown.Some? {
    } else if c.active.value.cancelAsked.On? {
    }
  }

  lemma ProvisionalKeeps(m: Machine)
    requires Inv(m) && Enabled(m, ReceiveMessage(ProvisionalMessage))
    ensures Control(Select(m, ReceiveMessage(ProvisionalMessage)))
  {
    if !Failing(m.c.shutdown) {
      NumberedKeeps(m, NumberedProvisional);
    }
  }

  /** What the next numbered frame may be. */
  predicate Fits(n: Numbered, a: Active) {
    match n
    case NumberedProvisional => a.workerStarted.On? && !a.committed.On?
    case NumberedItem => false
    case NumberedTerminal(outcome) =>
      a.committed.On? && !a.success.On? && a.cursor.None? && (outcome == Canceled(true) <==> a.cancelAsked.On?)
  }

  lemma NumberedKeeps(m: Machine, n: Numbered)
    requires Core(m) && m.c.active.Some? && Fits(n, m.c.active.value) && m.c.active.value.workerStarted.On?
    requires m.c.pending.None? && !TerminalWriteInFlight(m.c)
    requires m.c.inflight.Some? ==> !Handshake(m.c.inflight.value)
    requires !Failing(m.c.shutdown)
    ensures Control(Arm(m, QueueNumbered(m.c, n)))
  {
    if !HasSequence(m.c) {
      FatalKeeps(m, InternalFailure, Internal);
    }
  }

  /** The request with its outcome committed, before the terminal is queued. */
  function Committed(m: Machine): Machine
    requires m.c.active.Some?
  {
    m.(c := m.c.(active := Some(m.c.active.value.(committed := On))), worker := Exiting)
  }

  lemma CommittedCore(m: Machine)
    requires Inv(m) && CanReceive(m.c) && m.worker.Working?
    ensures Core(Committed(m))
    ensures !TerminalWriteInFlight(m.c) && !m.c.active.value.success.On? && m.c.active.value.cursor.None?
    ensures Failing(m.c.shutdown) ==> Control(Committed(m)) && m.c.active.value.EffectProtected()
    ensures !Failing(m.c.shutdown) ==>
              m.c.pending.None? && (m.c.inflight.Some? ==> !Handshake(m.c.inflight.value))
  {}

  lemma SuccessKeeps(m: Machine, frames: nat)
    requires Inv(m) && CanReceive(m.c) && m.worker.Working? && !Failing(m.c.shutdown)
    requires !m.c.active.value.cancelAsked.On? && 1 <= frames && m.c.active.value.sequence + frames <= MAX_SAFE_INTEGER
    ensures var a := m.c.active.value.(committed := On, success := On, cursor := Some(Cursor(frames, 0)));
            Control(m.(c := m.c.(active := Some(a)), worker := Exiting))
  {}

  lemma OutcomeKeeps(m: Machine, message: Message)
    requires Inv(m) && Enabled(m, ReceiveMessage(message)) && message.OutcomeMessage?
    ensures Control(Select(m, ReceiveMessage(message)))
  {
    CommittedCore(m);
    var a := m.c.active.value;
    if Failing(m.c.shutdown) {
    } else if a.cancelAsked.On? {
      NumberedKeeps(Committed(m), NumberedTerminal(Canceled(true)));
    } else if message.frameCount.Some? {
      PlanKeeps(m, message);
    } else {
      NumberedKeeps(Committed(m), NumberedTerminal(if message.canceled then Canceled(false) else Failed));
    }
  }

  lemma PlanKeeps(m: Machine, message: Message)
    requires Inv(m) && Enabled(m, ReceiveMessage(message)) && message.OutcomeMessage? && message.frameCount.Some?
    requires !Failing(m.c.shutdown) && !m.c.active.value.cancelAsked.On?
    ensures Control(Select(m, ReceiveMessage(message)))
  {
    CommittedCore(m);
    if m.c.active.value.sequence > MAX_SAFE_INTEGER - message.frameCount.value {
      NumberedKeeps(Committed(m), NumberedTerminal(Failed));
    } else {
      SuccessKeeps(m, message.frameCount.value);
    }
  }

  lemma BeginMessageKeeps(m: Machine)
    requires Inv(m) && Enabled(m, ReceiveMessage(EffectMessage(Begin, false)))
    ensures Control(Select(m, ReceiveMessage(EffectMessage(Begin, false))))
  {
    if m.decoded.Some? {
      DecodedKeeps(m);
      var n := Arm(m.(decoded := None), TakeDecoded(m.c, m.decoded.value));
      BeginKeeps(n);
    } else {
      BeginKeeps(m);
    }
  }

  lemma ReceiveMessageKeeps(m: Machine, message: Message)
    requires Inv(m) && Enabled(m, ReceiveMessage(message))
    ensures Control(Select(m, ReceiveMessage(message)))
  {
    if message.OutcomeMessage? {
      OutcomeKeeps(m, message);
    } else if message == ProvisionalMessage {
      ProvisionalKeeps(m);
    } else if message == EffectMessage(Begin, false) {
      BeginMessageKeeps(m);
    } else {
      FinishKeeps(m);
    }
  }

  lemma WorkerDoneFlags(c: Coord, worker: WorkerAt)
    requires c.active.Some? && c.active.value.workerStarted.On? && !c.active.value.workerDone.On? && worker.Exited?
    requires WorkerInv(worker, c.active.value) && EffectInv(c.shutdown, c.active.value) && CursorInv(c.active.value)
    requires ShutdownInv(c.shutdown, c.active)
    ensures var d := MarkWorkerDone(c);
            && d.active == Some(c.active.value.(workerDone := On, cancelTimer := Off))
            && d == c.(active := d.active, shutdown := d.shutdown)
            && SameButTimer(c.shutdown, d.shutdown)
            && WorkerInv(worker, d.active.value) && EffectInv(d.shutdown, d.active.value)
            && ShutdownInv(d.shutdown, d.active)
  {}

  lemma SeeWorkerDoneKeeps(m: Machine)
    requires Inv(m) && Enabled(m, SeeWorkerDone)
    ensures Control(Select(m, SeeWorkerDone))
  {
    WorkerDoneFlags(m.c, m.worker);
    var d := MarkWorkerDone(m.c);
    assert MaybeReleaseActive(d) == d;
    assert SlotInv(d.pending, d.phase, d.lastId, d.active);
    assert SlotInv(d.inflight, d.phase, d.lastId, d.active);
  }

  lemma SeeWriterDoneKeeps(m: Machine)
    requires Inv(m) && Enabled(m, SeeWriterDone)
    ensures Control(Select(m, SeeWriterDone))
  {}

  lemma CancelTimerKeeps(m: Machine)
    requires Inv(m) && Enabled(m, SeeCancelTimer)
    ensures Control(Select(m, SeeCancelTimer))
  {}

  lemma ShutdownTimerKeeps(m: Machine)
    requires Inv(m) && Enabled(m, SeeShutdownTimer)
    ensures Control(Select(m, SeeShutdownTimer))
  {
    if EffectInFlight(m.c.active) {
      Retouch(m, Select(m, SeeShutdownTimer), m.c.active.value, m.c.active.value);
    } else {
      TimeoutKeeps(m);
    }
  }

  lemma TimeoutKeeps(m: Machine)
    requires Inv(m) && Enabled(m, SeeShutdownTimer) && !EffectInFlight(m.c.active)
    ensures Control(Select(m, SeeShutdownTimer))
  {}

  // ---------------------------------------------------------------- the loop top

  lemma HeldRequestKeeps(m: Machine)
    requires Control(m) && m.c.pending.None? && m.c.shutdown.None? && m.c.held.Some? && !TerminalWriteInFlight(m.c)
    ensures Control(m.(c := FillPending(m.c)))
  {
    var n := m.(c := m.c.(held := None, heldBusy := Off));
    if !m.c.heldBusy.On? {
      ProcessKeeps(n, m.c.held.value);
    }
  }

  lemma NextSuccessKeeps(m: Machine)
    requires Control(m) && m.c.pending.None? && m.c.active.Some? && m.c.active.value.cursor.Some?
    requires !IsFatal(m.c.shutdown)
    ensures Control(m.(c := QueueNextSuccess(m.c)))
  {}

  lemma FillPendingKeeps(m: Machine)
    requires Control(m)
    ensures Control(m.(c := FillPending(m.c)))
  {
    if m.c.pending.Some? {
    } else if IsFatal(m.c.shutdown) && !m.c.shutdown.value.fatalQueued.On? {
      assert FillPending(m.c).pending.value.FatalError?;
    } else if m.c.shutdown.None? && m.c.held.Some? && !TerminalWriteInFlight(m.c) {
      HeldRequestKeeps(m);
    } else if m.c.active.Some? && m.c.active.value.cursor.Some? && !m.c.active.value.abandoned.On? {
      NextSuccessKeeps(m);
    }
  }

  lemma LoopTopSettles(m: Machine)
    requires Control(m)
    ensures Inv(LoopTop(m))
  {
    FillPendingKeeps(m);
  }

  lemma MoveKeeps(m: Machine, step: Step)
    requires Inv(m) && Enabled(m, step)
    ensures Inv(Move(m, step))
  {
    if IsEnvironment(step) {
      EnvironmentKeeps(m, step);
    } else {
      SelectKeeps(m, step);
      LoopTopSettles(Select(m, step));
    }
  }

  lemma SelectKeeps(m: Machine, step: Step)
    requires Inv(m) && Enabled(m, step) && !IsEnvironment(step)
    ensures Control(Select(m, step))
  {
    match step
    case SendFrame => SendFrameKeeps(m);
    case GrantRead => GrantReadKeeps(m);
    case ReceiveDecoded => DecodedKeeps(m);
    case ReceiveAck => ReceiveAckKeeps(m);
    case ReceiveMessage(message) => ReceiveMessageKeeps(m, message);
    case SeeWorkerDone => SeeWorkerDoneKeeps(m);
    case SeeDecoderDone =>
    case SeeWriterDone => SeeWriterDoneKeeps(m);
    case SeeExternalCancel => GracefulKeeps(m, Interrupted);
    case SeeCancelTimer => CancelTimerKeeps(m);
    case SeeShutdownTimer => ShutdownTimerKeeps(m);
  }
}
