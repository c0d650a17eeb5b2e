/**
  What a request's frames say against what its worker reported.

  A run is followed by a record of its own: the outcome that each request reported, taken from the
  step that hands the report over and from nothing the coordinator does with it.
*/
module SessionOutcomes {
  import opened Wire
  import opened Session
  import opened SessionSystem
  import opened SessionControl
  import opened SessionTheorems

  /** An outcome as it was reported: a plan of so many frames, the operation's own cancellation, or a failure;
      whether a cancel stood against the request then; and the last sequence number used before. */
  datatype Report = Report(plan: Option<nat>, canceled: bool, asked: bool, sequence: nat)

  type Reports = map<nat, Report>

  /** What a report is to be answered with.  A plan has to fit into the sequence numbers that are left. */
  function Verdict(r: Report): Outcome {
    if r.asked then Canceled(true)
    else
      match r.plan
      case None => if r.canceled then Canceled(false) else Failed
      case Some(frames) => if r.sequence + frames <= MAX_SAFE_INTEGER then Completed else Failed
  }

  /** The sequence number of the terminal: after all frames of a plan, of which it is the last, or at once. */
  function EndOf(r: Report): nat {
    if Verdict(r).Completed? && r.plan.Some? then r.sequence + r.plan.value else r.sequence + 1
  }

  /** What a frame may say, given the reports. */
  predicate FrameTold(f: Frame, reports: Reports) {
    match f
    case Provisional(id, sequence) => id in reports ==> sequence <= reports[id].sequence
    case SuccessItem(id, sequence) =>
      id in reports && Verdict(reports[id]).Completed? && reports[id].sequence < sequence < EndOf(reports[id])
    case Terminal(id, sequence, outcome) =>
      id in reports && outcome == Verdict(reports[id]) && sequence == EndOf(reports[id])
    case _ => true
  }

  predicate SlotTold(slot: Option<Frame>, reports: Reports) { slot.Some? ==> FrameTold(slot.value, reports) }

  predicate AllTold(accepted: seq<Frame>, reports: Reports) {
    forall k :: 0 <= k < |accepted| ==> FrameTold(accepted[k], reports)
  }

  /** The reports so far, when the run has taken one more step. */
  function Reported(reports: Reports, m: Machine, step: Step): Reports
    requires Enabled(m, step)
  {
    if step.ReceiveMessage? && step.message.OutcomeMessage? then
      var a := m.c.active.value;
      reports[a.request.id :=
        Report(step.message.frameCount, step.message.canceled, a.cancelAsked.On?, a.sequence)]
    else reports
  }

  function ReportsAfter(s: System, steps: seq<Step>, reports: Reports): Reports
    requires IsRun(s, steps)
    decreases |steps|
  {
    if steps == [] then reports else ReportsAfter(Apply(s, steps[0]), steps[1..], Reported(reports, s.m, steps[0]))
  }

  // ---------------------------------------------------------------- the invariant

  /** The active request has reported exactly when it is committed, and its cursor is that of its plan. */
  predicate ActiveTold(active: Option<Active>, reports: Reports) {
    active.Some? ==>
      var a := active.value;
      && (a.committed.On? <==> a.request.id in reports)
      && (a.cursor.Some? && a.request.id in reports ==>
            var r := reports[a.request.id];
            && Verdict(r).Completed? && r.plan == Some(a.cursor.value.frames)
            && a.sequence == r.sequence + a.cursor.value.emitted)
  }

  /** No frame of the active request is numbered beyond it. */
  predicate Within(accepted: seq<Frame>, active: Option<Active>) {
    active.Some? ==>
      forall k :: 0 <= k < |accepted| && FrameId(accepted[k]) == Some(active.value.request.id) ==>
                    SequenceOf(accepted[k]) <= active.value.sequence
  }

  /** The largest id that anything but the held request may have. */
  function Bound(c: Coord): int { if c.held.Some? then c.held.value.id - 1 else c.lastId }

  predicate IdWithin(slot: Option<Frame>, bound: int) {
    slot.Some? && FrameId(slot.value).Some? ==> FrameId(slot.value).value <= bound
  }

  predicate Known(accepted: seq<Frame>, reports: Reports, bound: int) {
    && (forall k :: 0 <= k < |accepted| && FrameId(accepted[k]).Some? ==> FrameId(accepted[k]).value <= bound)
    && forall id :: id in reports ==> id <= bound
  }

  predicate CoordTold(c: Coord, accepted: seq<Frame>, reports: Reports) {
    && AllTold(accepted, reports) && SlotTold(c.pending, reports)
    && ActiveTold(c.active, reports) && Within(accepted, c.active)
    && Known(accepted, reports, Bound(c)) && IdWithin(c.pending, Bound(c))
    && (c.active.Some? ==> c.active.value.request.id <= Bound(c))
  }

  predicate InflightIsLast(inflight: Option<Frame>, accepted: seq<Frame>) {
    inflight.Some? ==> accepted != [] && accepted[|accepted| - 1] == inflight.value
  }

  predicate Told(s: System, reports: Reports) {
    CoordTold(s.m.c, s.h.accepted, reports) && InflightIsLast(s.m.c.inflight, s.h.accepted)
  }

  // ---------------------------------------------------------------- changes that say nothing

  predicate SameProgress(a: Option<Active>, b: Option<Active>) {
    b.Some? ==>
      && a.Some? && b.value.request.id == a.value.request.id && b.value.sequence == a.value.sequence
      && b.value.committed == a.value.committed && (b.value.cursor.Some? ==> b.value.cursor == a.value.cursor)
  }

  predicate Quiet(c: Coord, d: Coord) {
    && SameProgress(c.active, d.active) && Bound(c) <= Bound(d)
    && (d.pending.Some? ==> d.pending == c.pending || Handshake(d.pending.value)
                            || (d.pending.value.Rejected? && d.pending.value.id <= Bound(d)))
  }

  lemma QuietTold(c: Coord, d: Coord, accepted: seq<Frame>, reports: Reports)
    requires CoordTold(c, accepted, reports) && Quiet(c, d)
    ensures CoordTold(d, accepted, reports)
  {}

  lemma GracefulIsQuiet(c: Coord, result: SessionError)
    requires c.held.Some? ==> c.held.value.id <= c.lastId
    ensures Quiet(c, BeginGraceful(c, result))
  {}

  lemma FatalIsQuiet(c: Coord, result: SessionError, kind: ProtocolKind)
    requires c.held.Some? ==> c.held.value.id <= c.lastId
    ensures Quiet(c, BeginFatal(c, result, kind))
  {}

  lemma TransportIsQuiet(c: Coord, result: SessionError)
    requires c.held.Some? ==> c.held.value.id <= c.lastId
    ensures Quiet(c, BeginTransport(c, result))
  {}

  lemma CancelIsQuiet(c: Coord, id: nat)
    ensures Quiet(c, HandleCancel(c, id))
  {}

  lemma TimersAreQuiet(c: Coord, exited: bool)
    requires c.held.Some? ==> c.held.value.id <= c.lastId
    ensures Quiet(c, HandleCancelTimeout(c, exited))
    ensures c.shutdown.Some? ==> Quiet(c, HandleShutdownTimer(c))
  {}

  lemma WorkerDoneIsQuiet(c: Coord)
    ensures Quiet(c, MaybeReleaseActive(MarkWorkerDone(c)))
  {}

  lemma WrittenIsQuiet(c: Coord, frame: Frame, result: WriteResult)
    requires c.held.Some? ==> c.held.value.id <= c.lastId
    ensures Quiet(c, HandleWriteAck(c, frame, result))
  {
    var d := c.(inflight := None);
    FatalIsQuiet(d, InternalFailure, Internal);
    TransportIsQuiet(d, TransportFailure);
    FatalIsQuiet(c, InternalFailure, Internal);
  }

  lemma BoundaryIsQuiet(c: Coord, applied: bool)
    ensures Quiet(c, AnswerBegin(c).coord)
    ensures c.active.Some? ==> Quiet(c, AnswerFinish(c, applied).coord)
  {}

  // ---------------------------------------------------------------- changes that say something

  /** A new request takes the place of none. */
  lemma ProcessTold(c: Coord, request: Request, accepted: seq<Frame>, reports: Reports)
    requires CoordTold(c, accepted, reports) && c.held.None?
    requires request.id == c.lastId && Known(accepted, reports, request.id - 1)
    ensures CoordTold(ProcessRequest(c, request), accepted, reports)
  {}

  lemma RequestTold(c: Coord, request: Request, accepted: seq<Frame>, reports: Reports)
    requires CoordTold(c, accepted, reports) && c.held.None?
    ensures CoordTold(HandleRequest(c, request), accepted, reports)
  {
    if request.id <= c.lastId {
      FatalIsQuiet(c, ProtocolFailure, Violation);
      QuietTold(c, HandleRequest(c, request), accepted, reports);
    } else if c.pending.None? && !TerminalWriteInFlight(c) {
      QuietTold(c, c.(lastId := request.id), accepted, reports);
      ProcessTold(c.(lastId := request.id), request, accepted, reports);
    } else {
      QuietTold(c, HandleRequest(c, request), accepted, reports);
    }
  }

  lemma DecodedTold(c: Coord, decoded: Decoded, accepted: seq<Frame>, reports: Reports)
    requires CoordTold(c, accepted, reports) && c.held.None?
    ensures CoordTold(TakeDecoded(c, decoded), accepted, reports)
  {
    var d := c.(readOutstanding := Off);
    QuietTold(c, d, accepted, reports);
    if d.shutdown.None? && decoded.InputFrame? && d.phase.Serving? && decoded.client.NewRequest? {
      RequestTold(d, decoded.client.request, accepted, reports);
    } else {
      OtherInputIsQuiet(d, decoded);
      QuietTold(d, TakeDecoded(c, decoded), accepted, reports);
    }
  }

  lemma OtherInputIsQuiet(c: Coord, decoded: Decoded)
    requires c.held.None?
    requires c.shutdown.None? && decoded.InputFrame? && c.phase.Serving? ==> !decoded.client.NewRequest?
    ensures Quiet(c, HandleDecoded(c, decoded))
  {
    FatalIsQuiet(c, ProtocolFailure, Violation);
    FatalIsQuiet(c, ProtocolFailure, FrameTooLarge);
    FatalIsQuiet(c, ProtocolFailure, UnsupportedProtocol);
    if decoded.InputEnded? {
      GracefulIsQuiet(c.(inputClosed := On), Clean);
    } else if decoded.InputFrame? && decoded.client.Cancel? {
      CancelIsQuiet(c, decoded.client.id);
    }
  }

  /** The next numbered frame, if it may say what it says. */
  lemma NumberedTold(c: Coord, n: Numbered, accepted: seq<Frame>, reports: Reports)
    requires CoordTold(c, accepted, reports) && c.active.Some? && c.active.value.cursor.None?
    requires c.held.Some? ==> c.held.value.id <= c.lastId
    requires FrameTold(MakeFrame(n, c.active.value.request.id, c.active.value.sequence + 1), reports)
    ensures CoordTold(QueueNumbered(c, n), accepted, reports)
  {
    if !HasSequence(c) {
      FatalIsQuiet(c, InternalFailure, Internal);
      QuietTold(c, QueueNumbered(c, n), accepted, reports);
    }
  }

  lemma NextSuccessTold(c: Coord, accepted: seq<Frame>, reports: Reports)
    requires CoordTold(c, accepted, reports) && c.active.Some? && c.active.value.cursor.Some?
    requires CursorInv(c.active.value)
    ensures CoordTold(QueueNextSuccess(c), accepted, reports)
  {}

  lemma LoopTopTold(m: Machine, accepted: seq<Frame>, reports: Reports)
    requires Control(m) && CoordTold(m.c, accepted, reports)
    ensures CoordTold(FillPending(m.c), accepted, reports)
  {
    var c := m.c;
    if c.pending.Some? || (IsFatal(c.shutdown) && !c.shutdown.value.fatalQueued.On?) {
      QuietTold(c, FillPending(c), accepted, reports);
    } else if c.shutdown.None? && c.held.Some? && !TerminalWriteInFlight(c) {
      HeldTold(c, accepted, reports);
    } else if c.active.Some? && c.active.value.success.On? && c.active.value.cursor.Some?
              && !c.active.value.abandoned.On?
    {
      NextSuccessTold(c, accepted, reports);
    }
  }

  lemma HeldTold(c: Coord, accepted: seq<Frame>, reports: Reports)
    requires CoordTold(c, accepted, reports) && c.pending.None? && c.shutdown.None? && c.held.Some?
    requires c.held.value.id <= c.lastId && !TerminalWriteInFlight(c)
    ensures CoordTold(FillPending(c), accepted, reports)
  {
    var d := c.(held := None, heldBusy := Off);
    QuietTold(c, d, accepted, reports);
    if c.heldBusy.On? {
      QuietTold(d, FillPending(c), accepted, reports);
    } else {
      assert Known(accepted, reports, c.held.value.id - 1);
      HeldProcessTold(d, c.held.value, accepted, reports);
    }
  }

  lemma HeldProcessTold(c: Coord, request: Request, accepted: seq<Frame>, reports: Reports)
    requires CoordTold(c, accepted, reports) && c.held.None? && request.id <= c.lastId
    requires Known(accepted, reports, request.id - 1)
    ensures CoordTold(ProcessRequest(c, request), accepted, reports)
  {}

  // ---------------------------------------------------------------- the report itself

  /** The report of a request that had not reported changes nothing that its frames said. */
  lemma NewReport(c: Coord, accepted: seq<Frame>, reports: Reports, report: Report)
    requires CoordTold(c, accepted, reports) && c.active.Some? && !c.active.value.committed.On?
    requires c.active.value.cursor.None? && report.sequence == c.active.value.sequence
    requires Carries(c.pending, c.active.value.request.id) ==> SequenceOf(c.pending.value) <= c.active.value.sequence
    ensures CoordTold(WithCommitted(c), accepted, reports[c.active.value.request.id := report])
  {
    var id := c.active.value.request.id;
    var more := reports[id := report];
    forall k | 0 <= k < |accepted|
      ensures FrameTold(accepted[k], more)
    {
      assert FrameTold(accepted[k], reports);
    }
  }

  function WithCommitted(c: Coord): Coord
    requires c.active.Some?
  {
    c.(active := Some(c.active.value.(committed := On)))
  }

  /** An outcome that is handled: the terminal says the verdict on the report, or the stream of its plan begins. */
  lemma OutcomeTold(c: Coord, message: Message, accepted: seq<Frame>, reports: Reports)
    requires CoordTold(c, accepted, reports) && c.active.Some? && !c.active.value.committed.On?
    requires WellFormedOutcome(message) && c.active.value.cursor.None? && c.pending.None?
    requires c.held.Some? ==> c.held.value.id <= c.lastId
    ensures var a := c.active.value;
            var report := Report(message.frameCount, message.canceled, a.cancelAsked.On?, a.sequence);
            CoordTold(HandleOutcome(c, message.frameCount, message.canceled, message.failed), accepted,
                      reports[a.request.id := report])
  {
    var a := c.active.value;
    var report := Report(message.frameCount, message.canceled, a.cancelAsked.On?, a.sequence);
    var more := reports[a.request.id := report];
    NewReport(c, accepted, reports, report);
    if Verdict(report).Completed? {
      PlanTold(c, message.frameCount.value, accepted, more);
    } else {
      NumberedTold(WithCommitted(c), NumberedTerminal(Verdict(report)), accepted, more);
    }
  }

  lemma PlanTold(c: Coord, frames: nat, accepted: seq<Frame>, reports: Reports)
    requires c.active.Some? && c.active.value.request.id in reports
    requires CoordTold(WithCommitted(c), accepted, reports)
    requires var r := reports[c.active.value.request.id];
             Verdict(r).Completed? && r.plan == Some(frames) && r.sequence == c.active.value.sequence
    ensures var a := c.active.value.(committed := On, success := On, cursor := Some(Cursor(frames, 0)));
            CoordTold(c.(active := Some(a)), accepted, reports)
  {}

  lemma MessageTold(m: Machine, message: Message, accepted: seq<Frame>, reports: Reports)
    requires Inv(m) && Enabled(m, ReceiveMessage(message)) && CoordTold(m.c, accepted, reports)
    ensures CoordTold(HandleWorkerMessage(m.c, message, m.decoded).coord, accepted,
                      Reported(reports, m, ReceiveMessage(message)))
  {
    if message.OutcomeMessage? {
      OutcomeMessageTold(m, message, accepted, reports);
    } else if message.ProvisionalMessage? {
      if !(Failing(m.c.shutdown) && m.c.active.value.EffectProtected()) {
        NumberedTold(m.c, NumberedProvisional, accepted, reports);
      }
    } else {
      BoundaryTold(m, message, accepted, reports);
    }
  }

  lemma OutcomeMessageTold(m: Machine, message: Message, accepted: seq<Frame>, reports: Reports)
    requires Inv(m) && Enabled(m, ReceiveMessage(message)) && CoordTold(m.c, accepted, reports)
    requires message.OutcomeMessage?
    ensures CoordTold(HandlePlainMessage(m.c, message), accepted, Reported(reports, m, ReceiveMessage(message)))
  {
    var a := m.c.active.value;
    if Failing(m.c.shutdown) && a.EffectProtected() {
      NewReport(m.c, accepted, reports, Report(message.frameCount, message.canceled, a.cancelAsked.On?, a.sequence));
    } else {
      OutcomeTold(m.c, message, accepted, reports);
    }
  }

  lemma BoundaryTold(m: Machine, message: Message, accepted: seq<Frame>, reports: Reports)
    requires Inv(m) && Enabled(m, ReceiveMessage(message)) && CoordTold(m.c, accepted, reports)
    requires message.EffectMessage?
    ensures CoordTold(HandleWorkerMessage(m.c, message, m.decoded).coord, accepted, reports)
  {
    if message.stage.Begin? {
      var d := if m.decoded.Some? then TakeDecoded(m.c, m.decoded.value) else m.c;
      if m.decoded.Some? {
        DecodedTold(m.c, m.decoded.value, accepted, reports);
      }
      BoundaryIsQuiet(d, false);
      QuietTold(d, AnswerBegin(d).coord, accepted, reports);
    } else {
      BoundaryIsQuiet(m.c, message.applied);
      QuietTold(m.c, AnswerFinish(m.c, message.applied).coord, accepted, reports);
    }
  }

  // ---------------------------------------------------------------- every step keeps it

  lemma SendTold(m: Machine, accepted: seq<Frame>, reports: Reports)
    requires Inv(m) && Enabled(m, SendFrame) && CoordTold(m.c, accepted, reports)
    ensures CoordTold(Submit(m.c), accepted + [m.c.pending.value], reports)
  {}

  /** An arm of the select, before the next loop top. */
  lemma ArmTold(s: System, step: Step, reports: Reports)
    requires Inv(s.m) && Told(s, reports) && Enabled(s.m, step) && !IsEnvironment(step)
    ensures CoordTold(Select(s.m, step).c, Record(s.h, s.m, step).accepted, Reported(reports, s.m, step))
  {
    var m, accepted := s.m, s.h.accepted;
    if step.SendFrame? {
      SendTold(m, accepted, reports);
    } else if step.ReceiveMessage? {
      MessageTold(m, step.message, accepted, reports);
    } else if step.ReceiveDecoded? {
      DecodedTold(m.c, m.decoded.value, accepted, reports);
    } else {
      SignalIsQuiet(m, step);
      QuietTold(m.c, Select(m, step).c, accepted, reports);
    }
  }

  lemma SignalIsQuiet(m: Machine, step: Step)
    requires Inv(m) && Enabled(m, step) && !IsEnvironment(step)
    requires !step.SendFrame? && !step.ReceiveMessage? && !step.ReceiveDecoded?
    ensures Quiet(m.c, Select(m, step).c)
  {
    if step.ReceiveAck? {
      WrittenIsQuiet(m.c, m.acks.value.frame, m.acks.value.result);
    } else if step.SeeWriterDone? {
      TransportIsQuiet(m.c.(writerStopped := On), TransportFailure);
    } else if step.SeeExternalCancel? {
      GracefulIsQuiet(m.c, Interrupted);
    } else {
      TimersAreQuiet(m.c, m.worker.Exited?);
      WorkerDoneIsQuiet(m.c);
    }
  }

  lemma InflightStaysLast(s: System, step: Step)
    requires Inv(s.m) && InflightIsLast(s.m.c.inflight, s.h.accepted) && Enabled(s.m, step)
    ensures InflightIsLast(Apply(s, step).m.c.inflight, Apply(s, step).h.accepted)
  {
    if !IsEnvironment(step) {
      FillKeepsInflight(Select(s.m, step).c);
      ArmKeepsInflight(s.m, step);
    }
  }

  lemma FillKeepsInflight(c: Coord)
    ensures FillPending(c).inflight == c.inflight
  {}

  lemma ArmKeepsInflight(m: Machine, step: Step)
    requires Inv(m) && Enabled(m, step) && !IsEnvironment(step)
    ensures var inflight := Select(m, step).c.inflight;
            inflight == if step.SendFrame? then m.c.pending else if step.ReceiveAck? then None else m.c.inflight
  {
    if step.ReceiveDecoded? {
      DecodedKeepsInflight(m.c, m.decoded.value);
    } else if step.ReceiveMessage? {
      MessageKeepsInflight(m, step.message);
    }
  }

  lemma DecodedKeepsInflight(c: Coord, decoded: Decoded)
    ensures TakeDecoded(c, decoded).inflight == c.inflight
  {}

  lemma MessageKeepsInflight(m: Machine, message: Message)
    requires Inv(m) && Enabled(m, ReceiveMessage(message))
    ensures HandleWorkerMessage(m.c, message, m.decoded).coord.inflight == m.c.inflight
  {
    if message.EffectMessage? && m.decoded.Some? {
      DecodedKeepsInflight(m.c, m.decoded.value);
    }
  }

  lemma StepTold(s: System, step: Step, reports: Reports)
    requires Inv(s.m) && Told(s, reports) && Enabled(s.m, step)
    ensures Told(Apply(s, step), Reported(reports, s.m, step))
  {
    InflightStaysLast(s, step);
    if !IsEnvironment(step) {
      ArmTold(s, step, reports);
      SelectKeeps(s.m, step);
      LoopTopTold(Select(s.m, step), Record(s.h, s.m, step).accepted, Reported(reports, s.m, step));
    }
  }

  lemma {:induction false} RunTold(s: System, steps: seq<Step>, reports: Reports)
    requires Inv(s.m) && Told(s, reports) && IsRun(s, steps)
    ensures Told(After(s, steps), ReportsAfter(s, steps, reports))
    decreases |steps|
  {
    if steps != [] {
      MoveKeeps(s.m, steps[0]);
      StepTold(s, steps[0], reports);
      RunTold(Apply(s, steps[0]), steps[1..], Reported(reports, s.m, steps[0]));
    }
  }

  lemma StartTold()
    ensures Inv(START.m) && Told(START, map[])
  {
    StartKeeps();
    assert START.m.c == INITIAL;
  }

  /** In any run: every terminal that the writer took or that is on its way to it is the verdict on what its request
      reported, at the place where the frames of its plan end; the items of a plan lie between the report and that
      terminal, which with gap-free sequence numbers are all of them; and no provisional frame follows a report. */
  lemma OutcomesAreReported(steps: seq<Step>)
    requires IsRun(START, steps)
    ensures var s, reports := After(START, steps), ReportsAfter(START, steps, map[]);
            AllTold(s.h.accepted, reports) && SlotTold(s.m.c.pending, reports) && SlotTold(s.m.c.inflight, reports)
  {
    StartTold();
    RunTold(START, steps, map[]);
  }

  /** The answer of a request is its terminal in a slot, or the plan being streamed. */
  predicate Answering(c: Coord, id: nat, report: Report) {
    || c.pending == Some(Terminal(id, EndOf(report), Verdict(report)))
    || c.inflight == Some(Terminal(id, EndOf(report), Verdict(report)))
    || (c.active.Some? && c.active.value.request.id == id && c.active.value.cursor.Some? && Verdict(report).Completed?)
  }

  lemma OpenIsAnswering(m: Machine, reports: Reports, id: nat)
    requires Inv(m) && SlotTold(m.c.pending, reports) && SlotTold(m.c.inflight, reports)
    requires ActiveTold(m.c.active, reports) && Open(m.c.shutdown)
    requires m.c.active.Some? && m.c.active.value.request.id == id && id in reports
    ensures Answering(m.c, id, reports[id])
  {}

  /** While the session is open, the active request that has reported is being answered. */
  lemma ReportsAreAnswered(steps: seq<Step>)
    requires IsRun(START, steps)
    ensures var s, reports := After(START, steps), ReportsAfter(START, steps, map[]);
            Open(s.m.c.shutdown) && s.m.c.active.Some? && s.m.c.active.value.request.id in reports ==>
              Answering(s.m.c, s.m.c.active.value.request.id, reports[s.m.c.active.value.request.id])
  {
    StartTold();
    RunTold(START, steps, map[]);
    RunKeeps(START, steps);
    OutcomesAreReported(steps);
    var s, reports := After(START, steps), ReportsAfter(START, steps, map[]);
    if Open(s.m.c.shutdown) && s.m.c.active.Some? && s.m.c.active.value.request.id in reports {
      OpenIsAnswering(s.m, reports, s.m.c.active.value.request.id);
    }
  }

  // ---------------------------------------------------------------- full slots

  /** What was in a full pending slot is there still, unless a failing shutdown has just begun. */
  predicate PendingKept(c: Coord, d: Coord) {
    c.pending.Some? ==>
      d.pending == c.pending
      || (Failing(d.shutdown) && (c.shutdown.None? || c.shutdown.value.mode != d.shutdown.value.mode))
  }

  lemma PendingOfInput(m: Machine)
    requires Inv(m) && m.decoded.Some?
    ensures PendingKept(m.c, TakeDecoded(m.c, m.decoded.value))
  {}

  lemma PendingOfMessage(m: Machine, message: Message)
    requires Inv(m) && Enabled(m, ReceiveMessage(message))
    ensures PendingKept(m.c, HandleWorkerMessage(m.c, message, m.decoded).coord)
  {
    if message.EffectMessage? && m.decoded.Some? {
      PendingOfInput(m);
    }
  }

  lemma PendingOfArm(m: Machine, step: Step)
    requires Inv(m) && Enabled(m, step) && !IsEnvironment(step) && !step.SendFrame?
    ensures PendingKept(m.c, Select(m, step).c)
  {
    if step.ReceiveDecoded? {
      PendingOfInput(m);
    } else if step.ReceiveMessage? {
      PendingOfMessage(m, step.message);
    }
  }

  lemma TopKeepsPending(c: Coord)
    ensures c.pending.Some? ==> FillPending(c) == c
    ensures c.shutdown.Some? ==> FillPending(c).shutdown.Some?
    ensures Failing(c.shutdown) ==>
              Failing(FillPending(c).shutdown) && FillPending(c).shutdown.value.mode == c.shutdown.value.mode
  {}

  /** A held request waits, or has its answer in the pending slot, or the session shuts down. */
  predicate HeldKept(c: Coord, d: Coord) {
    c.held.Some? ==>
      d.held == c.held || d.shutdown.Some?
      || d.pending == Some(Started(c.held.value.id)) || d.pending == Some(Rejected(c.held.value.id))
  }

  lemma HeldOfArm(m: Machine, step: Step)
    requires Inv(m) && Enabled(m, step) && !IsEnvironment(step) && m.c.held.Some?
    ensures Select(m, step).c.held == m.c.held || Select(m, step).c.shutdown.Some?
  {
    if step.ReceiveAck? && m.acks.value.result.Written? && m.acks.value.frame.Terminal? {
      TerminalWrittenKeeps(m);
    }
  }

  lemma TopKeepsHeld(c: Coord)
    ensures c.held.Some? ==> HeldKept(c, FillPending(c))
  {}

  /** In no step is a full slot filled again: what it held was taken, answered or dropped by a failing shutdown. */
  lemma FullSlotsAreKept(s: System, step: Step)
    requires Reachable(s) && Enabled(s.m, step)
    ensures var c, d := s.m.c, Apply(s, step).m.c;
            && (!step.SendFrame? ==> PendingKept(c, d))
            && (c.inflight.Some? && !step.ReceiveAck? ==> d.inflight == c.inflight)
            && HeldKept(c, d)
  {
    ReachableInv(s);
    if !IsEnvironment(step) {
      var n := Select(s.m, step);
      ArmKeepsInflight(s.m, step);
      FillKeepsInflight(n.c);
      TopKeepsPending(n.c);
      TopKeepsHeld(n.c);
      if !step.SendFrame? {
        PendingOfArm(s.m, step);
      }
      if s.m.c.held.Some? {
        HeldOfArm(s.m, step);
      }
    }
  }
}
