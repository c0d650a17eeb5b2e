/**
  Which requests are started and which are rejected as busy.

  A run is followed by a record of its own: whether each request found another one at work when it
  was read.  One whose terminal was already with the writer does not count as at work.
*/
module SessionAnswers {
  import opened Wire
  import opened Session
  import opened SessionSystem
  import opened SessionControl
  import opened SessionTheorems

  type Found = map<nat, bool>

  predicate AtWork(c: Coord) { c.active.Some? && !TerminalWriteInFlight(c) }

  /** The request that a decoded frame holds for a serving session, if it is one and its id is new. */
  function ReadRequest(c: Coord, decoded: Option<Decoded>): Option<nat> {
    match decoded
    case Some(InputFrame(_, NewRequest(request))) =>
      if c.shutdown.None? && c.phase.Serving? && request.id > c.lastId then Some(request.id) else None
    case _ => None
  }

  /** A decoded frame is taken in its own arm, or ahead of a begin that finds it waiting. */
  predicate TakesDecoded(m: Machine, step: Step) {
    step.ReceiveDecoded? || (step.ReceiveMessage? && step.message == EffectMessage(Begin, false))
  }

  function Noted(found: Found, m: Machine, step: Step): Found {
    var read := if TakesDecoded(m, step) then ReadRequest(m.c, m.decoded) else None;
    if read.Some? then found[read.value := AtWork(m.c)] else found
  }

  function FoundAfter(s: System, steps: seq<Step>, found: Found): Found
    requires IsRun(s, steps)
    decreases |steps|
  {
    if steps == [] then found else FoundAfter(Apply(s, steps[0]), steps[1..], Noted(found, s.m, steps[0]))
  }

  /** A request is started when it found none at work, and rejected when it found one. */
  predicate AnswerFits(f: Frame, found: Found) {
    match f
    case Started(id) => id in found && !found[id]
    case Rejected(id) => id in found && found[id]
    case _ => true
  }

  predicate SlotFits(slot: Option<Frame>, found: Found) { slot.Some? ==> AnswerFits(slot.value, found) }

  predicate AllFit(accepted: seq<Frame>, found: Found) {
    forall k :: 0 <= k < |accepted| ==> AnswerFits(accepted[k], found)
  }

  predicate FoundUpTo(found: Found, lastId: nat) { forall id :: id in found ==> id <= lastId }

  /** A held request is marked busy, or will be answered by whether one is at work still; no terminal gets ahead of
      it. */
  predicate HeldFits(c: Coord, found: Found) {
    c.held.Some? ==>
      && c.held.value.id in found && (found[c.held.value.id] <==> c.heldBusy.On? || AtWork(c))
      && (!c.heldBusy.On? && c.pending.Some? ==> !c.pending.value.Terminal?)
  }

  predicate CoordFits(c: Coord, found: Found) {
    SlotFits(c.pending, found) && HeldFits(c, found) && FoundUpTo(found, c.lastId)
  }

  // ---------------------------------------------------------------- changes that answer nothing

  predicate SameAnswers(c: Coord, d: Coord) {
    && (d.pending.Some? ==>
          d.pending == c.pending || !(d.pending.value.Started? || d.pending.value.Rejected?))
    && (d.held.Some? ==>
          && d.held == c.held && d.heldBusy == c.heldBusy && (d.heldBusy.On? || (AtWork(c) <==> AtWork(d)))
          && (d.pending.Some? && d.pending != c.pending && !d.heldBusy.On? ==> !d.pending.value.Terminal?))
    && d.lastId == c.lastId
  }

  lemma SameAnswersFit(c: Coord, d: Coord, found: Found)
    requires CoordFits(c, found) && SameAnswers(c, d)
    ensures CoordFits(d, found)
  {}

  lemma GracefulAnswers(c: Coord, result: SessionError)
    ensures SameAnswers(c, BeginGraceful(c, result))
  {}

  lemma FatalAnswers(c: Coord, result: SessionError, kind: ProtocolKind)
    ensures SameAnswers(c, BeginFatal(c, result, kind))
  {}

  lemma TransportAnswers(c: Coord, result: SessionError)
    ensures SameAnswers(c, BeginTransport(c, result))
  {}

  lemma NumberedAnswers(c: Coord, n: Numbered)
    requires c.held.None?
    ensures SameAnswers(c, QueueNumbered(c, n))
  {}

  lemma MessageAnswers(c: Coord, message: Message)
    requires c.held.None?
    ensures !message.EffectMessage? ==> SameAnswers(c, HandlePlainMessage(c, message))
  {
    FatalAnswers(c, InternalFailure, Internal);
    if c.active.Some? {
      OutcomeAnswers(c, message);
      NumberedAnswers(c, NumberedProvisional);
    }
  }

  lemma OutcomeAnswers(c: Coord, message: Message)
    requires c.active.Some? && c.held.None?
    ensures message.OutcomeMessage? ==>
              SameAnswers(c, HandleOutcome(c, message.frameCount, message.canceled, message.failed))
  {
    if message.OutcomeMessage? {
      var d := c.(active := Some(c.active.value.(committed := On)));
      NumberedAnswers(d, NumberedTerminal(Canceled(true)));
      NumberedAnswers(d, NumberedTerminal(Canceled(false)));
      NumberedAnswers(d, NumberedTerminal(Failed));
      FatalAnswers(d, InternalFailure, Internal);
      FatalAnswers(c, InternalFailure, Internal);
    }
  }

  lemma BoundaryAnswers(c: Coord, applied: bool)
    ensures SameAnswers(c, AnswerBegin(c).coord)
    ensures c.active.Some? ==> SameAnswers(c, AnswerFinish(c, applied).coord)
  {}

  // ---------------------------------------------------------------- input

  lemma RequestFits(c: Coord, request: Request, found: Found)
    requires CoordFits(c, found) && c.held.None?
    requires c.pending.Some? && c.pending.value.Terminal? ==> AtWork(c)
    ensures CoordFits(HandleRequest(c, request),
                      if request.id > c.lastId then found[request.id := AtWork(c)] else found)
  {
    if request.id <= c.lastId {
      FatalAnswers(c, ProtocolFailure, Violation);
    }
  }

  lemma InputFits(c: Coord, decoded: Decoded, found: Found)
    requires CoordFits(c, found) && ReadRequest(c, Some(decoded)).None?
    requires c.held.None?
    ensures CoordFits(HandleDecoded(c, decoded), found)
  {
    GracefulAnswers(c.(inputClosed := On), Clean);
    FatalAnswers(c, ProtocolFailure, Violation);
    FatalAnswers(c, ProtocolFailure, FrameTooLarge);
    FatalAnswers(c, ProtocolFailure, UnsupportedProtocol);
    if c.shutdown.None? && decoded.InputFrame? {
      match decoded.client {
        case NewRequest(request) =>
        case Cancel(id) => assert SameAnswers(c, HandleCancel(c, id));
        case _ =>
      }
    }
  }

  /** A decoded frame, taken from a state in which a terminal that waits has its request at work. */
  lemma DecodedFits(m: Machine, found: Found)
    requires Inv(m) && m.decoded.Some? && CoordFits(m.c, found)
    ensures var read := ReadRequest(m.c, m.decoded);
            CoordFits(TakeDecoded(m.c, m.decoded.value), if read.Some? then found[read.value := AtWork(m.c)] else found)
  {
    var c := m.c.(readOutstanding := Off);
    SameAnswersFit(m.c, c, found);
    if ReadRequest(m.c, m.decoded).Some? {
      RequestFits(c, m.decoded.value.client.request, found);
    } else {
      InputFits(c, m.decoded.value, found);
    }
  }

  // ---------------------------------------------------------------- every step keeps it

  /** What was noted of earlier requests stays. */
  lemma NotedGrows(found: Found, m: Machine, step: Step)
    requires FoundUpTo(found, m.c.lastId)
    ensures forall id :: id in found ==> id in Noted(found, m, step) && Noted(found, m, step)[id] == found[id]
  {}

  lemma AllStillFit(accepted: seq<Frame>, found: Found, more: Found)
    requires AllFit(accepted, found) && forall id :: id in found ==> id in more && more[id] == found[id]
    ensures AllFit(accepted, more)
  {}

  lemma MessageFits(m: Machine, message: Message, found: Found)
    requires Inv(m) && Enabled(m, ReceiveMessage(message)) && CoordFits(m.c, found)
    ensures CoordFits(HandleWorkerMessage(m.c, message, m.decoded).coord, Noted(found, m, ReceiveMessage(message)))
  {
    if !message.EffectMessage? {
      assert m.c.held.None?;
      MessageAnswers(m.c, message);
      SameAnswersFit(m.c, HandlePlainMessage(m.c, message), found);
    } else if message.stage.Begin? {
      BeginFits(m, found);
    } else {
      BoundaryAnswers(m.c, message.applied);
      SameAnswersFit(m.c, AnswerFinish(m.c, message.applied).coord, found);
    }
  }

  lemma BeginFits(m: Machine, found: Found)
    requires Inv(m) && Enabled(m, ReceiveMessage(EffectMessage(Begin, false))) && CoordFits(m.c, found)
    ensures CoordFits(HandleWorkerMessage(m.c, EffectMessage(Begin, false), m.decoded).coord,
                      Noted(found, m, ReceiveMessage(EffectMessage(Begin, false))))
  {
    var d := if m.decoded.Some? then TakeDecoded(m.c, m.decoded.value) else m.c;
    if m.decoded.Some? {
      DecodedFits(m, found);
    }
    BoundaryAnswers(d, false);
    SameAnswersFit(d, AnswerBegin(d).coord, Noted(found, m, ReceiveMessage(EffectMessage(Begin, false))));
  }

  lemma SignalAnswers(m: Machine, step: Step)
    requires Inv(m) && Enabled(m, step) && !IsEnvironment(step)
    requires !step.SendFrame? && !step.ReceiveMessage? && !step.ReceiveDecoded? && !step.ReceiveAck?
    ensures SameAnswers(m.c, Select(m, step).c)
  {
    if step.SeeWriterDone? {
      TransportAnswers(m.c.(writerStopped := On), TransportFailure);
    } else if step.SeeExternalCancel? {
      GracefulAnswers(m.c, Interrupted);
    }
  }

  lemma AckAnswers(m: Machine)
    requires Inv(m) && Enabled(m, ReceiveAck)
    ensures SameAnswers(m.c, Select(m, ReceiveAck).c)
  {
    var d := m.c.(inflight := None);
    match m.acks.value.result
    case CodecRejected => FatalAnswers(d, InternalFailure, Internal);
    case Broken => TransportAnswers(d, TransportFailure);
    case Written =>
      if m.acks.value.frame.Terminal? {
        TerminalWrittenKeeps(m);
      }
  }

  lemma SendFits(m: Machine, found: Found)
    requires Inv(m) && Enabled(m, SendFrame) && CoordFits(m.c, found)
    ensures CoordFits(Submit(m.c), found)
  {}

  lemma LoopTopFits(m: Machine, found: Found)
    requires Control(m) && CoordFits(m.c, found)
    ensures CoordFits(FillPending(m.c), found)
  {
    var c := m.c;
    if c.pending.None? && c.shutdown.None? && c.held.Some? && !TerminalWriteInFlight(c) {
      HeldIsAnswered(c, found);
    } else {
      assert SameAnswers(c, FillPending(c));
    }
  }

  lemma HeldIsAnswered(c: Coord, found: Found)
    requires CoordFits(c, found) && c.pending.None? && c.shutdown.None? && c.held.Some? && !TerminalWriteInFlight(c)
    ensures CoordFits(FillPending(c), found)
  {}

  predicate Fits(s: System, found: Found) { AllFit(s.h.accepted, found) && CoordFits(s.m.c, found) }

  lemma ArmFits(s: System, step: Step, found: Found)
    requires Inv(s.m) && Fits(s, found) && Enabled(s.m, step) && !IsEnvironment(step)
    ensures CoordFits(Select(s.m, step).c, Noted(found, s.m, step))
  {
    var m := s.m;
    if step.SendFrame? {
      SendFits(m, found);
    } else if step.ReceiveMessage? {
      MessageFits(m, step.message, found);
    } else if step.ReceiveDecoded? {
      DecodedFits(m, found);
    } else {
      if step.ReceiveAck? {
        AckAnswers(m);
      } else {
        SignalAnswers(m, step);
      }
      SameAnswersFit(m.c, Select(m, step).c, found);
    }
  }

  lemma StepFits(s: System, step: Step, found: Found)
    requires Inv(s.m) && Fits(s, found) && Enabled(s.m, step)
    ensures Fits(Apply(s, step), Noted(found, s.m, step))
  {
    AcceptedStillFit(s, step, found);
    if !IsEnvironment(step) {
      ArmFits(s, step, found);
      SelectKeeps(s.m, step);
      LoopTopFits(Select(s.m, step), Noted(found, s.m, step));
    }
  }

  lemma AcceptedStillFit(s: System, step: Step, found: Found)
    requires Fits(s, found) && Enabled(s.m, step)
    ensures AllFit(Record(s.h, s.m, step).accepted, Noted(found, s.m, step))
  {
    NotedGrows(found, s.m, step);
    AllStillFit(s.h.accepted, found, Noted(found, s.m, step));
  }

  lemma {:induction false} RunFits(s: System, steps: seq<Step>, found: Found)
    requires Inv(s.m) && Fits(s, found) && IsRun(s, steps)
    ensures Fits(After(s, steps), FoundAfter(s, steps, found))
    decreases |steps|
  {
    if steps != [] {
      MoveKeeps(s.m, steps[0]);
      StepFits(s, steps[0], found);
      RunFits(Apply(s, steps[0]), steps[1..], Noted(found, s.m, steps[0]));
    }
  }

  /** In any run: a request is started exactly when it found no other at work, and rejected exactly when it did; one
      that is held while the session serves will be answered so. */
  lemma BusyMeansRejected(steps: seq<Step>)
    requires IsRun(START, steps)
    ensures var s, found := After(START, steps), FoundAfter(START, steps, map[]);
            AllFit(s.h.accepted, found) && SlotFits(s.m.c.pending, found) && HeldFits(s.m.c, found)
  {
    StartKeeps();
    assert START.m.c == INITIAL;
    RunFits(START, steps, map[]);
  }
}
