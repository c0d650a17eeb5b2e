/**
  What the history of a session looks like in every reachable state: the frames the writer took,
  the requests that were read, and the effects that were applied.
*/
module SessionTrace {
  import opened Wire
  import opened Session
  import opened SessionSystem
  import opened SessionControl

  // ---------------------------------------------------------------- traces

  /** The frames of one request, in order. */
  function Project(trace: seq<Frame>, id: nat): seq<Frame> {
    if trace == [] then []
    else
      var last := trace[|trace| - 1];
      Project(trace[..|trace| - 1], id) + if FrameId(last) == Some(id) then [last] else []
  }

  /** The ids a list of frames answers, by `started` or by `request_rejected`. */
  function Answers(trace: seq<Frame>): seq<nat> {
    if trace == [] then []
    else Answers(trace[..|trace| - 1]) + AnswerOf(Some(trace[|trace| - 1]))
  }

  function AnswerOf(slot: Option<Frame>): seq<nat> {
    if slot.Some? && (slot.value.Started? || slot.value.Rejected?) then [slot.value.id] else []
  }

  function HeldIds(held: Option<Request>): seq<nat> { if held.Some? then [held.value.id] else [] }

  /** The frames of one request are a rejection alone, or `started` with sequence 1 and then
      gap-free increasing sequence numbers with a terminal in the last place at most. */
  predicate Lifecycle(frames: seq<Frame>) {
    frames != [] ==>
      if frames[0].Rejected? then |frames| == 1
      else
        && frames[0].Started?
        && (forall k :: 0 <= k < |frames| ==> SequenceOf(frames[k]) == k + 1)
        && (forall k :: 1 <= k < |frames| ==> !frames[k].Started? && !frames[k].Rejected?)
        && (forall k :: 0 <= k < |frames| - 1 ==> !frames[k].Terminal?)
  }

  predicate Closed(frames: seq<Frame>) {
    frames != [] && (frames[|frames| - 1].Terminal? || frames[|frames| - 1].Rejected?)
  }

  predicate Increasing(ids: seq<nat>) { forall i, j :: 0 <= i < j < |ids| ==> ids[i] < ids[j] }

  predicate Distinct(ids: seq<nat>) { forall i, j :: 0 <= i < j < |ids| ==> ids[i] != ids[j] }

  predicate HasFatal(accepted: seq<Frame>) { accepted != [] && accepted[|accepted| - 1].FatalError? }

  predicate Unended(frames: seq<Frame>) { forall k :: 0 <= k < |frames| ==> !frames[k].Terminal? }

  // ---------------------------------------------------------------- the invariant

  /** The frames already handed over, whatever the coordinator is doing now. */
  ghost predicate TraceOk(accepted: seq<Frame>) {
    && (forall id: nat :: Lifecycle(Project(accepted, id)))
    && (forall id: nat :: Project(accepted, id) != [] ==> id in Answers(accepted))
    && (forall k :: 0 <= k < |accepted| - 1 ==> !accepted[k].FatalError?)
  }

  /** Effects were applied for started requests, once each, and never behind a requested cancel. */
  predicate AppliedOk(accepted: seq<Frame>, applied: seq<nat>) {
    && Distinct(applied)
    && (forall k :: 0 <= k < |applied| ==> applied[k] in Answers(accepted))
    && (forall k :: 0 <= k < |accepted| && accepted[k].Terminal? && accepted[k].outcome == Canceled(true) ==>
                      accepted[k].id !in applied)
  }

  /** The requests read so far are the ones answered, the one being answered, and the one held. */
  predicate AnswersOk(received: seq<nat>, lastId: nat, answered: seq<nat>, answering: seq<nat>, held: seq<nat>,
                      serving: bool)
  {
    && Increasing(received)
    && (received == [] ==> lastId == 0)
    && (received != [] ==> 0 < received[0] && lastId == received[|received| - 1])
    && (if serving then answered + answering + held == received else answered + answering <= received)
  }

  predicate FatalOk(accepted: seq<Frame>, shutdown: Option<Shutdown>, pending: Option<Frame>) {
    HasFatal(accepted) ==> FatalQueued(shutdown) && (IsFatal(shutdown) ==> pending.None?)
  }

  predicate ActiveTrace(accepted: seq<Frame>, applied: seq<nat>, active: Option<Active>, worker: WorkerAt) {
    active.Some? ==>
      && (worker.Exited? || Unended(Project(accepted, active.value.request.id)))
      && (active.value.request.id in applied <==> active.value.effectCommitted.On? || worker == Finishing(true))
      && (active.value.workerStarted.On? ==> active.value.request.id in Answers(accepted))
  }

  /** Every request with a frame in the trace is closed there, except perhaps the active one. */
  ghost predicate ClosedExcept(accepted: seq<Frame>, open: Option<nat>) {
    forall id: nat :: Project(accepted, id) != [] ==> Closed(Project(accepted, id)) || open == Some(id)
  }

  function ActiveId(active: Option<Active>): Option<nat> {
    if active.Some? then Some(active.value.request.id) else None
  }

  /** While the session is open the trace of the active request is as long as its sequence says, and
      ends in a terminal exactly when that terminal is in flight. */
  predicate Progress(accepted: seq<Frame>, a: Active, pending: Option<Frame>, terminalInFlight: bool) {
    var frames := Project(accepted, a.request.id);
    && |frames| == a.sequence - (if Carries(pending, a.request.id) then 1 else 0)
    && (frames != [] ==> frames[0].Started?)
    && (if terminalInFlight then Closed(frames) else Unended(frames))
  }

  predicate WrittenOk(accepted: seq<Frame>, written: seq<Frame>, writer: WriterAt, acks: Option<Acked>) {
    acks.None? || acks.value.result.Written? ==>
      accepted == written + if writer.Writing? then [writer.frame] else []
  }

  ghost predicate OpenTrace(s: System) {
    Open(s.m.c.shutdown) ==>
      && (s.m.c.active.Some? ==>
            Progress(s.h.accepted, s.m.c.active.value, s.m.c.pending, TerminalWriteInFlight(s.m.c)))
      && ClosedExcept(s.h.accepted, ActiveId(s.m.c.active))
      && WrittenOk(s.h.accepted, s.h.written, s.m.writer, s.m.acks)
  }

  ghost predicate PastCore(s: System) {
    && TraceOk(s.h.accepted)
    && AppliedOk(s.h.accepted, s.h.applied)
    && AnswersOk(s.h.received, s.m.c.lastId, Answers(s.h.accepted), AnswerOf(s.m.c.pending), HeldIds(s.m.c.held),
                 s.m.c.shutdown.None?)
    && FatalOk(s.h.accepted, s.m.c.shutdown, s.m.c.pending)
    && ActiveTrace(s.h.accepted, s.h.applied, s.m.c.active, s.m.worker)
  }

  ghost predicate Past(s: System) { PastCore(s) && OpenTrace(s) }

  // ---------------------------------------------------------------- one more frame

  lemma ProjectAppend(trace: seq<Frame>, f: Frame, id: nat)
    ensures Project(trace + [f], id) == Project(trace, id) + if FrameId(f) == Some(id) then [f] else []
    ensures Answers(trace + [f]) == Answers(trace) + AnswerOf(Some(f))
  {
    assert (trace + [f])[..|trace|] == trace;
  }

  lemma {:induction false} InProject(trace: seq<Frame>, k: nat)
    requires k < |trace| && FrameId(trace[k]).Some?
    ensures trace[k] in Project(trace, FrameId(trace[k]).value)
  {
    if k < |trace| - 1 {
      InProject(trace[..|trace| - 1], k);
    }
  }

  /** The frame that may follow the frames of its request. */
  predicate Extends(frames: seq<Frame>, f: Frame) {
    if f.Started? || f.Rejected? then frames == []
    else frames != [] && frames[0].Started? && Unended(frames) && SequenceOf(f) == |frames| + 1
  }

  lemma TraceAppend(accepted: seq<Frame>, f: Frame)
    requires TraceOk(accepted) && !HasFatal(accepted)
    requires FrameId(f).Some? ==> Extends(Project(accepted, FrameId(f).value), f)
    ensures TraceOk(accepted + [f])
  {
    forall id: nat
      ensures Lifecycle(Project(accepted + [f], id))
      ensures Project(accepted + [f], id) != [] ==> id in Answers(accepted + [f])
    {
      ProjectAppend(accepted, f, id);
    }
  }

  lemma ClosedAppend(accepted: seq<Frame>, f: Frame, open: Option<nat>)
    requires ClosedExcept(accepted, open) && (FrameId(f).None? || f.Rejected? || FrameId(f) == open)
    ensures ClosedExcept(accepted + [f], open)
  {
    forall id: nat
      ensures Project(accepted + [f], id) != [] ==> Closed(Project(accepted + [f], id)) || open == Some(id)
    {
      ProjectAppend(accepted, f, id);
    }
  }

  lemma AppliedAppend(accepted: seq<Frame>, applied: seq<nat>, f: Frame)
    requires AppliedOk(accepted, applied)
    requires f.Terminal? && f.outcome == Canceled(true) ==> f.id !in applied
    ensures AppliedOk(accepted + [f], applied)
  {
    ProjectAppend(accepted, f, 0);
  }

  // ---------------------------------------------------------------- preservation

  /** The step of a system before its loop top. */
  function Chosen(s: System, step: Step): System
    requires Enabled(s.m, step) && !IsEnvironment(step)
  {
    System(Select(s.m, step), Record(s.h, s.m, step))
  }

  /** What happens around the loop tells on the past only by what is written and where the worker is. */
  lemma AroundPast(s: System, n: System)
    requires Past(s) && n.m.c == s.m.c && n.h == s.h.(written := n.h.written)
    requires SameEffect(s.m.worker, n.m.worker)
    requires WrittenOk(s.h.accepted, s.h.written, s.m.writer, s.m.acks) ==>
               WrittenOk(n.h.accepted, n.h.written, n.m.writer, n.m.acks)
    ensures Past(n)
  {}

  predicate SameEffect(before: WorkerAt, after: WorkerAt) {
    (before.Exited? ==> after.Exited?) && (before == Finishing(true) <==> after == Finishing(true))
  }

  lemma EnvironmentWorker(m: Machine, step: Step)
    requires Inv(m) && Enabled(m, step) && IsEnvironment(step) && !step.EffectEnds?
    ensures SameEffect(m.worker, Environment(m, step).worker) && Environment(m, step).c == m.c
  {}

  lemma EnvironmentPast(s: System, step: Step)
    requires Inv(s.m) && Past(s) && Enabled(s.m, step) && IsEnvironment(step) && !step.EffectEnds?
    ensures Past(Apply(s, step))
  {
    EnvironmentWorker(s.m, step);
    EnvironmentRecord(s, step);
    AroundPast(s, Apply(s, step));
  }

  lemma EnvironmentRecord(s: System, step: Step)
    requires Inv(s.m) && Enabled(s.m, step) && IsEnvironment(step) && !step.EffectEnds?
    ensures var n := Apply(s, step);
            && n.h == s.h.(written := n.h.written)
            && (WrittenOk(s.h.accepted, s.h.written, s.m.writer, s.m.acks) ==>
                  WrittenOk(n.h.accepted, n.h.written, n.m.writer, n.m.acks))
  {}

  lemma EffectEndsPast(s: System, step: Step)
    requires Inv(s.m) && Past(s) && Enabled(s.m, step) && step.EffectEnds?
    ensures Past(Apply(s, step))
  {
    if step.effectApplied {
      EffectAppliedPast(s);
    } else {
      AroundPast(s, Apply(s, step));
    }
  }

  lemma EffectAppliedPast(s: System)
    requires Inv(s.m) && Past(s) && s.m.worker.InEffect?
    ensures Past(System(s.m.(worker := Finishing(true)),
                        s.h.(applied := s.h.applied + [s.m.c.active.value.request.id])))
  {
    AppliedGrows(s.h.accepted, s.h.applied, s.m.c.active.value.request.id);
  }

  /** An effect may be applied for a started request without a terminal and without another effect. */
  lemma AppliedGrows(accepted: seq<Frame>, applied: seq<nat>, id: nat)
    requires AppliedOk(accepted, applied) && id !in applied && id in Answers(accepted)
    requires Unended(Project(accepted, id))
    ensures AppliedOk(accepted, applied + [id])
  {
    forall k | 0 <= k < |accepted| && accepted[k].Terminal?
      ensures accepted[k].id != id
    {
      InProject(accepted, k);
    }
  }

  lemma QuietPast(s: System, step: Step)
    requires Inv(s.m) && Past(s) && Enabled(s.m, step)
    requires step.GrantRead? || step.SeeDecoderDone?
    ensures Past(Chosen(s, step))
  {}

  lemma SeeWriterDonePast(s: System)
    requires Inv(s.m) && Past(s) && Enabled(s.m, SeeWriterDone)
    ensures Past(Chosen(s, SeeWriterDone))
  {}

  lemma ExternalCancelPast(s: System)
    requires Inv(s.m) && Past(s) && Enabled(s.m, SeeExternalCancel)
    ensures Past(Chosen(s, SeeExternalCancel))
  {
    GracefulPast(s, Interrupted);
  }

  lemma CancelTimerPast(s: System)
    requires Inv(s.m) && Past(s) && Enabled(s.m, SeeCancelTimer)
    ensures Past(Chosen(s, SeeCancelTimer))
  {}

  // ---- shutdowns

  /** Once no frame can reach the writer, the past only has to stay as it is. */
  lemma ClosingPast(s: System, n: Machine)
    requires PastCore(s) && n.c.shutdown.Some? && !Open(n.c.shutdown)
    requires n.c.lastId == s.m.c.lastId && FatalOk(s.h.accepted, n.c.shutdown, n.c.pending)
    requires AnswerOf(n.c.pending) == AnswerOf(s.m.c.pending) || AnswerOf(n.c.pending) == []
    requires n.c.active.Some? ==>
               && s.m.c.active.Some? && n.worker == s.m.worker
               && n.c.active.value.request == s.m.c.active.value.request
               && n.c.active.value.workerStarted == s.m.c.active.value.workerStarted
               && n.c.active.value.effectCommitted == s.m.c.active.value.effectCommitted
    ensures Past(s.(m := n))
  {
    var answered := Answers(s.h.accepted);
    assert answered <= answered + AnswerOf(s.m.c.pending) <= s.h.received;
  }

  lemma ShutdownTimerPast(s: System)
    requires Inv(s.m) && Past(s) && Enabled(s.m, SeeShutdownTimer)
    ensures Past(Chosen(s, SeeShutdownTimer))
  {
    var n := Select(s.m, SeeShutdownTimer);
    if EffectInFlight(s.m.c.active) {
      QuietChange(s, n);
    } else {
      ClosingPast(s, n);
    }
  }

  lemma FatalPast(s: System, result: SessionError, kind: ProtocolKind)
    requires Core(s.m) && PastCore(s) && (!Failing(s.m.c.shutdown) || OpenTrace(s))
    ensures Past(s.(m := Arm(s.m, BeginFatal(s.m.c, result, kind))))
  {
    if !Failing(s.m.c.shutdown) {
      GoFatalPast(s, result, kind);
    }
  }

  lemma GoFatalPast(s: System, result: SessionError, kind: ProtocolKind)
    requires Core(s.m) && PastCore(s) && !Failing(s.m.c.shutdown)
    ensures Past(s.(m := Arm(s.m, GoFatal(s.m.c, result, kind))))
  {
    ClosingPast(s, Arm(s.m, GoFatal(s.m.c, result, kind)));
  }

  lemma BrokenPast(s: System)
    requires Inv(s.m) && Past(s) && Enabled(s.m, ReceiveAck) && s.m.acks.value.result.Broken?
    ensures Past(Chosen(s, ReceiveAck))
  {
    ClosingPast(s, Select(s.m, ReceiveAck));
  }

  // ---- changes that leave the trace of the active request alone

  lemma QuietChange(s: System, n: Machine)
    requires PastCore(s) && s.m.c.active.Some? && n.c.active.Some?
    requires n.c.pending == s.m.c.pending && n.c.inflight == s.m.c.inflight && n.c.held == s.m.c.held
    requires n.c.lastId == s.m.c.lastId && SameButTimer(s.m.c.shutdown, n.c.shutdown)
    requires n.writer == s.m.writer && n.acks == s.m.acks
    requires n.c.active.value.request == s.m.c.active.value.request
    requires n.c.active.value.sequence == s.m.c.active.value.sequence
    requires n.c.active.value.workerStarted == s.m.c.active.value.workerStarted
    requires s.m.worker.Exited? ==> n.worker.Exited?
    requires n.c.active.value.effectCommitted.On? || n.worker == Finishing(true) <==>
             s.m.c.active.value.effectCommitted.On? || s.m.worker == Finishing(true)
    ensures PastCore(s.(m := n))
    ensures OpenTrace(s) ==> OpenTrace(s.(m := n))
  {}

  lemma SeeWorkerDonePast(s: System)
    requires Inv(s.m) && Past(s) && Enabled(s.m, SeeWorkerDone)
    ensures Past(Chosen(s, SeeWorkerDone))
  {
    WorkerDoneFlags(s.m.c, s.m.worker);
    assert MaybeReleaseActive(MarkWorkerDone(s.m.c)) == MarkWorkerDone(s.m.c);
    QuietChange(s, Select(s.m, SeeWorkerDone));
  }

  lemma NumberedPast(s: System, n: Numbered)
    requires Core(s.m) && Past(s) && s.m.c.active.Some? && s.m.c.pending.None? && !TerminalWriteInFlight(s.m.c)
    requires s.m.c.active.value.workerStarted.On? && !Failing(s.m.c.shutdown)
    ensures Past(s.(m := Arm(s.m, QueueNumbered(s.m.c, n))))
  {
    if !HasSequence(s.m.c) {
      FatalPast(s, InternalFailure, Internal);
    }
  }

  // ---- input

  lemma CancelPast(s: System, id: nat)
    requires Control(s.m) && Past(s) && s.m.c.shutdown.None?
    ensures Past(s.(m := Arm(s.m, HandleCancel(s.m.c, id))))
  {
    if s.m.c.active.Some? {
      CancelFlags(s.m.c, id, s.m.worker);
      QuietChange(s, Arm(s.m, HandleCancel(s.m.c, id)));
    }
  }

  /** An id that is answered or held only now has no trace yet. */
  lemma FreshId(s: System, id: nat)
    requires PastCore(s) && Increasing(s.h.received)
    requires Answers(s.h.accepted) + [id] <= s.h.received
    ensures Project(s.h.accepted, id) == [] && id !in Answers(s.h.accepted) && id !in s.h.applied
  {
    var answered := Answers(s.h.accepted);
    assert (answered + [id])[|answered|] == id;
    assert forall i :: 0 <= i < |answered| ==> s.h.received[i] == answered[i];
  }

  lemma ProcessPast(s: System, request: Request)
    requires Control(s.m) && PastCore(s.(m := s.m.(c := s.m.c.(held := Some(request)))))
    requires OpenTrace(s) && s.m.c.shutdown.None? && s.m.c.held.None?
    requires s.m.c.pending.None? && !TerminalWriteInFlight(s.m.c)
    ensures Past(s.(m := Arm(s.m, ProcessRequest(s.m.c, request))))
  {
    FreshId(s.(m := s.m.(c := s.m.c.(held := Some(request)))), request.id);
  }

  /** The history after a new request was received, which is held for the moment. */
  lemma ReceivedPast(s: System, request: Request)
    requires Past(s) && s.m.c.shutdown.None? && s.m.c.held.None? && request.id > s.m.c.lastId
    ensures PastCore(System(s.m.(c := s.m.c.(lastId := request.id, held := Some(request))),
                            s.h.(received := s.h.received + [request.id])))
  {}

  lemma RequestPast(s: System, request: Request)
    requires Control(s.m) && Past(s) && s.m.c.shutdown.None? && s.m.c.phase.Serving? && s.m.c.held.None?
    ensures var d := HandleRequest(s.m.c, request);
            Past(System(Arm(s.m, d),
                        if d.lastId != s.m.c.lastId then s.h.(received := s.h.received + [d.lastId]) else s.h))
  {
    if request.id <= s.m.c.lastId {
      FatalPast(s, ProtocolFailure, Violation);
    } else {
      var t := System(s.m.(c := s.m.c.(lastId := request.id)), s.h.(received := s.h.received + [request.id]));
      ReceivedPast(s, request);
      if s.m.c.pending.None? && !TerminalWriteInFlight(s.m.c) {
        RaiseLastId(s.m, request.id);
        ProcessPast(t, request);
      }
    }
  }

  /** The system after the waiting decoded frame is handled. */
  function Relayed(s: System): System
    requires s.m.decoded.Some?
  {
    var c := TakeDecoded(s.m.c, s.m.decoded.value);
    System(Arm(s.m.(decoded := None), c),
           if c.lastId != s.m.c.lastId then s.h.(received := s.h.received + [c.lastId]) else s.h)
  }

  lemma BootstrapPast(s: System, frame: BootstrapParse)
    requires Control(s.m) && Past(s) && s.m.c.shutdown.None? && s.m.c.phase.Bootstrapping?
    ensures Past(s.(m := Arm(s.m, HandleBootstrapFrame(s.m.c, frame))))
  {
    match frame
    case Initialize(supported) => if !supported { FatalPast(s, ProtocolFailure, UnsupportedProtocol); }
    case Reject => FatalPast(s, ProtocolFailure, UnsupportedProtocol);
    case BootstrapOther => FatalPast(s, ProtocolFailure, Violation);
    case BootstrapInvalid(tooLarge) => FatalPast(s, ProtocolFailure, TooLargeOr(tooLarge));
  }

  lemma GracefulPast(s: System, result: SessionError)
    requires Control(s.m) && Past(s)
    ensures Past(s.(m := Arm(s.m, BeginGraceful(s.m.c, result))))
  {
    if s.m.c.shutdown.None? {
      var d := BeginGraceful(s.m.c, result);
      var answered := Answers(s.h.accepted) + AnswerOf(s.m.c.pending);
      assert answered <= answered + HeldIds(s.m.c.held);
      assert d == s.m.c.(shutdown := d.shutdown, inputClosed := On, held := None, heldBusy := Off, inputUnblocked := On,
                         active := d.active);
      assert ActiveTrace(s.h.accepted, s.h.applied, d.active, s.m.worker);
      assert d.active.Some? ==> d.active.value.sequence == s.m.c.active.value.sequence;
    }
  }

  lemma DecodedPast(s: System)
    requires Control(s.m) && Past(s) && s.m.decoded.Some?
    ensures Past(Relayed(s))
  {
    var t := s.(m := s.m.(decoded := None, c := s.m.c.(readOutstanding := Off)));
    assert Control(t.m) && Past(t);
    if t.m.c.shutdown.None? {
      assert t.m.c.held.None?;
      match s.m.decoded.value
      case InputEnded => GracefulPast(t.(m := t.m.(c := t.m.c.(inputClosed := On))), Clean);
      case InputFailed(tooLarge) => FatalPast(t, ProtocolFailure, TooLargeOr(tooLarge));
      case InputFrame(bootstrap, client) => InputPast(t, bootstrap, client);
    }
  }

  lemma BootstrapKeepsLastId(c: Coord, frame: BootstrapParse)
    ensures HandleBootstrapFrame(c, frame).lastId == c.lastId
  {}

  lemma InputPast(s: System, bootstrap: BootstrapParse, client: ClientParse)
    requires Control(s.m) && Past(s) && s.m.c.shutdown.None? && s.m.c.held.None?
    ensures var d := HandleDecoded(s.m.c, InputFrame(bootstrap, client));
            Past(System(Arm(s.m, d),
                        if d.lastId != s.m.c.lastId then s.h.(received := s.h.received + [d.lastId]) else s.h))
  {
    match s.m.c.phase
    case Bootstrapping =>
      BootstrapKeepsLastId(s.m.c, bootstrap);
      BootstrapPast(s, bootstrap);
    case Serving => ClientPast(s, client);
    case _ => FatalPast(s, ProtocolFailure, Violation);
  }

  lemma ClientPast(s: System, frame: ClientParse)
    requires Control(s.m) && Past(s) && s.m.c.shutdown.None? && s.m.c.phase.Serving? && s.m.c.held.None?
    ensures var d := HandleClientFrame(s.m.c, frame);
            Past(System(Arm(s.m, d),
                        if d.lastId != s.m.c.lastId then s.h.(received := s.h.received + [d.lastId]) else s.h))
  {
    match frame
    case Cancel(id) => CancelPast(s, id);
    case NewRequest(request) => RequestPast(s, request);
    case ClientOther => FatalPast(s, ProtocolFailure, Violation);
    case ClientInvalid(tooLarge) => FatalPast(s, ProtocolFailure, TooLargeOr(tooLarge));
  }

  lemma ReceiveAckPast(s: System)
    requires Inv(s.m) && Past(s) && Enabled(s.m, ReceiveAck)
    ensures Past(Chosen(s, ReceiveAck))
  {
    var t := s.(m := Acknowledged(s.m));
    match s.m.acks.value.result
    case Broken => BrokenPast(s);
    case CodecRejected =>
      AcknowledgedCore(s.m);
      FatalPast(t, InternalFailure, Internal);
    case Written => WrittenPast(s);
  }

  lemma WrittenPast(s: System)
    requires Inv(s.m) && Past(s) && Enabled(s.m, ReceiveAck) && s.m.acks.value.result.Written?
    ensures Past(Chosen(s, ReceiveAck))
  {
    var f := s.m.acks.value.frame;
    if f.Terminal? {
      TerminalWrittenKeeps(s.m);
    } else if f.Started? {
      StartedPast(s);
    } else {
      PlainWrittenPast(s);
    }
  }

  /** The coordinator after the acknowledgement of a frame that is neither `started` nor a terminal. */
  lemma PlainWritten(c: Coord, f: Frame)
    requires !f.Terminal? && !f.Started? && (f.FatalError? ==> IsFatal(c.shutdown))
    ensures var d := HandleWritten(c, f);
            && d == c.(phase := d.phase, shutdown := d.shutdown)
            && (if f.FatalError? then d.shutdown == Some(c.shutdown.value.(fatalWritten := On))
                else d.shutdown == c.shutdown)
  {}

  lemma PlainWrittenPast(s: System)
    requires Inv(s.m) && Past(s) && Enabled(s.m, ReceiveAck) && s.m.acks.value == Acked(s.m.acks.value.frame, Written)
    requires !s.m.acks.value.frame.Terminal? && !s.m.acks.value.frame.Started?
    ensures Past(Chosen(s, ReceiveAck))
  {
    var f := s.m.acks.value.frame;
    var c := s.m.c.(inflight := None);
    PlainWritten(c, f);
    var n := s.m.(acks := None, c := HandleWritten(c, f));
    assert Select(s.m, ReceiveAck) == n by {
      assert Hire(n.c, s.m.worker) == s.m.worker;
    }
    if f.FatalError? {
      ClosingPast(s, n);
    } else {
      HandedOver(s, s.h, n);
    }
  }

  /** Nothing the trace invariants watch has changed, or all of it was shown again. */
  lemma HandedOver(s: System, h: History, n: Machine)
    requires PastCore(System(s.m.(c := s.m.c.(pending := n.c.pending)), h))
    requires n.c.active == s.m.c.active && n.c.shutdown == s.m.c.shutdown && n.c.held == s.m.c.held
    requires n.c.lastId == s.m.c.lastId && n.worker == s.m.worker
    requires Open(n.c.shutdown) ==>
               && (n.c.active.Some? ==> Progress(h.accepted, n.c.active.value, n.c.pending, TerminalWriteInFlight(n.c)))
               && ClosedExcept(h.accepted, ActiveId(n.c.active))
               && WrittenOk(h.accepted, h.written, n.writer, n.acks)
    ensures Past(System(n, h))
  {}

  lemma StartedPast(s: System)
    requires Inv(s.m) && Past(s) && Enabled(s.m, ReceiveAck) && s.m.acks.value == Acked(s.m.acks.value.frame, Written)
    requires s.m.acks.value.frame.Started?
    ensures Past(Chosen(s, ReceiveAck))
  {
    if Open(s.m.c.shutdown) {
      assert Project(s.h.accepted, s.m.c.active.value.request.id) != [];
    }
  }

  // ---- worker messages

  lemma BeginPast(s: System)
    requires Control(s.m) && Past(s) && s.m.worker.Working?
    ensures var reply := AnswerBegin(s.m.c);
            Past(s.(m := Arm(s.m.(worker := BeginAnswered(reply.ack == Granted)), reply.coord)))
  {
    if s.m.c.active.Some? {
      QuietChange(s, Arm(s.m.(worker := BeginAnswered(AnswerBegin(s.m.c).ack == Granted)), AnswerBegin(s.m.c).coord));
    }
  }

  lemma FinishPast(s: System)
    requires Control(s.m) && Past(s) && s.m.worker.Finishing? && s.m.c.active.Some? && !TimedOut(s.m.c.shutdown)
    ensures Past(s.(m := Arm(s.m.(worker := Working), AnswerFinish(s.m.c, s.m.worker.applied).coord)))
  {
    QuietChange(s, Arm(s.m.(worker := Working), AnswerFinish(s.m.c, s.m.worker.applied).coord));
  }

  lemma CommittedPast(s: System)
    requires Inv(s.m) && Past(s) && CanReceive(s.m.c) && s.m.worker.Working?
    ensures Past(s.(m := Committed(s.m)))
  {
    QuietChange(s, Committed(s.m));
  }

  lemma OutcomePast(s: System, message: Message)
    requires Inv(s.m) && Past(s) && Enabled(s.m, ReceiveMessage(message)) && message.OutcomeMessage?
    ensures Past(Chosen(s, ReceiveMessage(message)))
  {
    CommittedCore(s.m);
    CommittedPast(s);
    var t := s.(m := Committed(s.m));
    var a := s.m.c.active.value;
    var n := Select(s.m, ReceiveMessage(message));
    if Failing(s.m.c.shutdown) {
      assert n == t.m;
    } else if !a.cancelAsked.On? && message.frameCount.Some?
              && a.sequence <= MAX_SAFE_INTEGER - message.frameCount.value
    {
      assert n.c == s.m.c.(active := n.c.active);
      QuietChange(s, n);
    } else {
      var outcome := if a.cancelAsked.On? then Canceled(true)
                     else if message.frameCount.None? && message.canceled then Canceled(false)
                     else Failed;
      NumberedPast(t, NumberedTerminal(outcome));
      assert n == Arm(t.m, QueueNumbered(t.m.c, NumberedTerminal(outcome)));
    }
  }

  lemma ReceiveMessagePast(s: System, message: Message)
    requires Inv(s.m) && Past(s) && Enabled(s.m, ReceiveMessage(message))
    ensures Past(Chosen(s, ReceiveMessage(message)))
  {
    if message.OutcomeMessage? {
      OutcomePast(s, message);
    } else if message == ProvisionalMessage {
      ProvisionalPast(s);
    } else if message == EffectMessage(Begin, false) {
      BeginMessagePast(s);
    } else {
      FinishPast(s);
    }
  }

  lemma ProvisionalPast(s: System)
    requires Inv(s.m) && Past(s) && Enabled(s.m, ReceiveMessage(ProvisionalMessage))
    ensures Past(Chosen(s, ReceiveMessage(ProvisionalMessage)))
  {
    if !Failing(s.m.c.shutdown) {
      NumberedPast(s, NumberedProvisional);
    }
  }

  lemma BeginMessagePast(s: System)
    requires Inv(s.m) && Past(s) && Enabled(s.m, ReceiveMessage(EffectMessage(Begin, false)))
    ensures Past(Chosen(s, ReceiveMessage(EffectMessage(Begin, false))))
  {
    if s.m.decoded.Some? {
      RelayedBeginPast(s);
    } else {
      BeginPast(s);
    }
  }

  lemma RelayedBeginPast(s: System)
    requires Inv(s.m) && Past(s) && Enabled(s.m, ReceiveMessage(EffectMessage(Begin, false))) && s.m.decoded.Some?
    ensures Past(Chosen(s, ReceiveMessage(EffectMessage(Begin, false))))
  {
    DecodedPast(s);
    DecodedKeeps(s.m);
    BeginPast(Relayed(s));
  }

  lemma SendFrameResult(m: Machine)
    requires Inv(m) && Enabled(m, SendFrame)
    ensures Select(m, SendFrame) ==
            m.(writer := Writing(m.c.pending.value), c := m.c.(inflight := m.c.pending, pending := None))
  {}

  function Sent(h: History, f: Frame): History { h.(accepted := h.accepted + [f]) }

  lemma SentTrace(s: System, f: Frame)
    requires Inv(s.m) && Past(s) && Enabled(s.m, SendFrame) && f == s.m.c.pending.value
    ensures TraceOk(Sent(s.h, f).accepted) && AppliedOk(Sent(s.h, f).accepted, s.h.applied)
  {
    PendingExtends(s);
    TraceAppend(s.h.accepted, f);
    AppliedAppend(s.h.accepted, s.h.applied, f);
  }

  lemma SentActive(s: System, f: Frame)
    requires Inv(s.m) && Past(s) && Enabled(s.m, SendFrame) && f == s.m.c.pending.value
    ensures ActiveTrace(Sent(s.h, f).accepted, s.h.applied, s.m.c.active, s.m.worker)
  {
    if s.m.c.active.Some? {
      ActiveAppend(s);
    }
  }

  lemma SentAnswers(received: seq<nat>, lastId: nat, accepted: seq<Frame>, f: Frame, held: seq<nat>, serving: bool)
    requires AnswersOk(received, lastId, Answers(accepted), AnswerOf(Some(f)), held, serving)
    ensures AnswersOk(received, lastId, Answers(accepted + [f]), [], held, serving)
  {
    ProjectAppend(accepted, f, 0);
    assert Answers(accepted + [f]) + [] == Answers(accepted) + AnswerOf(Some(f));
  }

  lemma SentFatal(accepted: seq<Frame>, f: Frame, shutdown: Option<Shutdown>)
    requires f.FatalError? ==> FatalQueued(shutdown)
    ensures FatalOk(accepted + [f], shutdown, None)
  {}

  lemma PendingFatal(m: Machine)
    requires Inv(m) && m.c.pending.Some? && m.c.pending.value.FatalError?
    ensures FatalQueued(m.c.shutdown)
  {}

  lemma SentCore(s: System, f: Frame)
    requires Inv(s.m) && Past(s) && Enabled(s.m, SendFrame) && f == s.m.c.pending.value
    ensures PastCore(System(s.m.(c := s.m.c.(pending := None)), Sent(s.h, f)))
  {
    SentTrace(s, f);
    SentActive(s, f);
    SentAnswers(s.h.received, s.m.c.lastId, s.h.accepted, f, HeldIds(s.m.c.held), s.m.c.shutdown.None?);
    if f.FatalError? {
      PendingFatal(s.m);
    }
    SentFatal(s.h.accepted, f, s.m.c.shutdown);
  }

  lemma SendFramePast(s: System)
    requires Inv(s.m) && Past(s) && Enabled(s.m, SendFrame)
    ensures Past(Chosen(s, SendFrame))
  {
    var f := s.m.c.pending.value;
    SendFrameResult(s.m);
    SentCore(s, f);
    if Open(s.m.c.shutdown) {
      SentOpen(s, f);
    }
    HandedOver(s, Sent(s.h, f), Select(s.m, SendFrame));
  }

  lemma SentOpen(s: System, f: Frame)
    requires Inv(s.m) && Past(s) && Enabled(s.m, SendFrame) && f == s.m.c.pending.value && Open(s.m.c.shutdown)
    ensures ClosedExcept(Sent(s.h, f).accepted, ActiveId(s.m.c.active))
    ensures WrittenOk(Sent(s.h, f).accepted, s.h.written, Writing(f), None)
    ensures s.m.c.active.Some? ==> Progress(Sent(s.h, f).accepted, s.m.c.active.value, None, f.Terminal?)
  {
    ClosedAppend(s.h.accepted, f, ActiveId(s.m.c.active));
    if s.m.c.active.Some? {
      ActiveAppend(s);
    }
  }

  lemma ActiveAppend(s: System)
    requires Inv(s.m) && Past(s) && Enabled(s.m, SendFrame) && s.m.c.active.Some?
    ensures var accepted := s.h.accepted + [s.m.c.pending.value];
            && ActiveTrace(accepted, s.h.applied, s.m.c.active, s.m.worker)
            && (Open(s.m.c.shutdown) ==>
                  Progress(accepted, s.m.c.active.value, None, s.m.c.pending.value.Terminal?))
  {
    var f := s.m.c.pending.value;
    PendingExtends(s);
    ProjectAppend(s.h.accepted, f, s.m.c.active.value.request.id);
  }

  /** The pending frame is the next one of its request. */
  lemma PendingExtends(s: System)
    requires Inv(s.m) && Past(s) && Enabled(s.m, SendFrame)
    ensures var f := s.m.c.pending.value;
            && !HasFatal(s.h.accepted)
            && (FrameId(f).Some? ==> Open(s.m.c.shutdown) && Extends(Project(s.h.accepted, FrameId(f).value), f))
            && (f.Terminal? && f.outcome == Canceled(true) ==> f.id !in s.h.applied)
  {
    var f := s.m.c.pending.value;
    if f.Started? || f.Rejected? {
      FreshId(s, f.id);
    }
  }

  lemma HeldPast(s: System)
    requires Control(s.m) && Past(s) && s.m.c.pending.None? && s.m.c.shutdown.None? && s.m.c.held.Some?
    requires !TerminalWriteInFlight(s.m.c)
    ensures Past(s.(m := s.m.(c := FillPending(s.m.c))))
  {
    var n := s.m.(c := s.m.c.(held := None, heldBusy := Off));
    if !s.m.c.heldBusy.On? {
      ProcessPast(s.(m := n), s.m.c.held.value);
    }
  }

  lemma NextSuccessPast(s: System)
    requires Control(s.m) && Past(s) && s.m.c.pending.None? && s.m.c.active.Some? && s.m.c.active.value.cursor.Some?
    requires !IsFatal(s.m.c.shutdown)
    ensures Past(s.(m := s.m.(c := QueueNextSuccess(s.m.c))))
  {}

  lemma FatalFramePast(s: System)
    requires Control(s.m) && Past(s) && s.m.c.pending.None?
    requires IsFatal(s.m.c.shutdown) && !s.m.c.shutdown.value.fatalQueued.On?
    ensures Past(s.(m := s.m.(c := FillPending(s.m.c))))
  {
    assert AnswerOf(FillPending(s.m.c).pending) == [];
  }

  lemma LoopTopPast(s: System)
    requires Control(s.m) && Past(s)
    ensures Past(s.(m := LoopTop(s.m)))
  {
    var c := s.m.c;
    if c.pending.Some? {
    } else if IsFatal(c.shutdown) && !c.shutdown.value.fatalQueued.On? {
      FatalFramePast(s);
    } else if c.shutdown.None? && c.held.Some? && !TerminalWriteInFlight(c) {
      HeldPast(s);
    } else if c.active.Some? && c.active.value.cursor.Some? && !c.active.value.abandoned.On? {
      NextSuccessPast(s);
    }
  }

  lemma ApplyPast(s: System, step: Step)
    requires Inv(s.m) && Past(s) && Enabled(s.m, step)
    ensures Past(Apply(s, step))
  {
    if step.EffectEnds? {
      EffectEndsPast(s, step);
    } else if IsEnvironment(step) {
      EnvironmentPast(s, step);
    } else {
      ChosenPast(s, step);
      SelectKeeps(s.m, step);
      LoopTopPast(Chosen(s, step));
    }
  }

  lemma ChosenPast(s: System, step: Step)
    requires Inv(s.m) && Past(s) && Enabled(s.m, step) && !IsEnvironment(step)
    ensures Past(Chosen(s, step))
  {
    if step.SendFrame? {
      SendFramePast(s);
    } else if step.ReceiveDecoded? {
      DecodedPast(s);
    } else if step.ReceiveAck? {
      ReceiveAckPast(s);
    } else if step.ReceiveMessage? {
      ReceiveMessagePast(s, step.message);
    } else {
      SignalPast(s, step);
    }
  }

  lemma SignalPast(s: System, step: Step)
    requires Inv(s.m) && Past(s) && Enabled(s.m, step) && !IsEnvironment(step)
    requires !step.SendFrame? && !step.ReceiveDecoded? && !step.ReceiveAck? && !step.ReceiveMessage?
    ensures Past(Chosen(s, step))
  {
    match step
    case GrantRead => QuietPast(s, step);
    case SeeWorkerDone => SeeWorkerDonePast(s);
    case SeeDecoderDone => QuietPast(s, step);
    case SeeWriterDone => SeeWriterDonePast(s);
    case SeeExternalCancel => ExternalCancelPast(s);
    case SeeCancelTimer => CancelTimerPast(s);
    case SeeShutdownTimer => ShutdownTimerPast(s);
  }
}
