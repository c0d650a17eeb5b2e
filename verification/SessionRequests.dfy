/** A request that waits behind a terminal write, followed through any run: it is never rejected. */
module SessionRequests {
  import opened Wire
  import opened Session
  import opened SessionSystem
  import opened SessionControl
  import opened SessionTrace
  import opened SessionTheorems

  predicate Unrejected(s: System, id: nat) { Rejected(id) !in s.h.accepted && s.m.c.pending != Some(Rejected(id)) }

  predicate StartOnItsWay(s: System, id: nat) { s.m.c.pending == Some(Started(id)) || Started(id) in s.h.accepted }

  lemma {:induction false} AnswerIsCounted(accepted: seq<Frame>, k: nat)
    requires k < |accepted| && (accepted[k].Started? || accepted[k].Rejected?)
    ensures accepted[k].id in Answers(accepted)
  {
    if k < |accepted| - 1 {
      AnswerIsCounted(accepted[..|accepted| - 1], k);
    }
  }

  lemma AcceptedAnswer(accepted: seq<Frame>, f: Frame)
    requires f in accepted && (f.Started? || f.Rejected?)
    ensures f.id in Answers(accepted)
  {
    var k :| 0 <= k < |accepted| && accepted[k] == f;
    AnswerIsCounted(accepted, k);
  }

  lemma PrefixIncreases(p: seq<nat>, s: seq<nat>)
    requires p <= s && Increasing(s)
    ensures Increasing(p)
  {
    assert forall i :: 0 <= i < |p| ==> p[i] == s[i];
  }

  lemma PartsAreApart(a: seq<nat>, b: seq<nat>, id: nat)
    requires Increasing(a + b)
    ensures !(id in a && id in b) && Increasing(a) && Increasing(b)
  {
    assert forall i :: 0 <= i < |a| ==> (a + b)[i] == a[i];
    assert forall j :: 0 <= j < |b| ==> (a + b)[|a| + j] == b[j];
  }

  /** An id is answered once: what is started, or waits to be, is not rejected. */
  lemma AnsweredOnce(s: System, id: nat)
    requires Past(s)
    requires StartOnItsWay(s, id) || (s.m.c.shutdown.None? && s.m.c.held.Some? && s.m.c.held.value.id == id)
    ensures Unrejected(s, id)
  {
    var answered, answering := Answers(s.h.accepted), AnswerOf(s.m.c.pending);
    var held := if s.m.c.shutdown.None? then HeldIds(s.m.c.held) else [];
    assert Increasing(answered + (answering + held)) by {
      assert answered + (answering + held) == answered + answering + held;
      PrefixIncreases(answered + (answering + held), s.h.received);
    }
    PartsAreApart(answered, answering + held, id);
    PartsAreApart(answering, held, id);
    if Started(id) in s.h.accepted {
      AcceptedAnswer(s.h.accepted, Started(id));
    }
    if Rejected(id) in s.h.accepted {
      AcceptedAnswer(s.h.accepted, Rejected(id));
      var k :| 0 <= k < |s.h.accepted| && s.h.accepted[k] == Rejected(id);
      OnlyOneAnswer(s.h.accepted, k, id);
    }
  }

  lemma OnlyOneAnswer(accepted: seq<Frame>, k: nat, id: nat)
    requires TraceOk(accepted) && k < |accepted| && accepted[k] == Rejected(id)
    ensures Started(id) !in accepted
  {
    var frames := Project(accepted, id);
    assert Lifecycle(frames);
    InProject(accepted, k);
    forall j | 0 <= j < |accepted| && FrameId(accepted[j]) == Some(id)
      ensures accepted[j] in frames
    {
      InProject(accepted, j);
    }
    assert Started(id) in accepted ==> Started(id) in frames;
  }

  // ---------------------------------------------------------------- single steps

  /** A rejection in the pending slot that was not there before. */
  predicate NewRejection(before: Option<Frame>, after: Option<Frame>) {
    after.Some? && after.value.Rejected? && before != after
  }

  lemma FillPendingRejects(c: Coord)
    ensures FillPending(c).shutdown.Some? ==> !NewRejection(c.pending, FillPending(c).pending)
  {}

  lemma DecodedRejects(c: Coord, decoded: Decoded)
    ensures TakeDecoded(c, decoded).shutdown.Some? ==> !NewRejection(c.pending, TakeDecoded(c, decoded).pending)
  {}

  lemma AckRejects(c: Coord, frame: Frame, result: WriteResult)
    ensures !NewRejection(c.pending, HandleWriteAck(c, frame, result).pending)
  {}

  lemma MessageRejects(m: Machine, message: Message)
    requires Inv(m) && Enabled(m, ReceiveMessage(message))
    ensures var d := HandleWorkerMessage(m.c, message, m.decoded).coord;
            d.shutdown.Some? ==> !NewRejection(m.c.pending, d.pending)
  {
    if message == EffectMessage(Begin, false) && m.decoded.Some? {
      DecodedRejects(m.c, m.decoded.value);
    }
  }

  /** Under shutdown no request is answered any more. */
  lemma NoRejectionUnderShutdown(m: Machine, step: Step)
    requires Inv(m) && Enabled(m, step) && Move(m, step).c.shutdown.Some?
    ensures !NewRejection(if step.SendFrame? then None else m.c.pending, Move(m, step).c.pending)
  {
    if !IsEnvironment(step) {
      FillPendingRejects(Select(m, step).c);
      match step
      case ReceiveDecoded => DecodedRejects(m.c, m.decoded.value);
      case ReceiveAck => AckRejects(m.c, m.acks.value.frame, m.acks.value.result);
      case ReceiveMessage(message) => MessageRejects(m, message);
      case _ =>
    }
  }

  /** A start that waits in its slot is handed over, unless the session shuts down. */
  lemma StartIsHandedOver(s: System, step: Step, id: nat)
    requires Reachable(s) && Enabled(s.m, step) && StartOnItsWay(s, id)
    ensures StartOnItsWay(Apply(s, step), id) || Apply(s, step).m.c.shutdown.Some?
  {
    ReachableInv(s);
    if s.m.c.pending == Some(Started(id)) && !step.SendFrame? && !IsEnvironment(step) {
      StartStays(s.m, step, id);
    }
  }

  lemma StartStays(m: Machine, step: Step, id: nat)
    requires Inv(m) && Enabled(m, step) && !step.SendFrame? && !IsEnvironment(step) && m.c.pending == Some(Started(id))
    ensures Select(m, step).c.pending == Some(Started(id)) || Select(m, step).c.shutdown.Some?
    ensures Select(m, step).c.shutdown.Some? ==> Move(m, step).c.shutdown.Some?
  {}

  lemma HandlersKeepShutdown(c: Coord, decoded: Decoded, frame: Frame, result: WriteResult)
    requires c.shutdown.Some?
    ensures FillPending(c).shutdown.Some? && TakeDecoded(c, decoded).shutdown.Some?
    ensures HandleWriteAck(c, frame, result).shutdown.Some?
  {}

  lemma MessagesKeepShutdown(m: Machine, message: Message)
    requires Inv(m) && Enabled(m, ReceiveMessage(message)) && m.c.shutdown.Some?
    ensures HandleWorkerMessage(m.c, message, m.decoded).coord.shutdown.Some?
  {}

  lemma ShutdownIsForGood(m: Machine, step: Step)
    requires Inv(m) && Enabled(m, step) && m.c.shutdown.Some?
    ensures Move(m, step).c.shutdown.Some?
  {
    if !IsEnvironment(step) {
      match step {
        case ReceiveDecoded => HandlersKeepShutdown(m.c, m.decoded.value, Hello, Written);
        case ReceiveAck => HandlersKeepShutdown(m.c, InputEnded, m.acks.value.frame, m.acks.value.result);
        case ReceiveMessage(message) => MessagesKeepShutdown(m, message);
        case _ =>
      }
      assert Select(m, step).c.shutdown.Some?;
      HandlersKeepShutdown(Select(m, step).c, InputEnded, Hello, Written);
    }
  }

  // ---------------------------------------------------------------- runs

  /** The request waits, or its start is on its way or sent, or the session shuts down without a word to it. */
  predicate NotRefused(s: System, request: Request) {
    && Unrejected(s, request.id)
    && (Waiting(s.m, request) || StartOnItsWay(s, request.id) || s.m.c.shutdown.Some?)
  }

  lemma NotRefusedStep(s: System, step: Step, request: Request)
    requires Reachable(s) && Enabled(s.m, step) && Reachable(Apply(s, step)) && NotRefused(s, request)
    ensures NotRefused(Apply(s, step), request)
  {
    var n := Apply(s, step);
    ReachableKeeps(n);
    if n.m.c.shutdown.None? {
      if s.m.c.shutdown.Some? {
        ReachableInv(s);
        ShutdownIsForGood(s.m, step);
      } else if Waiting(s.m, request) {
        WaitingRequestIsStarted(s, request, step);
      } else {
        StartIsHandedOver(s, step, request.id);
      }
      AnsweredOnce(n, request.id);
    } else {
      ReachableInv(s);
      NoRejectionUnderShutdown(s.m, step);
    }
  }

  lemma ReachableNext(s: System, step: Step)
    requires Reachable(s) && Enabled(s.m, step)
    ensures Reachable(Apply(s, step))
  {
    var steps :| IsRun(START, steps) && After(START, steps) == s;
    RunExtends(START, steps, step);
  }

  lemma {:induction false} RunExtends(s: System, steps: seq<Step>, step: Step)
    requires IsRun(s, steps) && Enabled(After(s, steps).m, step)
    ensures IsRun(s, steps + [step]) && After(s, steps + [step]) == Apply(After(s, steps), step)
    decreases |steps|
  {
    if steps == [] {
      assert steps + [step] == [step];
      assert [step][1..] == [];
    } else {
      RunExtends(Apply(s, steps[0]), steps[1..], step);
      assert (steps + [step])[1..] == steps[1..] + [step];
    }
  }

  /** A request decoded while a terminal write was in flight is never rejected, in any run from there:
      it waits, it is started, or the session shuts down. */
  lemma {:induction false} WaitingRequestIsNeverRejected(s: System, request: Request, steps: seq<Step>)
    requires Reachable(s) && NotRefused(s, request) && IsRun(s, steps)
    ensures NotRefused(After(s, steps), request)
    decreases |steps|
  {
    if steps != [] {
      ReachableNext(s, steps[0]);
      NotRefusedStep(s, steps[0], request);
      WaitingRequestIsNeverRejected(Apply(s, steps[0]), request, steps[1..]);
    }
  }

  /** A waiting request is not refused to begin with. */
  lemma WaitingIsNotRefused(s: System, request: Request)
    requires Reachable(s) && Waiting(s.m, request)
    ensures NotRefused(s, request)
  {
    ReachableKeeps(s);
    AnsweredOnce(s, request.id);
  }
}
