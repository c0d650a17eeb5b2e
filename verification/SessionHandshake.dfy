/**
  The handshake: hello, a supported initialize, ready, and only then requests.

  A run is followed by a record of its own: whether a supported initialize was decoded while the
  session was waiting for one.
*/
module SessionHandshake {
  import opened Wire
  import opened Session
  import opened SessionSystem
  import opened SessionControl
  import opened SessionTheorems
  import opened SessionOutcomes

  predicate Agrees(m: Machine, step: Step) {
    step.ReceiveDecoded? && m.decoded.Some? && m.c.shutdown.None? && m.c.phase.Bootstrapping?
    && m.decoded.value.InputFrame? && m.decoded.value.bootstrap == Initialize(true)
  }

  function AgreedAfter(s: System, steps: seq<Step>, agreed: bool): bool
    requires IsRun(s, steps)
    decreases |steps|
  {
    if steps == [] then agreed else AgreedAfter(Apply(s, steps[0]), steps[1..], agreed || Agrees(s.m, steps[0]))
  }

  /** Hello is the first frame and no other, ready the second and no other, and what has an id comes after both. */
  predicate HandshakeFirst(accepted: seq<Frame>) {
    forall k :: 0 <= k < |accepted| ==>
                  && (accepted[k].Hello? ==> k == 0)
                  && (accepted[k].Ready? ==> k == 1 && accepted[0].Hello?)
                  && (FrameId(accepted[k]).Some? ==> k >= 2 && accepted[0].Hello? && accepted[1].Ready?)
  }

  /** The phase says how far the handshake has come, in the slots or with the writer. */
  predicate PhaseFits(c: Coord, accepted: seq<Frame>, agreed: bool) {
    match c.phase
    case AwaitHello =>
      !agreed && (if c.inflight == Some(Hello) then accepted == [Hello] else accepted == [] || Failing(c.shutdown))
    case Bootstrapping =>
      !agreed && accepted != [] && accepted[0].Hello? && (accepted == [Hello] || Failing(c.shutdown))
    case AwaitReady =>
      && agreed && accepted != [] && accepted[0].Hello?
      && (if c.inflight == Some(Ready) then accepted == [Hello, Ready] else accepted == [Hello] || Failing(c.shutdown))
    case Serving => agreed && |accepted| >= 2 && accepted[0].Hello? && accepted[1].Ready?
  }

  predicate Shakes(s: System, agreed: bool) {
    && HandshakeFirst(s.h.accepted) && PhaseFits(s.m.c, s.h.accepted, agreed)
    && InflightIsLast(s.m.c.inflight, s.h.accepted)
  }

  // ---------------------------------------------------------------- every step keeps it

  /** Nothing that the phase speaks of has changed, but that the session may be failing now. */
  predicate SamePhase(c: Coord, d: Coord) {
    && d.phase == c.phase && (Failing(c.shutdown) ==> Failing(d.shutdown))
    && (d.inflight == c.inflight || (d.inflight.None? && Failing(d.shutdown)))
  }

  lemma SamePhaseFits(c: Coord, d: Coord, accepted: seq<Frame>, agreed: bool)
    requires PhaseFits(c, accepted, agreed) && SamePhase(c, d)
    ensures PhaseFits(d, accepted, agreed)
  {}

  lemma DecodedShakes(m: Machine, accepted: seq<Frame>, agreed: bool)
    requires Inv(m) && m.decoded.Some? && PhaseFits(m.c, accepted, agreed)
    ensures PhaseFits(TakeDecoded(m.c, m.decoded.value), accepted, agreed || Agrees(m, ReceiveDecoded))
  {
    if !Agrees(m, ReceiveDecoded) {
      OtherInputKeepsPhase(m);
      SamePhaseFits(m.c, TakeDecoded(m.c, m.decoded.value), accepted, agreed);
    }
  }

  lemma OtherInputKeepsPhase(m: Machine)
    requires Inv(m) && m.decoded.Some? && !Agrees(m, ReceiveDecoded)
    ensures SamePhase(m.c, TakeDecoded(m.c, m.decoded.value))
  {}

  lemma MessageKeepsPhase(m: Machine, message: Message)
    requires Inv(m) && Enabled(m, ReceiveMessage(message))
    ensures SamePhase(m.c, HandleWorkerMessage(m.c, message, m.decoded).coord)
  {
    if message.EffectMessage? {
      BoundaryKeepsPhase(m, message);
    } else {
      PlainKeepsPhase(m.c, message);
    }
  }

  lemma PlainKeepsPhase(c: Coord, message: Message)
    ensures SamePhase(c, HandlePlainMessage(c, message))
  {}

  lemma BoundaryKeepsPhase(m: Machine, message: Message)
    requires Inv(m) && Enabled(m, ReceiveMessage(message)) && message.EffectMessage?
    ensures SamePhase(m.c, HandleWorkerMessage(m.c, message, m.decoded).coord)
  {
    if message.stage.Begin? {
      if m.decoded.Some? {
        OtherInputKeepsPhase(m);
      }
      AnswersKeepPhase(if m.decoded.Some? then TakeDecoded(m.c, m.decoded.value) else m.c, false);
    } else {
      AnswersKeepPhase(m.c, message.applied);
    }
  }

  lemma AnswersKeepPhase(c: Coord, applied: bool)
    ensures SamePhase(c, AnswerBegin(c).coord)
    ensures c.active.Some? ==> SamePhase(c, AnswerFinish(c, applied).coord)
  {}

  lemma AckShakes(m: Machine, accepted: seq<Frame>, agreed: bool)
    requires Inv(m) && Enabled(m, ReceiveAck) && PhaseFits(m.c, accepted, agreed)
    ensures PhaseFits(Select(m, ReceiveAck).c, accepted, agreed)
  {
    if m.acks.value.result.Written? && m.acks.value.frame.Terminal? {
      TerminalWrittenKeeps(m);
    }
  }

  /** What may be sent next: hello to nobody, ready after it, the rest after both. */
  lemma SendShakes(m: Machine, accepted: seq<Frame>, agreed: bool)
    requires Inv(m) && Enabled(m, SendFrame) && PhaseFits(m.c, accepted, agreed) && HandshakeFirst(accepted)
    ensures PhaseFits(Submit(m.c), accepted + [m.c.pending.value], agreed)
    ensures HandshakeFirst(accepted + [m.c.pending.value])
  {
    var longer := accepted + [m.c.pending.value];
    assert forall k :: 0 <= k < |accepted| ==> longer[k] == accepted[k];
  }

  lemma SignalKeepsPhase(m: Machine, step: Step)
    requires Inv(m) && Enabled(m, step) && !IsEnvironment(step)
    requires !step.SendFrame? && !step.ReceiveMessage? && !step.ReceiveDecoded? && !step.ReceiveAck?
    ensures SamePhase(m.c, Select(m, step).c)
  {}

  lemma TopKeepsPhase(m: Machine)
    requires Control(m)
    ensures SamePhase(m.c, FillPending(m.c))
  {}

  lemma StepShakes(s: System, step: Step, agreed: bool)
    requires Inv(s.m) && Shakes(s, agreed) && Enabled(s.m, step)
    ensures Shakes(Apply(s, step), agreed || Agrees(s.m, step))
  {
    InflightStaysLast(s, step);
    if !IsEnvironment(step) {
      ArmShakes(s, step, agreed);
      var n := Select(s.m, step);
      SelectKeeps(s.m, step);
      TopKeepsPhase(n);
      SamePhaseFits(n.c, FillPending(n.c), Record(s.h, s.m, step).accepted, agreed || Agrees(s.m, step));
    }
  }

  lemma ArmShakes(s: System, step: Step, agreed: bool)
    requires Inv(s.m) && Shakes(s, agreed) && Enabled(s.m, step) && !IsEnvironment(step)
    ensures PhaseFits(Select(s.m, step).c, Record(s.h, s.m, step).accepted, agreed || Agrees(s.m, step))
    ensures HandshakeFirst(Record(s.h, s.m, step).accepted)
  {
    var m, accepted := s.m, s.h.accepted;
    if step.SendFrame? {
      SendShakes(m, accepted, agreed);
    } else if step.ReceiveDecoded? {
      DecodedShakes(m, accepted, agreed);
    } else if step.ReceiveAck? {
      AckShakes(m, accepted, agreed);
    } else {
      if step.ReceiveMessage? {
        MessageKeepsPhase(m, step.message);
      } else {
        SignalKeepsPhase(m, step);
      }
      SamePhaseFits(m.c, Select(m, step).c, accepted, agreed);
    }
  }

  lemma {:induction false} RunShakes(s: System, steps: seq<Step>, agreed: bool)
    requires Inv(s.m) && Shakes(s, agreed) && IsRun(s, steps)
    ensures Shakes(After(s, steps), AgreedAfter(s, steps, agreed))
    decreases |steps|
  {
    if steps != [] {
      MoveKeeps(s.m, steps[0]);
      StepShakes(s, steps[0], agreed);
      RunShakes(Apply(s, steps[0]), steps[1..], agreed || Agrees(s.m, steps[0]));
    }
  }

  /** In any run: hello is written first, ready second and only after a supported initialize, and nothing with an id
      before both. */
  lemma HandshakeComesFirst(steps: seq<Step>)
    requires IsRun(START, steps)
    ensures var s, agreed := After(START, steps), AgreedAfter(START, steps, false);
            && HandshakeFirst(s.h.accepted) && PhaseFits(s.m.c, s.h.accepted, agreed)
            && (s.m.c.phase.Serving? || s.m.c.phase.AwaitReady? <==> agreed)
  {
    StartKeeps();
    assert START.m.c == INITIAL;
    RunShakes(START, steps, false);
  }
}
