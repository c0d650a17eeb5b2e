/**
  What every run of a session keeps, in the words of the protocol.

  Each theorem speaks of an arbitrary reachable system: any interleaving of the coordinator, the
  decoder, the writer, the worker, the timers and the outside world.
*/
module SessionTheorems {
  import opened Wire
  import opened Session
  import opened SessionSystem
  import opened SessionControl
  import opened SessionTrace

  lemma {:induction false} RunKeeps(s: System, steps: seq<Step>)
    requires Inv(s.m) && Past(s) && IsRun(s, steps)
    ensures Inv(After(s, steps).m) && Past(After(s, steps))
    decreases |steps|
  {
    if steps != [] {
      MoveKeeps(s.m, steps[0]);
      ApplyPast(s, steps[0]);
      RunKeeps(Apply(s, steps[0]), steps[1..]);
    }
  }

  lemma StartKeeps()
    ensures Inv(START.m) && Past(START)
  {
    assert START.m.c == INITIAL;
    StartInv();
    StartPast();
  }

  lemma StartInv()
    ensures Inv(LoopTop(Machine(INITIAL, Absent, WriterIdle, None, DecoderIdle, None, Off)))
  {}

  lemma StartPast()
    ensures Past(START)
  {
    assert START.m.c == INITIAL;
    EmptyPast(START);
  }

  lemma EmptyPast(s: System)
    requires s.h == History([], [], [], []) && s.m.c == INITIAL
    requires s.m.writer.WriterIdle? && s.m.acks.None?
    ensures Past(s)
  {
    assert AnswersOk([], 0, [], [], [], true);
    assert TraceOk([]) && AppliedOk([], []);
  }

  lemma ReachableKeeps(s: System)
    requires Reachable(s)
    ensures Inv(s.m) && Past(s)
  {
    var steps :| IsRun(START, steps) && After(START, steps) == s;
    StartKeeps();
    RunKeeps(START, steps);
  }

  lemma ReachableInv(s: System)
    requires Reachable(s)
    ensures Inv(s.m)
  {
    ReachableKeeps(s);
  }

  // ---------------------------------------------------------------- effects and cancellation

  /** A request whose effect was applied never gets a canceled terminal because of a client cancel or
      a shutdown, and no request has two applied effects. */
  lemma AppliedEffectIsNeverCanceled(s: System)
    requires Reachable(s)
    ensures Distinct(s.h.applied)
    ensures forall k :: 0 <= k < |s.h.accepted| && s.h.accepted[k].Terminal? && s.h.accepted[k].id in s.h.applied ==>
                          s.h.accepted[k].outcome != Canceled(true)
    ensures NotCanceled(s.m.c.pending, s.h.applied) && NotCanceled(s.m.c.inflight, s.h.applied)
  {
    ReachableKeeps(s);
    SlotsNotCanceled(s);
  }

  lemma SlotsNotCanceled(s: System)
    requires Inv(s.m) && Past(s)
    ensures NotCanceled(s.m.c.pending, s.h.applied) && NotCanceled(s.m.c.inflight, s.h.applied)
  {}

  predicate NotCanceled(slot: Option<Frame>, applied: seq<nat>) {
    slot.Some? && slot.value.Terminal? && slot.value.id in applied ==> slot.value.outcome != Canceled(true)
  }

  /** A begin is granted only to an operation nobody asked to cancel, in a session that is not
      shutting down, with no effect applied before; a frame that was already decoded is read first. */
  lemma GrantedBeginIsUndisputed(s: System)
    requires Reachable(s) && Enabled(s.m, ReceiveMessage(EffectMessage(Begin, false)))
    ensures var reply := HandleWorkerMessage(s.m.c, EffectMessage(Begin, false), s.m.decoded);
            && (reply.consumed <==> s.m.decoded.Some?)
            && (reply.ack == Granted ==>
                  && reply.coord.shutdown.None?
                  && reply.coord.active.Some?
                  && !reply.coord.active.value.cancelAsked.On?
                  && !reply.coord.active.value.opCanceled.On?
                  && reply.coord.active.value.effectCommitting.On?
                  && reply.coord.active.value.request.id !in s.h.applied)
  {
    ReachableKeeps(s);
    if s.m.decoded.Some? {
      DecodedKeeps(s.m);
    }
  }

  /** A cancel that is already decoded when the begin is selected blocks the effect. */
  lemma DecodedCancelBlocksEffect(s: System, bootstrap: BootstrapParse)
    requires Reachable(s) && Enabled(s.m, ReceiveMessage(EffectMessage(Begin, false)))
    requires s.m.decoded == Some(InputFrame(bootstrap, Cancel(s.m.c.active.value.request.id)))
    ensures Apply(s, ReceiveMessage(EffectMessage(Begin, false))).m.worker == BeginAnswered(false)
  {
    ReachableInv(s);
    CancelThenBegin(s.m, bootstrap);
  }

  lemma CancelThenBegin(m: Machine, bootstrap: BootstrapParse)
    requires Inv(m) && Enabled(m, ReceiveMessage(EffectMessage(Begin, false)))
    requires m.decoded == Some(InputFrame(bootstrap, Cancel(m.c.active.value.request.id)))
    ensures HandleWorkerMessage(m.c, EffectMessage(Begin, false), m.decoded).ack != Granted
  {}

  /** A cancel deferred during the attempt wins exactly when the effect was not applied. */
  lemma DeferredCancelWinsIffNotApplied(s: System)
    requires Reachable(s) && s.m.worker.Finishing?
        && Enabled(s.m, ReceiveMessage(EffectMessage(Finish, s.m.worker.applied)))
    requires s.m.c.shutdown.None? && s.m.c.active.value.cancelAsked.On?
    ensures var a := Apply(s, ReceiveMessage(EffectMessage(Finish, s.m.worker.applied))).m.c.active;
            && a.Some?
            && (a.value.cancelAsked.On? <==> !s.m.worker.applied)
            && (a.value.opCanceled.On? <==> !s.m.worker.applied)
            && (a.value.cancelTimer.On? <==> !s.m.worker.applied)
            && (a.value.effectCommitted.On? <==> s.m.worker.applied)
  {
    ReachableInv(s);
    var step := ReceiveMessage(EffectMessage(Finish, s.m.worker.applied));
    var c := FinishSettles(s.m);
    assert Apply(s, step).m.c == FillPending(c);
  }

  /** The coordinator after a finish, and that the next loop top leaves its operation alone. */
  lemma FinishSettles(m: Machine) returns (c: Coord)
    requires Inv(m) && m.worker.Finishing? && Enabled(m, ReceiveMessage(EffectMessage(Finish, m.worker.applied)))
    requires m.c.shutdown.None? && m.c.active.value.cancelAsked.On?
    ensures c == Select(m, ReceiveMessage(EffectMessage(Finish, m.worker.applied))).c
    ensures var a := c.active;
            && a.Some? && FillPending(c).active == a
            && (a.value.cancelAsked.On? <==> !m.worker.applied)
            && (a.value.opCanceled.On? <==> !m.worker.applied)
            && (a.value.cancelTimer.On? <==> !m.worker.applied)
            && (a.value.effectCommitted.On? <==> m.worker.applied)
  {
    c := AnswerFinish(m.c, m.worker.applied).coord;
  }

  /** The terminal of a request says `canceled` on request exactly when a cancel stands against it. */
  lemma TerminalSaysWhetherCanceled(s: System)
    requires Reachable(s)
    ensures SaysWhetherCanceled(s.m.c.pending, s.m.c.active) && SaysWhetherCanceled(s.m.c.inflight, s.m.c.active)
  {
    ReachableInv(s);
  }

  predicate SaysWhetherCanceled(slot: Option<Frame>, active: Option<Active>) {
    slot.Some? && slot.value.Terminal? ==>
      && active.Some? && active.value.request.id == slot.value.id
      && (slot.value.outcome == Canceled(true) <==> active.value.cancelAsked.On?)
  }

  /** While an effect is under way, and after it was applied until the worker exits, nothing cancels
      what it needs, gives the request up, or ends the loop. */
  lemma EffectIsShielded(s: System)
    requires Reachable(s) && EffectInFlight(s.m.c.active)
    ensures var a := s.m.c.active.value;
            !a.opCanceled.On? && !a.outcomeCanceled.On? && !a.abandoned.On? && !s.m.finished.On?
    ensures !TimedOut(s.m.c.shutdown)
  {
    ReachableInv(s);
  }

  /** From the grant to the finish the coordinator and the worker agree that an effect is under way. */
  lemma CommittingMeansWorkerInside(s: System)
    requires Reachable(s) && s.m.c.active.Some?
    ensures s.m.c.active.value.effectCommitting.On? <==> InsideEffect(s.m.worker)
    ensures s.m.c.active.value.effectCommitting.On? ==> !s.m.c.active.value.workerDone.On?
  {
    ReachableInv(s);
  }

  // ---------------------------------------------------------------- the frames of a request

  /** The frames the writer took for one id: `started` with sequence 1, then gap-free sequence
      numbers, at most one terminal and nothing after it; or one rejection. */
  lemma FramesFormALifecycle(s: System, id: nat)
    requires Reachable(s)
    ensures Lifecycle(Project(s.h.accepted, id))
  {
    ReachableKeeps(s);
  }

  /** A terminal is handed to the writer only after the worker has exited. */
  lemma TerminalFollowsWorker(s: System)
    requires Reachable(s) && Enabled(s.m, SendFrame) && s.m.c.pending.value.Terminal?
    ensures s.m.worker.Exited? && s.m.c.active.Some? && s.m.c.active.value.workerDone.On?
  {
    ReachableInv(s);
  }

  /** After a fatal frame the writer takes nothing more. */
  lemma FatalFrameIsLast(s: System, k: nat)
    requires Reachable(s) && k < |s.h.accepted| && s.h.accepted[k].FatalError?
    ensures k == |s.h.accepted| - 1
  {
    ReachableKeeps(s);
  }

  /** A session that ends gracefully and in time has nothing left to send, has written in full every
      frame it handed over, and has closed every request it started with one terminal, the last of
      its frames. */
  lemma GracefulEndClosesEveryRequest(s: System, id: nat)
    requires Reachable(s) && s.m.finished.On? && !Failing(s.m.c.shutdown) && !TimedOut(s.m.c.shutdown)
    ensures s.m.c.active.None? && s.m.c.pending.None? && s.m.c.inflight.None?
    ensures s.h.written == s.h.accepted
    ensures var frames := Project(s.h.accepted, id);
            frames != [] && frames[0].Started? ==>
              forall k :: 0 <= k < |frames| ==> (frames[k].Terminal? <==> k == |frames| - 1)
  {
    ReachableKeeps(s);
  }

  // ---------------------------------------------------------------- requests and their answers

  /** No one-slot buffer is ever filled while it is full. */
  lemma SlotsAreNeverOverwritten(s: System)
    requires Reachable(s)
    ensures !s.m.c.overwritten.On?
  {
    ReachableInv(s);
  }

  /** Requests are answered once each, in the order of their increasing ids: all but the one held
      while the session runs, and a prefix of them once it is shutting down. */
  lemma RequestsAreAnsweredInOrder(s: System)
    requires Reachable(s)
    ensures Increasing(s.h.received)
    ensures s.m.c.shutdown.None? ==>
              Answers(s.h.accepted) + AnswerOf(s.m.c.pending) + HeldIds(s.m.c.held) == s.h.received
    ensures Answers(s.h.accepted) + AnswerOf(s.m.c.pending) <= s.h.received
  {
    ReachableKeeps(s);
  }

  /** A request that was decoded while a terminal write is in flight, and waits for it. */
  predicate Waiting(m: Machine, request: Request) {
    m.c.shutdown.None? && TerminalWriteInFlight(m.c) && m.c.held == Some(request) && !m.c.heldBusy.On?
  }

  lemma DecodedBehindTerminalWaits(s: System, bootstrap: BootstrapParse, request: Request)
    requires Reachable(s) && s.m.c.shutdown.None? && TerminalWriteInFlight(s.m.c) && Enabled(s.m, ReceiveDecoded)
    requires s.m.decoded == Some(InputFrame(bootstrap, NewRequest(request))) && request.id > s.m.c.lastId
    ensures Waiting(Apply(s, ReceiveDecoded).m, request)
  {
    ReachableInv(s);
    HeldBehindTerminal(s.m, bootstrap, request);
  }

  lemma HeldBehindTerminal(m: Machine, bootstrap: BootstrapParse, request: Request)
    requires Inv(m) && m.c.shutdown.None? && TerminalWriteInFlight(m.c) && Enabled(m, ReceiveDecoded)
    requires m.decoded == Some(InputFrame(bootstrap, NewRequest(request))) && request.id > m.c.lastId
    ensures var c := m.c.(readOutstanding := Off, lastId := request.id, held := Some(request), heldBusy := Off);
            TakeDecoded(m.c, m.decoded.value) == c && FillPending(c) == c
  {}

  /** Whatever happens next, it keeps waiting until it is started or the session shuts down: it is
      never rejected as busy. */
  lemma WaitingRequestIsStarted(s: System, request: Request, step: Step)
    requires Reachable(s) && Waiting(s.m, request) && Enabled(s.m, step)
    ensures var n := Apply(s, step).m;
            Waiting(n, request) || n.c.pending == Some(Started(request.id)) || n.c.shutdown.Some?
  {
    ReachableInv(s);
    if step.ReceiveAck? && s.m.acks.value.result.Written? {
      TerminalWrittenKeeps(s.m);
    }
  }

  // ---------------------------------------------------------------- reads and writes

  /** One permit, one result: a read is outstanding exactly while the decoder reads or its result waits,
      and no request is held then.  One frame, one acknowledgement: a frame is in flight exactly while
      the writer has it or its acknowledgement waits, and a writer that failed is gone for good. */
  lemma ReadsAndWritesArePaired(s: System)
    requires Reachable(s)
    ensures s.m.c.readOutstanding.On? <==> s.m.decoder.Reading? || s.m.decoded.Some?
    ensures !(s.m.decoder.Reading? && s.m.decoded.Some?)
    ensures s.m.c.readOutstanding.On? ==> s.m.c.held.None?
    ensures s.m.c.inflight.Some? <==> s.m.writer.Writing? || s.m.acks.Some?
    ensures !(s.m.writer.Writing? && s.m.acks.Some?)
    ensures s.m.writer.Writing? ==> s.m.c.inflight == Some(s.m.writer.frame)
    ensures s.m.acks.Some? ==> s.m.c.inflight == Some(s.m.acks.value.frame)
    ensures s.m.writer.WriterGone? ==> s.m.acks.Some? || IsTransport(s.m.c.shutdown)
  {
    ReachableInv(s);
  }

  // ---------------------------------------------------------------- bounded shutdown

  /** Shutdown cannot hang: a timer is armed, or the loop has ended, or an effect is in flight. */
  lemma ShutdownIsBounded(s: System)
    requires Reachable(s) && s.m.c.shutdown.Some?
    ensures s.m.c.shutdown.value.timer.On? || s.m.finished.On? || EffectInFlight(s.m.c.active)
    ensures s.m.c.inputClosed.On? && s.m.c.held.None?
  {
    ReachableInv(s);
  }

  /** The shutdown timer ends the session, unless an effect is in flight, which only puts it off. */
  lemma ShutdownTimerEnds(s: System)
    requires Reachable(s) && Enabled(s.m, SeeShutdownTimer)
    ensures var t := Apply(s, SeeShutdownTimer);
            t.m.finished.On? <==> !EffectInFlight(s.m.c.active)
  {
    ReachableInv(s);
    MoveKeeps(s.m, SeeShutdownTimer);
  }

  /** Outside shutdown, a cancel that is not deferred has canceled the operation and armed its timer. */
  lemma CancelIsBounded(s: System)
    requires Reachable(s) && s.m.c.shutdown.None? && s.m.c.active.Some?
    requires s.m.c.active.value.cancelAsked.On? && !s.m.c.active.value.effectCommitting.On?
    requires !s.m.c.active.value.workerDone.On?
    ensures s.m.c.active.value.opCanceled.On? && s.m.c.active.value.cancelTimer.On?
  {
    ReachableInv(s);
  }

  // ---------------------------------------------------------------- committed successes

  /** The admission check pays for the whole stream: the next frame of a committed success always
      has a sequence number and a frame to carry. */
  lemma CommittedStreamNeverFails(s: System)
    requires Reachable(s) && s.m.c.active.Some? && s.m.c.active.value.cursor.Some?
    ensures HasSequence(s.m.c)
    ensures NextEmission(s.m.c.active.value.cursor.value).Emitted?
    ensures s.m.c.pending.None? ==>
              QueueNextSuccess(s.m.c).shutdown == s.m.c.shutdown && QueueNextSuccess(s.m.c).pending.Some?
  {
    ReachableInv(s);
  }
}
