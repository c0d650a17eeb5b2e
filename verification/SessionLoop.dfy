/**
  The event loop around the coordinator object, with the goroutines it talks to.

  A schedule stands for the scheduler and for everything outside: which ready arm of the select is
  taken, and what the decoder, the writer, the worker and the engine do.  The loop checks the guards
  on the object itself.  `system` follows it through the transition system, so every theorem about
  reachable systems is one about the object.
*/
module SessionLoop {
  import opened Wire
  import opened Session
  import opened SessionSystem
  import opened SessionCoordinator
  import SessionTrace
  import SessionTheorems
  import SessionRequests

  /** The steps of a schedule that are on offer when their turn comes. */
  function Followed(s: System, schedule: seq<Step>): seq<Step>
    decreases |schedule|
  {
    if schedule == [] then []
    else if Enabled(s.m, schedule[0]) then [schedule[0]] + Followed(Apply(s, schedule[0]), schedule[1..])
    else Followed(s, schedule[1..])
  }

  /** They are a run, and a schedule that is a run is followed step by step. */
  lemma {:induction false} FollowedIsRun(s: System, schedule: seq<Step>)
    ensures IsRun(s, Followed(s, schedule))
    ensures IsRun(s, schedule) ==> Followed(s, schedule) == schedule
    decreases |schedule|
  {
    if schedule != [] {
      if Enabled(s.m, schedule[0]) {
        FollowedIsRun(Apply(s, schedule[0]), schedule[1..]);
        assert schedule == [schedule[0]] + schedule[1..];
      } else {
        FollowedIsRun(s, schedule[1..]);
      }
    }
  }

  lemma {:induction false} NothingAfterTheEnd(s: System, schedule: seq<Step>)
    requires s.m.finished.On?
    ensures Followed(s, schedule) == []
    decreases |schedule|
  {
    if schedule != [] {
      NothingAfterTheEnd(s, schedule[1..]);
    }
  }

  /** So far the choices up to the i-th have been followed, and have led to s. */
  ghost predicate Following(first: System, s: System, taken: seq<Step>, schedule: seq<Step>, i: nat) {
    && i <= |schedule| && IsRun(first, taken) && After(first, taken) == s
    && Followed(first, schedule) == taken + Followed(s, schedule[i..])
  }

  lemma FollowsFromStart(first: System, schedule: seq<Step>)
    ensures Following(first, first, [], schedule, 0)
  {
    assert schedule[0..] == schedule;
  }

  /** One choice of the schedule more. */
  lemma FollowsOn(first: System, s: System, taken: seq<Step>, schedule: seq<Step>, i: nat)
    returns (more: seq<Step>)
    requires i < |schedule| && Following(first, s, taken, schedule, i)
    ensures Following(first, if Enabled(s.m, schedule[i]) then Apply(s, schedule[i]) else s, more, schedule, i + 1)
  {
    more := taken;
    assert schedule[i..][0] == schedule[i] && schedule[i..][1..] == schedule[i + 1..];
    if Enabled(s.m, schedule[i]) {
      SessionRequests.RunExtends(first, taken, schedule[i]);
      more := taken + [schedule[i]];
    }
  }

  lemma FollowedToTheEnd(first: System, s: System, taken: seq<Step>, schedule: seq<Step>, i: nat)
    requires Following(first, s, taken, schedule, i) && (i == |schedule| || s.m.finished.On?)
    ensures IsRun(first, Followed(first, schedule)) && After(first, Followed(first, schedule)) == s
  {
    if i < |schedule| {
      NothingAfterTheEnd(s, schedule[i..]);
    }
    assert Followed(first, schedule) == taken;
  }

  class EventLoop {
    const coordinator: Coordinator
    var worker: WorkerAt
    var writer: WriterAt
    var acks: Option<Acked>
    var decoder: DecoderAt
    var decoded: Option<Decoded>
    var finished: bool
    ghost var system: System

    ghost function Now(): Machine
      reads this, coordinator, coordinator.active, coordinator.shutdown
    {
      Machine(coordinator.Value(), worker, writer, acks, decoder, decoded, Mark(finished))
    }

    /** The object is in a state that the session can reach. */
    ghost predicate Valid()
      reads this, coordinator, coordinator.active, coordinator.shutdown
    {
      Reachable(system) && system.m == Now()
    }

    constructor ()
      ensures Valid() && system == START && fresh(coordinator)
      ensures (coordinator.active != null ==> fresh(coordinator.active))
      ensures (coordinator.shutdown != null ==> fresh(coordinator.shutdown))
    {
      coordinator := new Coordinator();
      worker, writer, acks, decoder, decoded := Absent, WriterIdle, None, DecoderIdle, None;
      new;
      finished := coordinator.FillPending();
      system := START;
      assert IsRun(START, []) && After(START, []) == START;
    }

    // -------------------------------------------------------------- the select

    /** Whether the step can be taken: the guard of its arm, and the other side of its channel. */
    method Offered(step: Step) returns (ready: bool)
      ensures ready <==> Enabled(Now(), step)
    {
      if finished {
        return false;
      }
      var c := coordinator;
      match step
      case SendFrame =>
        ready := c.pending.Some? && c.inflight.None? && !c.writerStopped.On? && c.PendingWriteReady()
            && writer.WriterIdle?;
      case GrantRead => ready := c.CanRead() && decoder.DecoderIdle?;
      case ReceiveDecoded => ready := decoded.Some?;
      case ReceiveAck => ready := acks.Some?;
      case ReceiveMessage(message) => ready := c.CanReceive() && Offers(message);
      case SeeWorkerDone =>
        ready := c.active != null && c.active.workerStarted.On? && !c.active.workerDone.On? && worker.Exited?;
      case SeeDecoderDone => ready := !c.decoderStopped.On? && decoder.DecoderGone?;
      case SeeWriterDone => ready := !c.writerStopped.On? && writer.WriterGone?;
      case SeeExternalCancel => ready := c.shutdown == null;
      case SeeCancelTimer =>
        ready := c.shutdown == null && c.active != null && c.active.cancelTimer.On? && !c.active.workerDone.On?;
      case SeeShutdownTimer => ready := c.shutdown != null && c.shutdown.timer.On?;
      case DecoderDelivers(_) => ready := decoder.Reading? && decoded.None?;
      case WriterWrites(_) => ready := writer.Writing? && acks.None?;
      case WorkerResumes => ready := worker.BeginAnswered?;
      case EffectEnds(_) => ready := worker.InEffect?;
      case WorkerGivesUp =>
        ready := c.active != null && c.active.outcomeCanceled.On?
          && (worker.Working? || worker.BeginAnswered? || worker.Finishing?);
      case WorkerExits => ready := worker.Exiting?;
    }

    predicate Offers(message: Message)
      reads this, coordinator, coordinator.active
      ensures Offers(message) <==> WorkerOffers(Now(), message)
    {
      var available := coordinator.active != null && coordinator.active.request.available;
      match worker
      case Working =>
        || (WellFormedOutcome(message) && (available || message.failed))
        || (available && (message == ProvisionalMessage || message == EffectMessage(Begin, false)))
      case Finishing(applied) => message == EffectMessage(Finish, applied)
      case _ => false
    }

    /** The worker goroutine is started with its request and forgotten with it. */
    method TakeWorker()
      modifies this`worker
      ensures Now() == old(Now()).(worker := Hire(coordinator.Value(), old(worker)))
    {
      if coordinator.active == null {
        worker := Absent;
      } else if worker.Absent? && coordinator.active.workerStarted.On? {
        worker := Working;
      }
    }

    method ReceiveMessageArm(message: Message)
      requires Enabled(Now(), ReceiveMessage(message))
      modifies this`decoded, this`worker, coordinator, coordinator.active, coordinator.shutdown
      ensures Now() == Select(old(Now()), ReceiveMessage(message)) && coordinator.OwnsAfter()
    {
      var ack, consumed := coordinator.HandleWorkerMessage(message, decoded);
      if consumed {
        decoded := None;
      }
      worker := AfterMessage(message, ack);
      TakeWorker();
    }

    method ChannelArm(step: Step)
      requires Enabled(Now(), step) && (step.SendFrame? || step.GrantRead? || step.ReceiveDecoded? || step.ReceiveAck?)
      modifies this`writer, this`decoder, this`decoded, this`acks, this`worker
      modifies coordinator, coordinator.active, coordinator.shutdown
      ensures Now() == Select(old(Now()), step) && coordinator.OwnsAfter()
    {
      match step {
        case SendFrame =>
          writer := Writing(coordinator.pending.value);
          coordinator.Submit();
        case GrantRead =>
          decoder := Reading;
          coordinator.readOutstanding := On;
        case ReceiveDecoded =>
          var result := decoded.value;
          decoded := None;
          coordinator.TakeDecoded(result);
        case ReceiveAck =>
          var ack := acks.value;
          acks := None;
          coordinator.HandleWriteAck(ack.frame, ack.result);
      }
      TakeWorker();
    }

    method DoneArm(step: Step)
      requires Enabled(Now(), step) && (step.SeeWorkerDone? || step.SeeDecoderDone? || step.SeeWriterDone?)
      modifies this`worker, coordinator, coordinator.active, coordinator.shutdown
      ensures Now() == Select(old(Now()), step) && coordinator.OwnsAfter()
    {
      match step {
        case SeeWorkerDone => coordinator.HandleWorkerDone();
        case SeeDecoderDone => coordinator.decoderStopped := On;
        case SeeWriterDone => coordinator.HandleWriterStopped();
      }
      TakeWorker();
    }

    method TimerArm(step: Step)
      requires Enabled(Now(), step) && (step.SeeExternalCancel? || step.SeeCancelTimer? || step.SeeShutdownTimer?)
      modifies this`worker, coordinator, coordinator.active, coordinator.shutdown
      ensures Now() == Select(old(Now()), step) && coordinator.OwnsAfter()
    {
      match step {
        case SeeExternalCancel => coordinator.BeginGraceful(Interrupted);
        case SeeCancelTimer => coordinator.HandleCancelTimeout(worker.Exited?);
        case SeeShutdownTimer => coordinator.HandleShutdownTimer();
      }
      TakeWorker();
    }

    /** One arm of the select. */
    method SelectArm(step: Step)
      requires Enabled(Now(), step) && !IsEnvironment(step)
      modifies this`writer, this`decoder, this`decoded, this`acks, this`worker
      modifies coordinator, coordinator.active, coordinator.shutdown
      ensures Now() == Select(old(Now()), step) && coordinator.OwnsAfter()
    {
      if step.ReceiveMessage? {
        ReceiveMessageArm(step.message);
      } else if step.SeeWorkerDone? || step.SeeDecoderDone? || step.SeeWriterDone? {
        DoneArm(step);
      } else if step.SeeExternalCancel? || step.SeeCancelTimer? || step.SeeShutdownTimer? {
        TimerArm(step);
      } else {
        ChannelArm(step);
      }
    }

    /** One move of a goroutine around the loop. */
    method MoveAround(step: Step)
      requires Enabled(Now(), step) && IsEnvironment(step)
      modifies this`writer, this`decoder, this`decoded, this`acks, this`worker
      ensures Now() == Environment(old(Now()), step)
    {
      match step
      case DecoderDelivers(result) =>
        decoded, decoder := Some(result), if result.InputFrame? then DecoderIdle else DecoderGone;
      case WriterWrites(outcome) =>
        acks, writer := Some(Acked(writer.frame, outcome)), if outcome.Broken? then WriterGone else WriterIdle;
      case WorkerResumes => worker := if worker.granted then InEffect else Working;
      case EffectEnds(applied) => worker := Finishing(applied);
      case WorkerGivesUp => worker := if worker.Working? then Exiting else Working;
      case WorkerExits => worker := Exited;
    }

    // -------------------------------------------------------------- the loop

    /** The top of an iteration. */
    method TopOfLoop()
      modifies this`finished, coordinator, coordinator.active, coordinator.shutdown
      ensures Now() == LoopTop(old(Now())) && coordinator.OwnsAfter()
    {
      finished := coordinator.FillPending();
    }

    /** A move around the loop, or an arm of the select and the top of the next iteration. */
    method Advance(step: Step)
      requires Enabled(Now(), step)
      modifies this`writer, this`decoder, this`decoded, this`acks, this`worker, this`finished
      modifies coordinator, coordinator.active, coordinator.shutdown
      ensures Now() == Move(old(Now()), step) && coordinator.OwnsAfter()
    {
      if IsEnvironment(step) {
        MoveAround(step);
      } else {
        SelectArm(step);
        TopOfLoop();
      }
    }

    method Take(step: Step)
      requires Valid() && Enabled(Now(), step)
      modifies this, coordinator, coordinator.active, coordinator.shutdown
      ensures Valid() && system == Apply(old(system), step) && coordinator.OwnsAfter()
    {
      ghost var next := Apply(system, step);
      SessionRequests.ReachableNext(system, step);
      Advance(step);
      system := next;
    }

    method TakeIfOffered(step: Step)
      requires Valid()
      modifies this, coordinator, coordinator.active, coordinator.shutdown
      ensures Valid() && coordinator.OwnsAfter()
      ensures system == if Enabled(old(system).m, step) then Apply(old(system), step) else old(system)
    {
      var ready := Offered(step);
      if ready {
        Take(step);
      }
    }

    /** Follows the schedule until it ends or the loop does; choices that are not on offer are passed over. */
    method Run(schedule: seq<Step>)
      requires Valid()
      modifies this, coordinator, coordinator.active, coordinator.shutdown
      ensures Valid() && coordinator.OwnsAfter()
      ensures IsRun(old(system), Followed(old(system), schedule))
      ensures system == After(old(system), Followed(old(system), schedule))
    {
      ghost var first, taken := system, [];
      FollowsFromStart(first, schedule);
      var i := 0;
      while i < |schedule| && !finished
        invariant Valid() && coordinator.OwnsAfter() && Following(first, system, taken, schedule, i)
      {
        taken := FollowsOn(first, system, taken, schedule, i);
        TakeIfOffered(schedule[i]);
        i := i + 1;
      }
      FollowedToTheEnd(first, system, taken, schedule, i);
    }

    // -------------------------------------------------------------- what holds of the object

    /** An effect in flight is shielded, in the object's own fields. */
    lemma EffectIsShielded()
      requires Valid() && coordinator.active != null && coordinator.active.EffectInFlight()
      ensures !coordinator.active.opCanceled.On? && !coordinator.active.outcomeCanceled.On?
      ensures !coordinator.active.abandoned.On? && !finished
      ensures coordinator.shutdown != null ==> !coordinator.shutdown.timedOut.On?
    {
      SessionTheorems.EffectIsShielded(system);
    }

    /** A shutdown has a timer armed, or is over, or waits for an effect in flight. */
    lemma ShutdownIsBounded()
      requires Valid() && coordinator.shutdown != null
      ensures coordinator.shutdown.timer.On? || finished
              || (coordinator.active != null && coordinator.active.EffectInFlight())
    {
      SessionTheorems.ShutdownIsBounded(system);
    }

    /** A loop that ended gracefully and in time left nothing behind. */
    lemma GracefulEndLeavesNothing(id: nat)
      requires Valid() && finished && coordinator.shutdown != null
      requires coordinator.shutdown.mode.Graceful? && !coordinator.shutdown.timedOut.On?
      ensures coordinator.active == null && coordinator.pending.None? && coordinator.inflight.None?
      ensures system.h.written == system.h.accepted
      ensures var frames := SessionTrace.Project(system.h.accepted, id);
              frames != [] && frames[0].Started? ==> frames[|frames| - 1].Terminal?
    {
      SessionTheorems.GracefulEndClosesEveryRequest(system, id);
    }
  }

  /** A whole session on the object: whatever the schedule, its slots were never overwritten, and no request whose
      effect was applied was told that it was canceled on request. */
  method Serve(schedule: seq<Step>) returns (loop: EventLoop)
    ensures fresh(loop) && loop.Valid() && !loop.coordinator.overwritten.On?
    ensures IsRun(START, Followed(START, schedule)) && loop.system == After(START, Followed(START, schedule))
    ensures SessionTheorems.NotCanceled(loop.coordinator.pending, loop.system.h.applied)
    ensures SessionTheorems.NotCanceled(loop.coordinator.inflight, loop.system.h.applied)
    ensures forall k :: 0 <= k < |loop.system.h.accepted| && loop.system.h.accepted[k].Terminal?
                        && loop.system.h.accepted[k].id in loop.system.h.applied ==>
                          loop.system.h.accepted[k].outcome != Canceled(true)
  {
    loop := new EventLoop();
    loop.Run(schedule);
    SessionTheorems.AppliedEffectIsNeverCanceled(loop.system);
    SessionTheorems.SlotsAreNeverOverwritten(loop.system);
  }
}
