/** The bridge between an engine's events and the provisional frames of a dump or a diff. */
module Events {
  import opened Wire

  datatype Operation = Dump | Diff | Other

  /** A dump failure as the engine reports it; `valid` says that its warning frame passes the codec. */
  datatype Failure = Failure(product: string, resource: string, phase: string, kind: string, valid: bool)

  /** What a progress event is about; `valid` says that a progress frame about it passes the codec. */
  datatype Scope = Scope(product: string, resource: string, valid: bool)

  /** An engine event of the kinds the bridge knows, with the fields each kind may set. */
  datatype Event =
    | Started(total: int)
    | Progress(done: int, total: int, scope: Scope)
    | Record
    | Warning(failure: Failure)
    | Completed(records: int, resources: int, warnings: int)
    | Failed
    | Canceled

  datatype Frame =
    | ProgressFrame(current: int, total: int, scope: Scope)
    | WarningFrame(failure: Failure)

  datatype Terminal = Running | Ended(event: Event)

  // ---------------------------------------------------------------- what a good run looks like

  function ProgressCount(events: seq<Event>): nat {
    if events == [] then 0
    else ProgressCount(events[..|events| - 1]) + if events[|events| - 1].Progress? then 1 else 0
  }

  function WarningCount(events: seq<Event>): nat {
    if events == [] then 0
    else WarningCount(events[..|events| - 1]) + if events[|events| - 1].Warning? then 1 else 0
  }

  /** The frames of the progress and warning events, in order. */
  function FramesOf(events: seq<Event>): seq<Frame> {
    if events == [] then []
    else
      FramesOf(events[..|events| - 1]) + FramesOfOne(events[|events| - 1])
  }

  /** A single start, first, with total n; progress 1, 2, 3, ... towards n; nothing after a terminal. */
  ghost predicate Orderly(events: seq<Event>, n: int) {
    && n >= 0
    && (events != [] ==> events[0] == Started(n))
    && (forall i :: 0 < i < |events| ==> !events[i].Started?)
    && (forall i :: 0 <= i < |events| && events[i].Progress? ==>
                      events[i].total == n && events[i].done == ProgressCount(events[..i]) + 1 <= n)
    && forall i :: 0 <= i < |events| - 1 ==> !IsTerminal(events[i])
  }

  predicate IsTerminal(event: Event) { event.Completed? || event.Failed? || event.Canceled? }

  /** Which events an operation may report. */
  predicate Allowed(operation: Operation, event: Event) {
    match event
    case Progress(_, total, scope) => (operation.Dump? || operation.Diff?) && total <= MAX_SAFE_INTEGER && scope.valid
    case Record => operation.Dump?
    case Warning(failure) => operation.Dump? && failure.valid
    case _ => true
  }

  /** A complete, successful run: started with n, all n reported, one completion last whose counters add up. */
  ghost predicate GoodRun(operation: Operation, events: seq<Event>, n: int) {
    && |events| >= 2 && Orderly(events, n)
    && (forall i :: 0 <= i < |events| ==> Allowed(operation, events[i]))
    && ProgressCount(events) == n
    && var last := events[|events| - 1];
       && last.Completed? && last.warnings == WarningCount(events) && last.resources + last.warnings == n
       && (if operation.Dump? then last.records >= 0 && last.resources >= 0
           else last.records == 0 && last.warnings == 0)
  }

  lemma {:induction false} OnlyDumpsWarn(operation: Operation, events: seq<Event>)
    requires forall i :: 0 <= i < |events| ==> Allowed(operation, events[i])
    ensures WarningCount(events) > 0 ==> operation.Dump?
  {
    if events != [] {
      OnlyDumpsWarn(operation, events[..|events| - 1]);
      assert Allowed(operation, events[|events| - 1]);
    }
  }

  /** What an event must be to continue an orderly run. */
  ghost predicate Continues(operation: Operation, events: seq<Event>, n: int, event: Event) {
    && (event.Started? <==> events == [])
    && (event.Started? ==> event.total == n >= 0)
    && (event.Progress? ==> event.total == n && event.done == ProgressCount(events) + 1 <= n)
    && Allowed(operation, event)
    && (events != [] ==> !IsTerminal(events[|events| - 1]))
  }

  lemma OrderlyNext(operation: Operation, events: seq<Event>, n: int, event: Event)
    requires Orderly(events, n) && Continues(operation, events, n, event)
    ensures Orderly(events + [event], n)
  {
    var longer := events + [event];
    forall i | 0 <= i < |longer| && longer[i].Progress?
      ensures longer[i].total == n && longer[i].done == ProgressCount(longer[..i]) + 1 <= n
    {
      assert longer[..i] == events[..i];
      if i == |events| {
        assert events[..i] == events;
      }
    }
  }

  lemma NextCounts(events: seq<Event>, event: Event)
    ensures ProgressCount(events + [event]) == ProgressCount(events) + if event.Progress? then 1 else 0
    ensures WarningCount(events + [event]) == WarningCount(events) + if event.Warning? then 1 else 0
    ensures FramesOf(events + [event]) == FramesOf(events) + FramesOfOne(event)
  {
    assert (events + [event])[..|events|] == events;
  }

  function FramesOfOne(event: Event): seq<Frame> {
    match event
    case Progress(done, total, scope) => [ProgressFrame(done, total, scope)]
    case Warning(failure) => [WarningFrame(failure)]
    case _ => []
  }

  // ---------------------------------------------------------------- the bridge

  /** The fields sum up the events accepted so far. */
  ghost predicate Summarizes(operation: Operation, events: seq<Event>, started: bool, startedTotal: int,
                             terminal: Terminal,
                             progressDone: int) {
    && Orderly(events, if started then startedTotal else 0)
    && (started <==> events != [])
    && (forall i :: 0 <= i < |events| ==> Allowed(operation, events[i]))
    && terminal == (if events != [] && IsTerminal(events[|events| - 1]) then Ended(events[|events| - 1]) else Running)
    && progressDone == ProgressCount(events)
  }

  lemma SummaryNext(operation: Operation, events: seq<Event>, started: bool, startedTotal: int, terminal: Terminal,
                    progressDone: int, event: Event, n: int)
    requires Summarizes(operation, events, started, startedTotal, terminal, progressDone)
    requires n == if started then startedTotal else if event.Started? then event.total else 0
    requires Continues(operation, events, n, event)
    ensures Summarizes(operation, events + [event], true, n, if IsTerminal(event) then Ended(event) else terminal,
                       progressDone + if event.Progress? then 1 else 0)
  {
    OrderlyNext(operation, events, n, event);
    NextCounts(events, event);
  }

  /** An event is accepted, or invalid, or valid with a frame that the closing session no longer takes. */
  datatype Response = Accepted | Invalid | Closing

  class EventBridge {
    const operation: Operation
    var emitted: seq<Frame>
    var started: bool
    var terminal: Terminal
    var startedTotal: int
    var progressDone: int
    var warnings: seq<Failure>
    /** Every event accepted so far. */
    ghost var accepted: seq<Event>
    /** How many frames the session has refused because it is closing. */
    ghost var refusals: nat

    ghost predicate Valid()
      reads this
    {
      && Summarizes(operation, accepted, started, startedTotal, terminal, progressDone)
      && |warnings| == WarningCount(accepted) && emitted == FramesOf(accepted)
    }

    constructor (operation: Operation)
      ensures Valid() && accepted == [] && this.operation == operation
    {
      this.operation := operation;
      emitted, started, terminal, startedTotal, progressDone, warnings, accepted := [], false, Running, 0, 0, [], [];
      refusals := 0;
    }

    /** The session takes the frame, unless it is closing. */
    method Emit(frame: Frame) returns (ok: bool)
      modifies this`emitted, this`refusals
      ensures emitted == if ok then old(emitted) + [frame] else old(emitted)
      ensures refusals == if ok then old(refusals) else old(refusals) + 1
    {
      ok := *;
      if ok {
        emitted := emitted + [frame];
      } else {
        refusals := refusals + 1;
      }
    }

    /** What the fields let through. */
    predicate Admits(event: Event)
      reads this
    {
      && terminal.Running?
      && match event
         case Started(total) => !started && total >= 0
         case Progress(done, total, scope) =>
           && started && (operation.Dump? || operation.Diff?) && 1 <= done <= total
           && total == startedTotal && done == progressDone + 1
           && total <= MAX_SAFE_INTEGER && scope.valid
         case Record => started && operation.Dump?
         case Warning(failure) => started && operation.Dump? && failure.valid
         case _ => started
    }

    /** The fields let through exactly what continues the run. */
    lemma AdmitsWhatContinues(event: Event)
      requires Valid()
      ensures Admits(event) <==> Continues(operation, accepted, TotalWith(event), event)
    {}

    /** The total of the run, the one a start would begin included. */
    ghost function TotalWith(event: Event): int
      reads this
    {
      if started then startedTotal else if event.Started? then event.total else 0
    }

    /** Checks an event against the fields, emits its frame and updates the fields. */
    method Admit(event: Event) returns (r: Response)
      modifies this`emitted, this`started, this`terminal, this`startedTotal, this`progressDone, this`warnings
      modifies this`refusals
      ensures r.Invalid? <==> !old(Admits(event))
      ensures r.Invalid? ==> unchanged(this)
      ensures r.Closing? ==> event.Progress? || event.Warning?
      ensures refusals == if r.Closing? then old(refusals) + 1 else old(refusals)
      ensures r.Accepted? ==>
                && started && startedTotal == old(TotalWith(event))
                && terminal == (if IsTerminal(event) then Ended(event) else old(terminal))
                && progressDone == old(progressDone) + (if event.Progress? then 1 else 0)
                && |warnings| == |old(warnings)| + (if event.Warning? then 1 else 0)
                && emitted == old(emitted) + FramesOfOne(event)
    {
      if terminal.Ended? {
        return Invalid;
      }
      match event {
        case Started(total) =>
          if started || total < 0 {
            return Invalid;
          }
          started, startedTotal := true, total;
        case Progress(done, total, scope) =>
          if !started || !(operation.Dump? || operation.Diff?) || done < 1 || total < 1 || done > total
             || total != startedTotal || done != progressDone + 1
          {
            return Invalid;
          }
          if done > MAX_SAFE_INTEGER || total > MAX_SAFE_INTEGER || !scope.valid {
            return Invalid;
          }
          var taken := Emit(ProgressFrame(done, total, scope));
          if !taken {
            return Closing;
          }
          progressDone := done;
        case Record =>
          if !started || !operation.Dump? {
            return Invalid;
          }
        case Warning(failure) =>
          if !started || !operation.Dump? || !failure.valid {
            return Invalid;
          }
          warnings := warnings + [failure];
          var taken := Emit(WarningFrame(failure));
          if !taken {
            return Closing;
          }
        case _ =>
          if !started {
            return Invalid;
          }
          terminal := Ended(event);
      }
      return Accepted;
    }

    /** The fields as an admitted event leaves them sum up the longer run. */
    ghost predicate NextIs(event: Event, n: int, longer: seq<Event>)
      reads this
    {
      && Summarizes(operation, longer, true, n, if IsTerminal(event) then Ended(event) else terminal,
                    progressDone + if event.Progress? then 1 else 0)
      && |warnings| + (if event.Warning? then 1 else 0) == WarningCount(longer)
      && emitted + FramesOfOne(event) == FramesOf(longer)
    }

    lemma AdmittedNext(event: Event)
      requires Valid() && Admits(event)
      ensures NextIs(event, TotalWith(event), accepted + [event])
    {
      AdmitsWhatContinues(event);
      SummaryNext(operation, accepted, started, startedTotal, terminal, progressDone, event, TotalWith(event));
      NextCounts(accepted, event);
    }

    /** An event is accepted, and lengthens the orderly run, or is invalid, exactly when it would make the run
        disorderly, and changes nothing; only a closing session can refuse the frame of a valid one. */
    method Accept(event: Event) returns (r: Response)
      requires Valid()
      modifies this
      ensures r.Accepted? ==> Valid() && accepted == old(accepted) + [event]
      ensures r.Invalid? <==> !old(Continues(operation, accepted, TotalWith(event), event))
      ensures r.Invalid? ==> unchanged(this)
      ensures r.Closing? ==> (event.Progress? || event.Warning?) && accepted == old(accepted)
      ensures refusals == if r.Closing? then old(refusals) + 1 else old(refusals)
    {
      AdmitsWhatContinues(event);
      if Admits(event) {
        AdmittedNext(event);
      }
      r := Admit(event);
      if r.Accepted? {
        accepted := accepted + [event];
      }
    }

    /** The check after a successful operation. */
    method FinishSuccess() returns (ok: bool)
      requires Valid()
      ensures ok <==> GoodRun(operation, accepted, startedTotal)
      ensures ok ==> emitted == FramesOf(accepted)
    {
      OnlyDumpsWarn(operation, accepted);
      if !started || terminal.Running? {
        return false;
      }
      if !terminal.event.Completed? {
        return false;
      }
      var completed := terminal.event;
      if operation.Dump? {
        if completed.warnings != |warnings| || completed.resources < 0 || |warnings| > startedTotal
           || completed.resources != startedTotal - |warnings| || completed.records < 0 || progressDone != startedTotal
        {
          return false;
        }
      } else if completed.warnings != 0 || |warnings| != 0 || completed.records != 0
                || completed.resources != startedTotal || progressDone != startedTotal
      {
        return false;
      }
      return true;
    }
  }
}
