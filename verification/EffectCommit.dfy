/** The worker's side of the effect boundary, and that the session's worker automaton allows for it. */
module EffectCommit {
  import opened Wire
  import opened SessionSystem

  datatype EffectResult = Succeeded | EffectError | Panicked

  /** What came of a boundary message: an answer, or the end of the session before there was one. */
  datatype Reply = Answered(ok: bool) | SessionOver

  datatype Outcome = Applied | EffectFailed | Refused | Unreported | Unwound

  /** The moves of one operation's worker. */
  predicate WorkerMoves(before: WorkerAt, after: WorkerAt) {
    match before
    case Absent => after.Working?
    case Working => after.BeginAnswered? || after.Working? || after.Exiting?
    case BeginAnswered(granted) => after == (if granted then InEffect else Working) || after.Working?
    case InEffect => after.Finishing?
    case Finishing(_) => after.Working?
    case Exiting => after.Exited?
    case Exited => false
  }

  /** In the system, a step moves the worker this way, leaves it be, or drops it with its request. */
  lemma SystemMovesWorker(m: Machine, step: Step)
    requires Enabled(m, step)
    ensures var worker := Move(m, step).worker;
            || worker == m.worker || WorkerMoves(m.worker, worker)
            || (worker.Absent? && Select(m, step).c.active.None?)
  {
    if !IsEnvironment(step) {
      assert Move(m, step).worker == Select(m, step).worker;
    }
  }

  predicate IsPath(path: seq<WorkerAt>) {
    path != [] && forall i :: 0 <= i < |path| - 1 ==> path[i] == path[i + 1] || WorkerMoves(path[i], path[i + 1])
  }

  /**
    Bracketing one effect: begin is asked and answered, the effect runs, and its result is reported, a
    panic as applied.  The effect runs at most once, and only between a granted begin and its report.
  */
  method RunEffectBoundary(begin: Reply, effect: EffectResult, finish: Reply)
    returns (outcome: Outcome, runs: nat, reported: Option<bool>, ghost path: seq<WorkerAt>)
    ensures runs == if begin == Answered(true) then 1 else 0
    ensures reported == if begin == Answered(true) then Some(!effect.EffectError?) else None
    ensures outcome.Applied? <==> begin == Answered(true) && effect.Succeeded? && finish == Answered(true)
    ensures outcome.Refused? <==> begin != Answered(true)
    ensures outcome.EffectFailed? <==> begin == Answered(true) && effect.EffectError?
    ensures outcome.Unwound? <==> begin == Answered(true) && effect.Panicked?
    ensures IsPath(path) && path[0] == Working && path[|path| - 1] == Working
    ensures InEffect in path <==> runs == 1
    ensures begin == Answered(false) ==> path == [Working, BeginAnswered(false), Working]
    ensures begin == SessionOver ==> path == [Working]
    ensures forall i :: 0 < i < |path| && path[i].InEffect? ==>
                          path[i - 1] == BeginAnswered(true)
                          && i + 1 < |path| && path[i + 1] == Finishing(!effect.EffectError?)
  {
    path := [Working];
    if begin != Answered(true) {
      if begin.Answered? {
        path := path + [BeginAnswered(false), Working];
      }
      return Refused, 0, None, path;
    }
    path := path + [BeginAnswered(true), InEffect];
    runs := 1;
    var applied := effect.Succeeded? || effect.Panicked?;
    reported := Some(applied);
    path := path + [Finishing(applied), Working];
    match effect {
      case Panicked => outcome := Unwound;
      case EffectError => outcome := EffectFailed;
      case Succeeded => outcome := if finish == Answered(true) then Applied else Unreported;
    }
  }

  datatype Runner = NoRunner | Boundary(begin: Reply, finish: Reply)

  /** Running an effect, through the session when there is one. */
  method Run(missing: bool, expired: bool, runner: Runner, effect: EffectResult)
    returns (outcome: Outcome, runs: nat)
    ensures runs <= 1
    ensures runs == 1 <==> !missing && !expired && (runner.Boundary? ==> runner.begin == Answered(true))
    ensures outcome.Refused? <==> runs == 0
    ensures outcome.EffectFailed? <==> runs == 1 && effect.EffectError?
    ensures outcome.Unwound? <==> runs == 1 && effect.Panicked?
    ensures outcome.Unreported? <==>
              runs == 1 && effect.Succeeded? && runner.Boundary? && runner.finish != Answered(true)
    ensures outcome.Applied? <==>
              runs == 1 && effect.Succeeded? && (runner.Boundary? ==> runner.finish == Answered(true))
  {
    if missing || expired {
      return Refused, 0;
    }
    match runner {
      case NoRunner =>
        return (match effect case Succeeded => Applied case EffectError => EffectFailed case Panicked => Unwound), 1;
      case Boundary(begin, finish) =>
        ghost var path;
        var reported;
        outcome, runs, reported, path := RunEffectBoundary(begin, effect, finish);
    }
  }
}
