/** Dispatch evidence: what the runner attempts of one request prove about the provider. */
module Evidence {
  import opened Wrappers

  /** Ordered from the safest to the worst. */
  datatype Outcome = NotDispatched | ResponseReceived | Unknown

  datatype Origin = UnknownOrigin | LocalAdmission | LocalValidation | Runner

  /** One runner attempt: still running, answered with an output, or failed with what it proved. */
  datatype Entry = InFlight | Answered(output: nat) | Refused(outcome: Outcome)

  function OutcomeOf(e: Entry): Outcome {
    match e
    case InFlight => Unknown
    case Answered(_) => ResponseReceived
    case Refused(outcome) => outcome
  }

  function Combine(prior: Outcome, current: Outcome): Outcome {
    if prior == Unknown || current == Unknown then Unknown
    else if prior == ResponseReceived || current == ResponseReceived then ResponseReceived
    else NotDispatched
  }

  function Severity(o: Outcome): nat {
    match o case NotDispatched => 0 case ResponseReceived => 1 case Unknown => 2
  }

  /** The evidence after all the attempts of a log. */
  function Worst(log: seq<Entry>): Outcome {
    if log == [] then NotDispatched
    else Combine(Worst(log[..|log| - 1]), OutcomeOf(log[|log| - 1]))
  }

  lemma {:induction false} WorstAppend(log: seq<Entry>, e: Entry)
    ensures Worst(log + [e]) == Combine(Worst(log), OutcomeOf(e))
  {
    assert (log + [e])[..|log|] == log;
  }

  /** The fold is the worst outcome seen, an attempt in flight counting as unknown. */
  lemma {:induction false} WorstIsMaximum(log: seq<Entry>)
    ensures forall i :: 0 <= i < |log| ==> Severity(OutcomeOf(log[i])) <= Severity(Worst(log))
    ensures log != [] ==> exists i :: 0 <= i < |log| && OutcomeOf(log[i]) == Worst(log)
    decreases |log|
  {
    if log != [] {
      var front, last := log[..|log| - 1], |log| - 1;
      WorstIsMaximum(front);
      if front != [] && OutcomeOf(log[last]) != Worst(log) {
        var i :| 0 <= i < |front| && OutcomeOf(front[i]) == Worst(front);
        assert OutcomeOf(log[i]) == Worst(log);
      } else {
        assert OutcomeOf(log[last]) == Worst(log);
      }
    }
  }

  /** Nondispatch is reported exactly when every attempt begun has finished and proved it. */
  lemma {:induction false} NotDispatchedIff(log: seq<Entry>)
    ensures Worst(log) == NotDispatched <==> forall i :: 0 <= i < |log| ==> log[i] == Refused(NotDispatched)
  {
    WorstIsMaximum(log);
    if Worst(log) == NotDispatched {
      forall i | 0 <= i < |log| ensures log[i] == Refused(NotDispatched) {
        assert Severity(OutcomeOf(log[i])) <= 0;
      }
    }
  }

  /** What becomes of the circuit admission a request holds. */
  datatype Disposal = NoAdmission | Dropped | Resolved(transientFailure: bool)

  /** The mutex-held state; it outlives the cancelled dispatch future. `log` is its history. */
  class DispatchEvidence {
    var outcome: Outcome
    var origin: Origin
    var retryAfter: Option<nat>
    var admitted: bool
    var entered: bool
    ghost var log: seq<Entry>

    ghost predicate Valid()
      reads this
    {
      outcome == Worst(log) && (entered <==> log != []) && (entered ==> origin == Runner)
    }

    constructor ()
      ensures Valid() && log == [] && !admitted
    {
      outcome, origin, retryAfter, admitted, entered := NotDispatched, UnknownOrigin, None, false, false;
      log := [];
    }

    method SetAdmission()
      requires Valid()
      modifies this`admitted
      ensures Valid() && admitted
    {
      admitted := true;
    }

    method BeginAttempt() returns (prior: Outcome)
      requires Valid()
      modifies this
      ensures Valid() && log == old(log) + [InFlight] && prior == Worst(old(log))
      ensures admitted == old(admitted) && retryAfter == None
    {
      prior := outcome;
      WorstAppend(log, InFlight);
      outcome, origin, entered, retryAfter := Unknown, Runner, true, None;
      log := log + [InFlight];
    }

    /** `prior` is what the matching BeginAttempt returned. */
    method FinishAttempt(prior: Outcome, result: Entry, hint: Option<nat>)
      requires Valid() && log != [] && log[|log| - 1] == InFlight && prior == Worst(log[..|log| - 1])
      requires result != InFlight
      modifies this
      ensures Valid() && log == old(log)[..|old(log)| - 1] + [result]
      ensures admitted == old(admitted)
      ensures retryAfter == if result.Answered? then None else hint
    {
      var current := if result.Answered? then ResponseReceived else result.outcome;
      WorstAppend(log[..|log| - 1], result);
      outcome := Combine(prior, current);
      retryAfter := if result.Answered? then None else hint;
      log := log[..|log| - 1] + [result];
    }

    /** A local error describes the failure only when no runner attempt was made. */
    method LocalError(from: Origin)
      requires Valid()
      modifies this`origin
      ensures Valid()
      ensures origin == if old(origin) == Runner then Runner else from
    {
      if origin != Runner {
        origin := from;
      }
    }

    method ResolveAdmission(transientFailure: bool) returns (d: Disposal)
      requires Valid()
      modifies this`admitted
      ensures Valid() && !admitted
      ensures d == if old(admitted) then Resolved(transientFailure) else NoAdmission
    {
      d := if admitted then Resolved(transientFailure) else NoAdmission;
      admitted := false;
    }

    /** A deadline counts against the circuit exactly when some attempt was begun and not all proved nondispatch. */
    method ResolveDeadline() returns (d: Disposal)
      requires Valid()
      modifies this`admitted
      ensures Valid() && !admitted
      ensures old(admitted) ==>
        (d == Resolved(true) <==> exists i :: 0 <= i < |log| && log[i] != Refused(NotDispatched))
      ensures old(admitted) ==> d == Resolved(true) || d == Dropped
      ensures !old(admitted) ==> d == NoAdmission
    {
      NotDispatchedIff(log);
      d := if !admitted then NoAdmission
           else if entered && outcome != NotDispatched then Resolved(true)
           else Dropped;
      admitted := false;
    }
  }
}
