/** The service driver: many requests, each stepping through its dispatch, sharing the tables.
    A run is any sequence of steps; a step that is not possible changes nothing, and a request that is
    never stepped again has crashed or been cancelled. */
module Service {
  import opened Wrappers
  import opened Schema
  import opened Ledgers
  import opened Evidence
  import opened Transactions

  /** Where a request is: the transaction or runner call it waits for. */
  datatype Pc =
    | Acquiring
    | Preparing
    | Reserving
    | Binding
    | Marking
    | Ready(index: nat)
    | Running(index: nat, prior: Outcome)
    | FinishingOutput(output: Name)
    | FinishingError
    | FinishingNotDispatched
    | ReleasingQuota
    | FinishingReadFailure
    | ReleasingReservation
    | ReleasingClaim
    | Stopped

  datatype Quota = Quota(id: nat, month: Name)

  /** `outcome` is the request's dispatch evidence and `log` its runner attempts. `cancelled` says the
      deadline dropped the dispatch future; a transaction already handed to the database may still run. */
  datatype Request = Request(
    a: Attempt, readOnly: bool, pc: Pc, quota: Option<Quota>, outcome: Outcome, log: seq<Entry>,
    cancelled: bool, timedOut: bool, cached: Option<Name>)

  /** `writer` is history: the request whose finish inserted each completed record. */
  datatype State = State(tables: Tables, requests: map<Name, Request>, writer: map<Key, Name>)

  const Initial := State(EmptyTables, map[], map[])

  /** What a transaction reads besides the tables. */
  datatype Env = Env(disabled: bool, revision: Revision, policy: Policy, now: Instant)

  /** A transaction may fail before committing, or commit and lose its reply. */
  datatype Fault = Reliable | RolledBack | ReplyLost

  datatype RunnerResult = Answer(output: Name, valid: bool) | Failure(outcome: Outcome, transient: bool)

  datatype Step =
    | Arrive(a: Attempt, readOnly: bool)
    | Transact(request: Name, env: Env, fault: Fault)
    | Prepare(request: Name, prepared: bool)
    | EnterRunner(request: Name)
    | RunnerReturns(request: Name, result: RunnerResult)
    | Deadline(request: Name)
    | FinalizeTimeout(request: Name, pick: Option<nat>, fault: Fault)
    | Operate(cmd: Command, now: Instant)

  function Attempts(readOnly: bool): nat { if readOnly then 3 else 1 }

  /** The transaction a request waits for. */
  function CallOf(q: Request, env: Env): Option<Call> {
    match q.pc
    case Acquiring => Some(AcquireCall(q.a, env.disabled, env.now))
    case Reserving => Some(ReserveCall(q.a, q.readOnly, env.policy, env.now))
    case ReleasingClaim => Some(ReleasePendingCall(q.a))
    case _ =>
      if q.quota.None? then None
      else
        var id, month := q.quota.value.id, q.quota.value.month;
        match q.pc
        case Binding => Some(BindCall(q.a, id, month))
        case Marking => Some(MarkCall(q.a, id, month, env.revision, env.now))
        case FinishingOutput(output) => Some(FinishCall(q.a, id, month, Some(output)))
        case FinishingError => Some(FinishCall(q.a, id, month, None))
        case FinishingNotDispatched => Some(FinishNotDispatchedCall(q.a, id, month))
        case ReleasingQuota => Some(ReleaseQuotaCall(q.a, id, month))
        case FinishingReadFailure => Some(FinishReadFailureCall(q.a, id, month))
        case ReleasingReservation => Some(ReleaseNotDispatchedCall(q.a, id, month))
        case _ => None
  }

  /** How the dispatch goes on after a reply. */
  function After(q: Request, reply: Reply): Request {
    match q.pc
    case Acquiring =>
      if reply == Acquired then q.(pc := Preparing)
      else if reply.Cached? then q.(pc := Stopped, cached := Some(reply.output))
      else q.(pc := Stopped)
    case Reserving =>
      if reply.Reserved? then q.(pc := Binding, quota := Some(Quota(reply.reservation, reply.month)))
      else q.(pc := ReleasingClaim)
    case Binding => q.(pc := if reply == Done then Marking else ReleasingReservation)
    case Marking => q.(pc := if reply == Done then Ready(0) else ReleasingReservation)
    case ReleasingReservation => q.(pc := if reply == Done then ReleasingClaim else Stopped)
    case ReleasingQuota =>
      q.(pc := if reply != Done then Stopped else if q.readOnly then FinishingReadFailure else FinishingError)
    case _ => q.(pc := Stopped)
  }

  /** The finalizer chosen once a failure is not retried. */
  function AfterFailure(readOnly: bool, outcome: Outcome): Pc {
    match outcome
    case NotDispatched => FinishingNotDispatched
    case ResponseReceived => ReleasingQuota
    case Unknown => if readOnly then Stopped else FinishingError
  }

  function AfterRunner(q: Request, result: RunnerResult): Request
    requires q.pc.Running? && q.log != []
  {
    var last := |q.log| - 1;
    match result
    case Answer(output, valid) =>
      q.(outcome := Combine(q.pc.prior, ResponseReceived), log := q.log[..last] + [Answered(output)],
         pc := if valid then FinishingOutput(output) else if q.readOnly then FinishingReadFailure else FinishingError)
    case Failure(outcome, transient) =>
      var seen := Combine(q.pc.prior, outcome);
      q.(outcome := seen, log := q.log[..last] + [Refused(outcome)],
         pc := if transient && q.pc.index + 1 < Attempts(q.readOnly) then Ready(q.pc.index + 1)
               else AfterFailure(q.readOnly, seen))
  }

  predicate Enabled(s: State, step: Step) {
    match step
    case Arrive(a, _) => a.request !in s.requests
    case Transact(r, env, _) =>
      r in s.requests && CallOf(s.requests[r], env).Some?
    case Prepare(r, _) => r in s.requests && s.requests[r].pc == Preparing && !s.requests[r].cancelled
    case EnterRunner(r) => r in s.requests && s.requests[r].pc.Ready? && !s.requests[r].cancelled
    case RunnerReturns(r, _) =>
      r in s.requests && s.requests[r].pc.Running? && s.requests[r].log != [] && !s.requests[r].cancelled
    case Deadline(r) =>
      r in s.requests && s.requests[r].pc != Acquiring && s.requests[r].pc != Stopped && !s.requests[r].cancelled
    case FinalizeTimeout(r, pick, _) =>
      r in s.requests && s.requests[r].readOnly && s.requests[r].cancelled && !s.requests[r].timedOut
      && IsLatestCandidate(s.tables, s.requests[r].a, pick)
    case Operate(_, _) => true
  }

  /** The transaction a step runs on the tables, if any. */
  function CallIn(s: State, step: Step): (c: Option<Call>)
    requires Enabled(s, step)
    ensures c.Some? ==> Executable(s.tables, c.value)
  {
    match step
    case Transact(r, env, _) => CallOf(s.requests[r], env)
    case FinalizeTimeout(r, pick, _) => Some(FinishReadTimeoutCall(s.requests[r].a, s.requests[r].outcome, pick))
    case Operate(cmd, now) => Some(ReconcileCall(cmd, now))
    case _ => None
  }

  function FaultOf(step: Step): Fault {
    if step.Transact? || step.FinalizeTimeout? then step.fault else Reliable
  }

  /** The tables after a step: what its transaction committed. */
  function TablesAfter(s: State, step: Step): Tables
    requires Enabled(s, step)
  {
    var c := CallIn(s, step);
    if c.None? || FaultOf(step) == RolledBack then s.tables else Exec(s.tables, c.value).0
  }

  /** The reply the request sees. */
  function ReplySeen(s: State, step: Step): Reply
    requires Enabled(s, step) && CallIn(s, step).Some?
  {
    if FaultOf(step) == Reliable then Exec(s.tables, CallIn(s, step).value).1 else Failed(StorageUnavailable)
  }

  /** The requests after a step; a cancelled request stops once its last transaction has run. */
  function RequestsAfter(s: State, step: Step): map<Name, Request>
    requires Enabled(s, step)
  {
    match step
    case Arrive(a, readOnly) =>
      s.requests[a.request := Request(a, readOnly, Acquiring, None, NotDispatched, [], false, false, None)]
    case Transact(r, _, _) =>
      var q := s.requests[r];
      s.requests[r := if q.cancelled then q.(pc := Stopped) else After(q, ReplySeen(s, step))]
    case Prepare(r, prepared) =>
      s.requests[r := s.requests[r].(pc := if prepared then Reserving else ReleasingClaim)]
    case EnterRunner(r) =>
      var q := s.requests[r];
      s.requests[r := q.(pc := Running(q.pc.index, q.outcome), outcome := Unknown, log := q.log + [InFlight])]
    case RunnerReturns(r, result) => s.requests[r := AfterRunner(s.requests[r], result)]
    case Deadline(r) => s.requests[r := s.requests[r].(cancelled := true)]
    case FinalizeTimeout(r, _, _) => s.requests[r := s.requests[r].(timedOut := true)]
    case Operate(_, _) => s.requests
  }

  function WriterAfter(s: State, step: Step): map<Key, Name>
    requires Enabled(s, step)
  {
    if step.Transact? && s.requests[step.request].a.key.Some?
       && KeyOf(s.requests[step.request].a) in TablesAfter(s, step).records
       && KeyOf(s.requests[step.request].a) !in s.tables.records
    then s.writer[KeyOf(s.requests[step.request].a) := step.request]
    else s.writer
  }

  function Next(s: State, step: Step): State {
    if !Enabled(s, step) then s
    else State(TablesAfter(s, step), RequestsAfter(s, step), WriterAfter(s, step))
  }

  /** Any interleaving of any steps. */
  function Run(s: State, steps: seq<Step>): State
    decreases |steps|
  {
    if steps == [] then s else Next(Run(s, steps[..|steps| - 1]), steps[|steps| - 1])
  }
}
