/** Where the driver takes a request: the finalizer that its evidence calls for, what each way out leaves behind,
    and the whole way to a success. */
module Driving {
  import opened Wrappers
  import opened Sums
  import opened Schema
  import opened Ledgers
  import opened Evidence
  import opened Transactions
  import opened Conservation
  import opened Bookkeeping
  import opened Accounting
  import opened Effects
  import opened Admissions
  import opened Service
  import opened Protocol
  import opened Preservation
  import opened Guarantees

  // ---------------------------------------------------------------- evidence

  /** A transient failure is retried while attempts remain, three for a read and one for a write. Otherwise an
      answer is recorded if it is valid, and a failure goes where the attempts' worst evidence points. */
  lemma {:induction false} FinalizerFollowsEvidence(q: Request, result: RunnerResult)
    requires Logged(q) && q.pc.Running?
    ensures var q' := AfterRunner(q, result);
      && |q'.log| == |q.log| && q'.log[..|q.log| - 1] == q.log[..|q.log| - 1]
      && q'.log[|q.log| - 1] == (if result.Answer? then Answered(result.output) else Refused(result.outcome))
      && (result.Failure? && result.transient && |q.log| < (if q.readOnly then 3 else 1) ==> q'.pc == Ready(|q.log|))
      && (result.Answer? ==>
            q'.pc == if result.valid then FinishingOutput(result.output)
                     else if q.readOnly then FinishingReadFailure else FinishingError)
      && (result.Failure? && !(result.transient && |q.log| < (if q.readOnly then 3 else 1)) ==>
            && ((forall i :: 0 <= i < |q'.log| ==> q'.log[i] == Refused(NotDispatched)) ==> q'.pc == FinishingNotDispatched)
            && ((exists i :: 0 <= i < |q'.log| && q'.log[i] in {InFlight, Refused(Unknown)}) ==>
                  q'.pc == if q.readOnly then Stopped else FinishingError)
            && ((exists i :: 0 <= i < |q'.log| && q'.log[i] != Refused(NotDispatched))
                && (forall i :: 0 <= i < |q'.log| ==> q'.log[i] !in {InFlight, Refused(Unknown)}) ==>
                  q'.pc == ReleasingQuota))
  {
    RunnerLogged(q, result);
    var q' := AfterRunner(q, result);
    WorstTells(q'.log);
    assert q'.outcome == Worst(q'.log);
    hide Evidence.Worst, Evidence.Combine;
  }

  /** What the fold says of the log. */
  lemma {:induction false} WorstTells(log: seq<Entry>)
    ensures Worst(log) == NotDispatched <==> forall i :: 0 <= i < |log| ==> log[i] == Refused(NotDispatched)
    ensures Worst(log) == Unknown <==> exists i :: 0 <= i < |log| && log[i] in {InFlight, Refused(Unknown)}
  {
    NotDispatchedIff(log);
    WorstIsMaximum(log);
    hide Evidence.Worst;
    if i :| 0 <= i < |log| && log[i] in {InFlight, Refused(Unknown)} {
      assert Severity(OutcomeOf(log[i])) == 2;
    }
    if Worst(log) == Unknown {
      var i :| 0 <= i < |log| && OutcomeOf(log[i]) == Worst(log);
      assert log[i] in {InFlight, Refused(Unknown)};
    }
  }

  // ----------------------------------------------------------------- ways out

  /** The request's next transaction, undisturbed. */
  function Do(s: State, r: Name, env: Env): State {
    Next(s, Transact(r, env, Reliable))
  }

  predicate Steps(s: State, r: Name) { r in s.requests && !s.requests[r].cancelled }

  lemma {:induction false} DoIs(s: State, r: Name, env: Env)
    requires Steps(s, r) && CallOf(s.requests[r], env).Some?
    ensures var c := CallOf(s.requests[r], env).value;
      && Executable(s.tables, c)
      && Do(s, r, env).tables == Exec(s.tables, c).0
      && Do(s, r, env).requests == s.requests[r := After(s.requests[r], Exec(s.tables, c).1)]
  {
    hide Transactions.Exec;
  }

  lemma {:induction false} DoReleasesClaim(s: State, r: Name, env: Env)
    requires Steps(s, r) && s.requests[r].pc == ReleasingClaim
    ensures var s', q := Do(s, r, env), s.requests[r];
      && s'.requests == s.requests[r := q.(pc := Stopped)]
      && OwnPendingClaimEnds(s.tables, s'.tables, q.a) && s'.tables.ledger == s.tables.ledger && HistorySame(s.tables, s'.tables)
  {
    DoIs(s, r, env);
    ReleasePendingLaw(s.tables, s.requests[r].a);
  }

  /** A request that cannot be prepared gives its claim back and stops. */
  lemma {:induction false} UnpreparedGivesClaimBack(s: State, r: Name, env: Env)
    requires Steps(s, r) && s.requests[r].pc == Preparing
    ensures var s' := Do(Next(s, Prepare(r, false)), r, env);
      && s'.requests[r].pc == Stopped
      && OwnPendingClaimEnds(s.tables, s'.tables, s.requests[r].a) && s'.tables.ledger == s.tables.ledger
  {
    var s1 := Next(s, Prepare(r, false));
    assert s1.tables == s.tables && Steps(s1, r) && s1.requests[r] == s.requests[r].(pc := ReleasingClaim);
    hide Service.Next;
    DoReleasesClaim(s1, r, env);
  }

  lemma {:induction false} RefusedReserveKeepsClaims(t: Tables, a: Attempt, readOnly: bool, p: Policy, now: Instant)
    ensures Reserve(t, a, readOnly, p, now).0.claims == t.claims
    ensures Exec(t, ReserveCall(a, readOnly, p, now)) == Reserve(t, a, readOnly, p, now)
  {
    hide Transactions.SweepMonths, Transactions.Projected, Transactions.ClaimCounters;
  }

  /** A request refused by the policy gives its claim back and stops. */
  lemma {:induction false} DeniedGivesClaimBack(s: State, r: Name, env1: Env, env2: Env)
    requires Steps(s, r) && s.requests[r].pc == Reserving
    requires !Reserve(s.tables, s.requests[r].a, s.requests[r].readOnly, env1.policy, env1.now).1.Reserved?
    ensures var s' := Do(Do(s, r, env1), r, env2);
      && s'.requests[r].pc == Stopped && OwnPendingClaimEnds(s.tables, s'.tables, s.requests[r].a)
  {
    hide Transactions.Exec, Transactions.Reserve, Do;
    var q := s.requests[r];
    DoIs(s, r, env1);
    RefusedReserveKeepsClaims(s.tables, q.a, q.readOnly, env1.policy, env1.now);
    DoReleasesClaim(Do(s, r, env1), r, env2);
  }

  lemma {:induction false} OwnReservation(s: State, r: Name)
    requires Inv(s) && r in s.requests && s.requests[r].quota.Some?
    ensures var q := s.requests[r];
      && q.a.request == r && Named(s.tables, q.a, q.quota.value.id, q.quota.value.month)
      && Owns(s.tables.ledger, q.a, q.quota.value.id) && Books(s.tables.ledger)
  {
    assert RequestOk(s.tables, s.writer, r, s.requests[r]);
  }

  lemma {:induction false} FenceCalls(q: Request, env: Env)
    requires q.quota.Some?
    ensures var id, month := q.quota.value.id, q.quota.value.month;
      && (q.pc == Binding ==> CallOf(q, env) == Some(BindCall(q.a, id, month)))
      && (q.pc == Marking ==> CallOf(q, env) == Some(MarkCall(q.a, id, month, env.revision, env.now)))
      && (q.pc == ReleasingReservation ==> CallOf(q, env) == Some(ReleaseNotDispatchedCall(q.a, id, month)))
      && (q.pc == ReleasingQuota ==> CallOf(q, env) == Some(ReleaseQuotaCall(q.a, id, month)))
      && (q.pc == FinishingNotDispatched ==> CallOf(q, env) == Some(FinishNotDispatchedCall(q.a, id, month)))
      && (q.pc == FinishingReadFailure ==> CallOf(q, env) == Some(FinishReadFailureCall(q.a, id, month)))
      && (q.pc == FinishingError ==> CallOf(q, env) == Some(FinishCall(q.a, id, month, None)))
      && (q.pc.FinishingOutput? ==> CallOf(q, env) == Some(FinishCall(q.a, id, month, Some(q.pc.output))))
  {
  }

  lemma {:induction false} ExecIs(t: Tables, a: Attempt, q: nat, month: Name, revision: Revision, now: Instant, output: Option<Name>)
    ensures Exec(t, BindCall(a, q, month)) == Bind(t, a, q, month)
    ensures Exec(t, MarkCall(a, q, month, revision, now)) == Mark(t, a, q, month, revision, now)
    ensures Exec(t, ReleaseNotDispatchedCall(a, q, month)) == ReleaseNotDispatched(t, a, q, month)
    ensures Exec(t, ReleaseQuotaCall(a, q, month)) == ReleaseQuota(t, a, q, month)
    ensures Exec(t, FinishNotDispatchedCall(a, q, month)) == FinishNotDispatched(t, a, q, month)
    ensures Exec(t, FinishReadFailureCall(a, q, month)) == FinishReadFailure(t, a, q, month)
    ensures Exec(t, FinishCall(a, q, month, output)) == Finish(t, a, q, month, output)
  {
  }

  /** A call that was never dispatched leaves nothing behind: its reservation is refunded while it is active, its
      claim given back. */
  lemma {:induction false} UndispatchedCleansUp(s: State, r: Name, env1: Env, env2: Env)
    requires Inv(s) && Steps(s, r) && s.requests[r].pc == ReleasingReservation && s.requests[r].quota.Some?
    ensures var s', q := Do(Do(s, r, env1), r, env2), s.requests[r];
      && s'.requests[r].pc == Stopped && HistorySame(s.tables, s'.tables)
      && if Active(s.tables.ledger.reservations[q.quota.value.id])
         then Refunded(s.tables.ledger, s'.tables.ledger, q.quota.value.id) && OwnClaimEnds(s.tables, s'.tables, q.a)
         else s'.tables.ledger == s.tables.ledger && OwnPendingClaimEnds(s.tables, s'.tables, q.a)
  {
    hide Transactions.Exec, Do, Protocol.Inv, Refunded, Bookkeeping.Books, Transactions.ReleaseNotDispatched;
    var q := s.requests[r];
    var id, month := q.quota.value.id, q.quota.value.month;
    OwnReservation(s, r);
    FenceCalls(q, env1);
    ExecIs(s.tables, q.a, id, month, Unchanged, env1.now, None);
    DoIs(s, r, env1);
    ReleaseNotDispatchedLaw(s.tables, q.a, id, month);
    DoReleasesClaim(Do(s, r, env1), r, env2);
  }

  /** A refused binding or fence changes nothing by itself, and then cleans up like that. */
  lemma {:induction false} RefusedFenceCleansUp(s: State, r: Name, env: Env)
    requires Inv(s) && Steps(s, r) && s.requests[r].pc in {Binding, Marking} && s.requests[r].quota.Some?
    requires var q := s.requests[r];
      if q.pc == Binding then Bind(s.tables, q.a, q.quota.value.id, q.quota.value.month).1 != Done
      else Mark(s.tables, q.a, q.quota.value.id, q.quota.value.month, env.revision, env.now).1 != Done
    ensures Do(s, r, env).tables == s.tables
    ensures Do(s, r, env).requests == s.requests[r := s.requests[r].(pc := ReleasingReservation)]
  {
    hide Transactions.Exec, Do, Protocol.Inv, Transactions.Bind, Transactions.Mark;
    var q := s.requests[r];
    var id, month := q.quota.value.id, q.quota.value.month;
    FenceCalls(q, env);
    ExecIs(s.tables, q.a, id, month, env.revision, env.now, None);
    DoIs(s, r, env);
    BindLaw(s.tables, q.a, id, month);
    MarkLaw(s.tables, q.a, id, month, env.revision, env.now);
  }

  /** Proof of nondispatch refunds the dispatched reservation and ends the claim. */
  lemma {:induction false} ProvenFailureRefunds(s: State, r: Name, env: Env)
    requires Inv(s) && Steps(s, r) && s.requests[r].pc == FinishingNotDispatched && s.requests[r].quota.Some?
    requires s.requests[r].quota.value.id < |s.tables.ledger.reservations|
    requires s.tables.ledger.reservations[s.requests[r].quota.value.id].phase == Dispatched && MayEnd(s.tables, s.requests[r].a)
    ensures var s', q := Do(s, r, env), s.requests[r];
      && s'.requests[r].pc == Stopped && HistorySame(s.tables, s'.tables)
      && Refunded(s.tables.ledger, s'.tables.ledger, q.quota.value.id) && OwnClaimEnds(s.tables, s'.tables, q.a)
  {
    hide Transactions.Exec, Do, Protocol.Inv, Refunded, Bookkeeping.Books, Transactions.FinishNotDispatched;
    var q := s.requests[r];
    var id, month := q.quota.value.id, q.quota.value.month;
    OwnReservation(s, r);
    FenceCalls(q, env);
    ExecIs(s.tables, q.a, id, month, Unchanged, env.now, None);
    DoIs(s, r, env);
    FinishNotDispatchedLaw(s.tables, q.a, id, month);
  }

  /** A failure the provider answered frees the reservation without refund or charge. A read then ends its claim;
      a write keeps its dispatched claim as a fence. */
  lemma {:induction false} AnsweredFailureFrees(s: State, r: Name, env1: Env, env2: Env)
    requires Inv(s) && UsageExact(s.tables.ledger) && Steps(s, r) && s.requests[r].pc == ReleasingQuota
    requires s.requests[r].quota.Some? && s.requests[r].quota.value.id < |s.tables.ledger.reservations|
    requires s.tables.ledger.reservations[s.requests[r].quota.value.id].phase == Dispatched && MayEnd(s.tables, s.requests[r].a)
    ensures var s', q := Do(Do(s, r, env1), r, env2), s.requests[r];
      && s'.requests[r].pc == Stopped && HistorySame(s.tables, s'.tables)
      && Freed(s.tables.ledger, s'.tables.ledger, q.quota.value.id)
      && if q.readOnly then OwnClaimEnds(s.tables, s'.tables, q.a) else s'.tables.claims == s.tables.claims
  {
    hide Transactions.Exec, Do, Protocol.Inv, Bookkeeping.Books, Bookkeeping.UsageExact, Accounting.Owned;
    hide Transactions.ReleaseQuota, Transactions.FinishReadFailure, Transactions.Finish, CallOf, Effects.Charged;
    var q := s.requests[r];
    var id, month := q.quota.value.id, q.quota.value.month;
    OwnReservation(s, r);
    FenceCalls(q, env1);
    ExecIs(s.tables, q.a, id, month, Unchanged, env1.now, None);
    DoIs(s, r, env1);
    ReleaseQuotaLaw(s.tables, q.a, id, month);
    var s1 := Do(s, r, env1);
    var q1 := s1.requests[r];
    assert s1.tables.claims == s.tables.claims;
    FenceCalls(q1, env2);
    ExecIs(s1.tables, q.a, id, month, Unchanged, env2.now, None);
    DoIs(s1, r, env2);
    if q.readOnly {
      DoKeepsBooks(s, r, env1);
      FinishReadFailureLaw(s1.tables, q.a, id, month);
    } else {
      FinishErrorLaw(s1.tables, q.a, id, month);
    }
  }

  lemma {:induction false} DoKeepsBooks(s: State, r: Name, env: Env)
    requires Inv(s) && UsageExact(s.tables.ledger)
    ensures Inv(Do(s, r, env)) && Books(Do(s, r, env).tables.ledger) && UsageExact(Do(s, r, env).tables.ledger)
  {
    hide Transactions.Exec, Bookkeeping.UsageExact, Bookkeeping.Books;
    var step := Transact(r, env, Reliable);
    StepKeepsInv(s, step);
    StepKeepsUsageIff(s, step);
    if Enabled(s, step) && CallIn(s, step).Some? {
      RollbackIsFair(s, step);
    }
  }

  // ------------------------------------------------------------ cache and deadline

  lemma {:induction false} AcquireIsExec(t: Tables, a: Attempt, disabled: bool, now: Instant)
    ensures Exec(t, AcquireCall(a, disabled, now)) == Acquire(t, a, disabled, now)
  {
  }

  /** A recorded success of the same identity is returned without touching anything or entering the runner. */
  lemma {:induction false} RecordedSuccessIsReturned(s: State, r: Name, env: Env)
    requires Steps(s, r) && s.requests[r].pc == Acquiring && !env.disabled && s.requests[r].a.key.Some?
    requires KeyOf(s.requests[r].a) in s.tables.records && !OtherIdentity(s.tables, KeyOf(s.requests[r].a), s.requests[r].a.id)
    ensures var s', q := Do(s, r, env), s.requests[r];
      && s'.tables == s.tables
      && s'.requests[r] == q.(pc := Stopped, cached := Some(s.tables.records[KeyOf(q.a)].output))
  {
    hide Transactions.Exec, Transactions.Acquire;
    DoIs(s, r, env);
    AcquireIsExec(s.tables, s.requests[r].a, env.disabled, env.now);
    AcquireLaw(s.tables, s.requests[r].a, env.disabled, env.now);
    assert Acquire(s.tables, s.requests[r].a, env.disabled, env.now).1 == Cached(s.tables.records[KeyOf(s.requests[r].a)].output);
  }

  lemma {:induction false} CandidateIsOwn(t: Tables, a: Attempt, q: nat)
    requires Books(t.ledger) && TimeoutCandidate(t, a, q) && t.ledger.reservations[q].phase == Dispatched
    ensures Owns(t.ledger, a, q)
  {
  }

  /** A read past its deadline ends its claim; its reservation is charged when it was dispatched under that claim and
      some runner attempt did not prove nondispatch, and refunded otherwise. */
  lemma {:induction false} DeadlineFinalizes(s: State, r: Name, pick: Option<nat>)
    requires Inv(s) && UsageExact(s.tables.ledger) && Enabled(s, FinalizeTimeout(r, pick, Reliable))
    ensures var s', q := Next(s, FinalizeTimeout(r, pick, Reliable)), s.requests[r];
      && s'.requests == s.requests[r := q.(timedOut := true)]
      && HistorySame(s.tables, s'.tables) && OwnClaimEnds(s.tables, s'.tables, q.a)
      && (if q.a.key.None? || !OwnsClaim(s.tables, KeyOf(q.a), r) || pick.None? then s'.tables.ledger == s.tables.ledger
          else if && s.tables.ledger.reservations[pick.value].phase == Dispatched && s.tables.claims[KeyOf(q.a)].dispatched
                  && exists i :: 0 <= i < |q.log| && q.log[i] != Refused(NotDispatched)
          then Charged(s.tables.ledger, s'.tables.ledger, pick.value, ActionMeter(r))
          else Refunded(s.tables.ledger, s'.tables.ledger, pick.value))
  {
    hide Transactions.FinishReadTimeout, Charged, Refunded, Bookkeeping.UsageExact, Bookkeeping.Books, Protocol.Linked, Protocol.FenceKept;
    hide Protocol.RowsBacked, Protocol.ClaimsBacked, Protocol.RecordsBacked, Protocol.RefundsBacked, Protocol.PendingTogether;
    var q := s.requests[r];
    assert RequestOk(s.tables, s.writer, r, q);
    NotDispatchedIff(q.log);
    if pick.Some? && s.tables.ledger.reservations[pick.value].phase == Dispatched {
      CandidateIsOwn(s.tables, q.a, pick.value);
    }
    FinishReadTimeoutLaw(s.tables, q.a, q.outcome, pick);
  }
}
