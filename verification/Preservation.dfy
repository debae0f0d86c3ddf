/** Every step keeps the protocol invariant. */
module Preservation {
  import opened Wrappers
  import opened Schema
  import opened Ledgers
  import opened Evidence
  import opened Transactions
  import opened Conservation
  import opened Bookkeeping
  import opened Accounting
  import opened Isolation
  import opened Service
  import opened Protocol

  // ------------------------------------------------------------ what transactions add

  /** Claims and completed records never share a key. */
  lemma {:induction false} ExecKeepsApart(t: Tables, c: Call)
    requires Executable(t, c) && forall k :: k in t.claims ==> k !in t.records
    ensures forall k :: k in Exec(t, c).0.claims ==> k !in Exec(t, c).0.records
  {
    hide Ledgers.WriteEvent, Ledgers.RefundAndRelease, Transactions.SweepMonths;
    hide Transactions.ClaimCounters, Transactions.Projected, Transactions.Refusal, Transactions.Resolve;
  }

  /** A claim that a transaction writes carries its attempt's key; an operator writes none. */
  lemma {:induction false} ClaimWritten(t: Tables, c: Call, k: Key)
    requires Executable(t, c) && k in Exec(t, c).0.claims
    requires !(k in t.claims && Exec(t, c).0.claims[k] == t.claims[k])
    ensures (c.AcquireCall? || c.MarkCall?) && c.a.key.Some? && k == KeyOf(c.a)
    ensures Exec(t, c).0.claims[k].owner == c.a.request
    ensures c.AcquireCall? ==> Exec(t, c).0.claims[k].id == c.a.id
    ensures c.MarkCall? ==>
      && k in t.claims && Exec(t, c).0.claims[k] == t.claims[k].(dispatched := true)
  {
    hide Ledgers.WriteEvent, Ledgers.RefundAndRelease, Transactions.SweepMonths;
    hide Transactions.ClaimCounters, Transactions.Projected, Transactions.Refusal, Transactions.Resolve;
  }

  /** A record that a transaction writes is its attempt's, from a finish with that output. */
  lemma {:induction false} RecordWritten(t: Tables, c: Call, k: Key)
    requires Executable(t, c) && k in Exec(t, c).0.records && k !in t.records
    ensures c.FinishCall? && c.output.Some? && c.a.key.Some? && k == KeyOf(c.a)
    ensures Exec(t, c).0.records[k] == Record(c.a.id.connection, c.a.id.action, c.a.id.hash, c.output.value)
  {
    hide Ledgers.WriteEvent, Ledgers.RefundAndRelease, Transactions.SweepMonths;
    hide Transactions.ClaimCounters, Transactions.Projected, Transactions.Refusal, Transactions.Resolve;
  }

  /** A reservation that a transaction inserts repeats its attempt; only reserve inserts. */
  lemma {:induction false} RowInserted(t: Tables, c: Call, i: nat)
    requires Books(t.ledger) && Owned(t.ledger, c) && Executable(t, c)
    requires |t.ledger.reservations| <= i < |Exec(t, c).0.ledger.reservations|
    ensures c.ReserveCall?
    ensures var row := Exec(t, c).0.ledger.reservations[i];
      row.project == c.a.project && row.id == c.a.id && row.key == c.a.key && row.phase == Pending
  {
    if c.ReserveCall? {
      var moves, swept := ReserveMoves(t, c.a, c.readOnly, c.policy, c.now);
    } else if c.ReconcileCall? {
      var moves := ReconcileMoves(t, c.cmd, c.now);
      ShortCount(t.ledger, moves);
    } else {
      SameCount(t, c);
    }
  }

  /** Only marking turns a pending reservation into anything but a released one. */
  lemma {:induction false} PendingStays(t: Tables, c: Call, i: nat)
    requires Books(t.ledger) && Owned(t.ledger, c) && Executable(t, c) && !c.MarkCall?
    requires i < |t.ledger.reservations| && i < |Exec(t, c).0.ledger.reservations|
    requires t.ledger.reservations[i].phase == Pending
    ensures Exec(t, c).0.ledger.reservations[i].phase == Pending || Exec(t, c).0.ledger.reservations[i].phase == Released
  {
    if c.ReserveCall? {
      var moves, swept := ReserveMoves(t, c.a, c.readOnly, c.policy, c.now);
      assert RowDrifts(t.ledger.reservations[i], swept.reservations[i]);
    } else if c.ReconcileCall? {
      var moves := ReconcileMoves(t, c.cmd, c.now);
      MovePendingStays(t.ledger, moves, i);
    } else {
      var moves := RequestMoves(t, c);
      MovePendingStays(t.ledger, moves, i);
    }
  }

  lemma {:induction false} MovePendingStays(l: Ledger, moves: seq<Move>, i: nat)
    requires LegalAll(l, moves) && |moves| <= 1 && (|moves| == 1 ==> !moves[0].DispatchTill?)
    requires i < |l.reservations| && i < |PlayAll(l, moves).reservations| && l.reservations[i].phase == Pending
    ensures PlayAll(l, moves).reservations[i].phase == Pending || PlayAll(l, moves).reservations[i].phase == Released
  {
    if moves != [] {
      assert moves[1..] == [];
      if moves[0].RefundRelease? && RefundAndRelease(l, l.reservations[moves[0].q].project, moves[0].q).Some? {
        RefundedRow(l, moves[0].q);
      }
    }
  }

  // ------------------------------------------------------------------- the actor

  /** An unproven mutation keeps its fence, or writes its record, in its own transaction. */
  lemma {:induction false} OwnFence(t: Tables, q: Request, env: Env)
    requires Logged(q) && Fenced(t, q) && PastMark(q.pc) && !q.readOnly && q.outcome != NotDispatched
    requires CallOf(q, env).Some? && (KeyOf(q.a) in t.claims ==> KeyOf(q.a) !in t.records)
    ensures var t' := Exec(t, CallOf(q, env).value).0;
      Fenced(t', q) || (KeyOf(q.a) !in t.records && KeyOf(q.a) in t'.records)
  {
    hide Protocol.Fenced, Transactions.ReleaseQuota;
    var id, month := q.quota.value.id, q.quota.value.month;
    if q.pc.FinishingOutput? {
      hide Transactions.Finish;
      FinishFence(t, q, id, month, q.pc.output);
    } else if q.pc.ReleasingQuota? {
      ReleaseQuotaKeepsFence(t, q, id, month);
    } else {
      assert q.pc.FinishingError?;
      assert Finish(t, q.a, id, month, None).0 == t;
    }
  }

  /** The second half of FenceKept after a request's own transaction. */
  lemma {:induction false} OwnFenceStep(s: State, step: Step)
    requires Inv(s) && Enabled(s, step) && step.Transact?
    requires var q := s.requests[step.request]; q.a.key.Some? && !q.readOnly && q.outcome != NotDispatched
    ensures Fenced(TablesAfter(s, step), s.requests[step.request]) || Wrote(WriterAfter(s, step), s.requests[step.request])
  {
    hide Transactions.Exec, Protocol.Fenced;
    var q := s.requests[step.request];
    assert RequestOk(s.tables, s.writer, step.request, q);
    assert PastMark(q.pc) && Fenced(s.tables, q);
    OwnFence(s.tables, q, step.env);
  }

  /** The log is empty before the fence, so a transaction that inserts a reservation has an empty log. */
  lemma {:induction false} CountKept(s: State, step: Step)
    requires Inv(s) && Enabled(s, step) && step.Transact? && s.requests[step.request].log != []
    ensures |TablesAfter(s, step).ledger.reservations| == |s.tables.ledger.reservations|
  {
    hide Transactions.Exec, Accounting.Owned, Bookkeeping.Books, Protocol.Linked, Protocol.FenceKept;
    assert RequestOk(s.tables, s.writer, step.request, s.requests[step.request]);
    CallIsOwned(s, step);
    SameCount(s.tables, CallIn(s, step).value);
  }

  lemma {:induction false} WritersGrow(s: State, step: Step)
    requires Inv(s) && Enabled(s, step)
    ensures WriterGrows(s.writer, WriterAfter(s, step))
  {
    hide Transactions.Exec;
  }

  lemma {:induction false} QuietTransactOk(s: State, step: Step, q': Request)
    requires Inv(s) && Enabled(s, step) && step.Transact?
    requires var q := s.requests[step.request]; q' == q.(pc := q'.pc) && Logged(q')
    requires q'.pc.Stopped? || q'.pc.ReleasingClaim? || (q'.pc.ReleasingReservation? && q'.quota.Some?)
    ensures RequestOk(TablesAfter(s, step), WriterAfter(s, step), step.request, q')
  {
    hide Transactions.Exec, Bookkeeping.Books, Bookkeeping.LedgerGrows, Protocol.Linked, Protocol.Fenced;
    var q := s.requests[step.request];
    assert RequestOk(s.tables, s.writer, step.request, q);
    StepSpares(s, step);
    if q.log != [] {
      CountKept(s, step);
    }
    if q.a.key.Some? && !q.readOnly && q.outcome != NotDispatched {
      OwnFenceStep(s, step);
    }
    QuietOk(s.tables, TablesAfter(s, step), s.writer, WriterAfter(s, step), q, q');
  }

  /** Only a finish with output writes a record. */
  lemma {:induction false} WriterKept(s: State, step: Step)
    requires Enabled(s, step) && step.Transact? && !s.requests[step.request].pc.FinishingOutput?
    ensures WriterAfter(s, step) == s.writer
  {
    hide Transactions.Exec;
    var c := CallIn(s, step).value;
    if WriterAfter(s, step) != s.writer {
      RecordWritten(s.tables, c, KeyOf(s.requests[step.request].a));
    }
  }

  lemma {:induction false} AcquireStepOk(s: State, step: Step)
    requires Inv(s) && Enabled(s, step) && step.Transact? && s.requests[step.request].pc.Acquiring?
    requires !s.requests[step.request].cancelled
    ensures RequestOk(TablesAfter(s, step), WriterAfter(s, step), step.request, RequestsAfter(s, step)[step.request])
  {
    hide Transactions.Acquire, Protocol.Linked, Protocol.FenceKept, Protocol.Logged;
    var q := s.requests[step.request];
    assert RequestOk(s.tables, s.writer, step.request, q);
    WriterKept(s, step);
    AcquireOk(s.tables, s.writer, q, step.env, ReplySeen(s, step));
  }

  /** A dispatch that goes on past reserve, bind, mark or the quota release. */
  lemma {:induction false} AdvanceOk(s: State, step: Step)
    requires Inv(s) && Enabled(s, step) && step.Transact? && FaultOf(step) == Reliable
    requires var q := s.requests[step.request];
      !q.cancelled && (q.pc.Reserving? || q.pc.Binding? || q.pc.Marking? || q.pc.ReleasingQuota?)
    requires var reply := ReplySeen(s, step); reply == Done || (s.requests[step.request].pc.Reserving? && reply.Reserved?)
    ensures RequestOk(TablesAfter(s, step), WriterAfter(s, step), step.request, RequestsAfter(s, step)[step.request])
  {
    hide Transactions.Reserve, Transactions.Bind, Transactions.Mark, Transactions.ReleaseQuota;
    hide Bookkeeping.Books, Bookkeeping.LedgerGrows, Isolation.ClaimsSpared, Isolation.RowsSpared, Isolation.HistoryKept;
    hide Protocol.Linked, Protocol.FenceKept, Protocol.Logged;
    var q := s.requests[step.request];
    assert RequestOk(s.tables, s.writer, step.request, q);
    StepSpares(s, step);
    WriterKept(s, step);
    if q.pc.Reserving? {
      ReserveReplies(s.tables, q.a, q.readOnly, step.env.policy, step.env.now);
      ReserveOk(s.tables, s.writer, q, step.env);
    } else {
      NeedsItsQuota(s.tables, q);
      if q.pc.Binding? {
        BindOk(s.tables, s.writer, q);
      } else if q.pc.Marking? {
        MarkOk(s.tables, s.writer, q, step.env);
      } else {
        ReleaseQuotaOk(s.tables, s.writer, q);
      }
    }
  }

  lemma {:induction false} ReserveReplies(t: Tables, a: Attempt, readOnly: bool, p: Policy, now: Instant)
    ensures Reserve(t, a, readOnly, p, now).1.Reserved? || Reserve(t, a, readOnly, p, now).1.Failed?
  {
  }

  lemma {:induction false} NeedsItsQuota(t: Tables, q: Request)
    requires Linked(t, q) && NeedsQuota(q.pc)
    ensures q.quota.Some?
  {
  }

  /** The acting request keeps its share of the invariant in its own transaction. */
  lemma {:induction false} TransactOk(s: State, step: Step)
    requires Inv(s) && Enabled(s, step) && step.Transact?
    ensures RequestOk(TablesAfter(s, step), WriterAfter(s, step), step.request, RequestsAfter(s, step)[step.request])
  {
    hide Transactions.Exec, Protocol.Linked, Protocol.FenceKept, Protocol.Logged, Bookkeeping.Books;
    var q := s.requests[step.request];
    var q' := RequestsAfter(s, step)[step.request];
    assert RequestOk(s.tables, s.writer, step.request, q);
    AfterLogged(q, ReplySeen(s, step));
    if q.pc.Acquiring? && !q.cancelled {
      AcquireStepOk(s, step);
    } else if q'.pc.Stopped? || q'.pc.ReleasingClaim? || q'.pc.ReleasingReservation? {
      if q.pc.Binding? || q.pc.Marking? {
        NeedsItsQuota(s.tables, q);
      }
      QuietTransactOk(s, step, q');
    } else {
      AdvanceOk(s, step);
    }
  }

  // ------------------------------------------------------- steps without a transaction

  lemma {:induction false} OnlyRow(t: Tables, q: Request, i: nat)
    requires Books(t.ledger) && Linked(t, q) && q.quota.Some? && i < |t.ledger.reservations|
    requires t.ledger.reservations[i].creator == q.a.request
    ensures i == q.quota.value.id
  {
  }

  lemma {:induction false} EnterOk(t: Tables, writer: map<Key, Name>, r: Name, q: Request)
    requires Books(t.ledger) && RequestOk(t, writer, r, q) && q.pc.Ready? && !q.cancelled
    ensures RequestOk(t, writer, r, q.(pc := Running(q.pc.index, q.outcome), outcome := Unknown, log := q.log + [InFlight]))
  {
    EnterLogged(q);
    forall i | 0 <= i < |t.ledger.reservations| && t.ledger.reservations[i].creator == q.a.request
      ensures t.ledger.reservations[i].phase != Pending
    {
      OnlyRow(t, q, i);
    }
  }

  lemma {:induction false} RunnerOk(t: Tables, writer: map<Key, Name>, r: Name, q: Request, result: RunnerResult)
    requires RequestOk(t, writer, r, q) && q.pc.Running? && !q.cancelled
    ensures RequestOk(t, writer, r, AfterRunner(q, result))
  {
    hide Protocol.Logged, Protocol.Linked, Protocol.FenceKept, AfterRunner;
    assert q.log != [] by { RunningIsLogged(q); }
    RunnerLogged(q, result);
    RunnerLinked(t, q, result);
    RunnerFenced(t, writer, q, result);
    assert AfterRunner(q, result).a == q.a by { RunnerKeepsAttempt(q, result); }
  }

  lemma {:induction false} RunningIsLogged(q: Request)
    requires Logged(q) && q.pc.Running?
    ensures q.log != []
  {
  }

  lemma {:induction false} RunnerKeepsAttempt(q: Request, result: RunnerResult)
    requires q.pc.Running? && q.log != []
    ensures AfterRunner(q, result).a == q.a
  {
  }

  lemma {:induction false} RunnerLinked(t: Tables, q: Request, result: RunnerResult)
    requires Linked(t, q) && q.pc.Running? && q.log != []
    ensures Linked(t, AfterRunner(q, result))
  {
    hide Protocol.Proven, Bookkeeping.HasRefund;
    var q' := AfterRunner(q, result);
    assert (PastMark(q'.pc) || q'.pc == Stopped) && q'.quota == q.quota && q'.log != [];
  }

  lemma {:induction false} RunnerFenced(t: Tables, writer: map<Key, Name>, q: Request, result: RunnerResult)
    requires FenceKept(t, writer, q) && q.pc.Running? && q.log != [] && !q.cancelled
    ensures FenceKept(t, writer, AfterRunner(q, result))
  {
    hide Protocol.Proven, Schema.HoldsDispatched;
    var q' := AfterRunner(q, result);
    assert q'.a == q.a && q'.readOnly == q.readOnly && q'.cached == q.cached;
    assert q.a.key.Some? ==> Fenced(t, q);
  }

  lemma {:induction false} LocalOk(s: State, step: Step)
    requires Inv(s) && Enabled(s, step)
    requires step.Prepare? || step.EnterRunner? || step.RunnerReturns? || step.Deadline?
    ensures RequestOk(s.tables, s.writer, step.request, RequestsAfter(s, step)[step.request])
  {
    hide Protocol.RequestOk, Bookkeeping.Books, AfterRunner;
    var q := s.requests[step.request];
    assert RequestOk(s.tables, s.writer, step.request, q);
    if step.EnterRunner? {
      EnterOk(s.tables, s.writer, step.request, q);
    } else if step.RunnerReturns? {
      RunnerOk(s.tables, s.writer, step.request, q, step.result);
    } else {
      PrepareOk(s, step);
    }
  }

  /** Preparing moves on or gives up before anything is reserved; a deadline only marks the request. */
  lemma {:induction false} PrepareOk(s: State, step: Step)
    requires Enabled(s, step) && (step.Prepare? || step.Deadline?)
    requires RequestOk(s.tables, s.writer, step.request, s.requests[step.request])
    ensures RequestOk(s.tables, s.writer, step.request, RequestsAfter(s, step)[step.request])
  {
    hide Bookkeeping.HasRefund, Evidence.Worst;
  }

  /** A new request starts with nothing; nothing in the tables can be its own yet. */
  lemma {:induction false} ArriveOk(s: State, step: Step)
    requires Inv(s) && Enabled(s, step) && step.Arrive?
    ensures RequestOk(s.tables, s.writer, step.a.request, RequestsAfter(s, step)[step.a.request])
  {
    var q := RequestsAfter(s, step)[step.a.request];
    assert Logged(q);
    forall i | 0 <= i < |s.tables.ledger.reservations| ensures s.tables.ledger.reservations[i].creator != step.a.request {
    }
  }

  // ------------------------------------------------------- the timeout finalizer and operators

  /** A reservation keeps fitting its request when someone else, or its own finalizer, ends it. */
  lemma {:induction false} FitCarries(t: Tables, t': Tables, q: Request, q': Request)
    requires Linked(t, q) && LedgerGrows(t.ledger, t'.ledger) && HistoryKept(t, t')
    requires |t'.ledger.reservations| == |t.ledger.reservations|
    requires q' == q.(timedOut := q'.timedOut)
    requires forall i :: 0 <= i < |t.ledger.reservations| && t.ledger.reservations[i].phase == Pending ==>
      t'.ledger.reservations[i].phase == Pending || t'.ledger.reservations[i].phase == Released
    requires q.quota.Some? && PastMark(q.pc) && !q.cancelled
      && HasRefund(t'.ledger.reservations[q.quota.value.id]) && !HasRefund(t.ledger.reservations[q.quota.value.id])
      ==> Proven(t', q.a.request)
    ensures Linked(t', q')
  {
    var rows, rows' := t.ledger.reservations, t'.ledger.reservations;
    forall i | 0 <= i < |rows| ensures RowGrows(rows[i], rows'[i]) {}
    if q.quota.Some? && Proven(t, q.a.request) {
      ProvenStays(t, t', q.a.request);
    }
  }

  lemma {:induction false} FinalizeOk(s: State, step: Step)
    requires Inv(s) && Enabled(s, step) && step.FinalizeTimeout?
    ensures RequestOk(TablesAfter(s, step), s.writer, step.request, RequestsAfter(s, step)[step.request])
  {
    hide Transactions.Exec, Bookkeeping.Books, Bookkeeping.LedgerGrows, Accounting.Owned, Protocol.Linked;
    var q := s.requests[step.request];
    assert RequestOk(s.tables, s.writer, step.request, q);
    StepSpares(s, step);
    CallIsOwned(s, step);
    var c := CallIn(s, step).value;
    SameCount(s.tables, c);
    var t' := TablesAfter(s, step);
    forall i | 0 <= i < |s.tables.ledger.reservations| && s.tables.ledger.reservations[i].phase == Pending
      ensures t'.ledger.reservations[i].phase == Pending || t'.ledger.reservations[i].phase == Released
    {
      if FaultOf(step) != RolledBack {
        PendingStays(s.tables, c, i);
      }
    }
    FitCarries(s.tables, t', q, RequestsAfter(s, step)[step.request]);
  }

  /** An operator removes a claim only with an audited proof of nondispatch. */
  lemma {:induction false} OperatorFence(t: Tables, cmd: Command, now: Instant, q: Request)
    requires Fenced(t, q)
    ensures Fenced(Reconcile(t, cmd, now).0, q)
  {
    hide Transactions.Refusal, Transactions.Resolve;
    var (t', reply) := Reconcile(t, cmd, now);
    assert t.audits <= t'.audits && t'.records == t.records;
    if Proven(t, q.a.request) {
      ProvenStays(t, t', q.a.request);
    } else if reply == Done && cmd.resolution.ProvenNotDispatched? && cmd.key == KeyOf(q.a) {
      assert t'.audits[|t.audits|].request == q.a.request;
    }
  }

  lemma {:induction false} OperatorCount(t: Tables, cmd: Command, now: Instant)
    requires Books(t.ledger)
    ensures |Reconcile(t, cmd, now).0.ledger.reservations| == |t.ledger.reservations|
  {
    var moves := ReconcileMoves(t, cmd, now);
    ShortCount(t.ledger, moves);
  }

  /** An operator's command keeps the share of the request whose claim it resolves. */
  lemma {:induction false} OperateOk(s: State, step: Step, r: Name)
    requires Inv(s) && step.Operate? && r in s.requests && r == ActorIn(s, step)
    ensures RequestOk(TablesAfter(s, step), s.writer, r, s.requests[r])
  {
    hide Transactions.Reconcile, Bookkeeping.Books, Bookkeeping.LedgerGrows, Accounting.Owned, Protocol.Linked, Protocol.Fenced;
    var q := s.requests[r];
    assert RequestOk(s.tables, s.writer, r, q);
    StepSpares(s, step);
    CallIsOwned(s, step);
    var c := ReconcileCall(step.cmd, step.now);
    var t' := TablesAfter(s, step);
    OperatorCount(s.tables, step.cmd, step.now);
    forall i | 0 <= i < |s.tables.ledger.reservations| && s.tables.ledger.reservations[i].phase == Pending
      ensures t'.ledger.reservations[i].phase == Pending || t'.ledger.reservations[i].phase == Released
    {
      PendingStays(s.tables, c, i);
    }
    if Fenced(s.tables, q) {
      OperatorFence(s.tables, step.cmd, step.now, q);
    }
    OperatorRefund(s.tables, t', c, q);
    FitCarries(s.tables, t', q, q);
  }

  lemma {:induction false} OperatorRefund(t: Tables, t': Tables, c: Call, q: Request)
    requires Books(t.ledger) && c.ReconcileCall? && t' == Exec(t, c).0 && Linked(t, q)
    requires |t'.ledger.reservations| == |t.ledger.reservations|
    ensures q.quota.Some? ==> q.quota.value.id < |t.ledger.reservations|
    ensures q.quota.Some? && PastMark(q.pc)
      && HasRefund(t'.ledger.reservations[q.quota.value.id]) && !HasRefund(t.ledger.reservations[q.quota.value.id])
      ==> Proven(t', q.a.request)
  {
    hide Transactions.Exec, Bookkeeping.HasRefund, Bookkeeping.Books;
    if q.quota.Some? && PastMark(q.pc)
       && HasRefund(t'.ledger.reservations[q.quota.value.id]) && !HasRefund(t.ledger.reservations[q.quota.value.id]) {
      RefundCause(t, c, t', q.quota.value.id);
    }
  }

  // ------------------------------------------------------------------ all requests

  lemma {:induction false} ActorOk(s: State, step: Step, r: Name)
    requires Inv(s) && Enabled(s, step) && r == ActorIn(s, step) && r in RequestsAfter(s, step)
    ensures RequestOk(TablesAfter(s, step), WriterAfter(s, step), r, RequestsAfter(s, step)[r])
  {
    hide Transactions.Exec, Protocol.Linked, Protocol.FenceKept, Protocol.Logged, Bookkeeping.Books;
    match step {
      case Arrive(_, _) => ArriveOk(s, step);
      case Transact(_, _, _) => TransactOk(s, step);
      case FinalizeTimeout(_, _, _) => FinalizeOk(s, step);
      case Operate(_, _) => OperateOk(s, step, r);
      case _ => LocalOk(s, step);
    }
  }

  lemma {:induction false} RequestsStayOk(s: State, step: Step)
    requires Inv(s) && Enabled(s, step)
    ensures forall r :: r in RequestsAfter(s, step) ==>
      RequestOk(TablesAfter(s, step), WriterAfter(s, step), r, RequestsAfter(s, step)[r])
  {
    hide Transactions.Exec, Protocol.Linked, Protocol.FenceKept, Protocol.Logged, Bookkeeping.Books, Isolation.Spares;
    StepSpares(s, step);
    WritersGrow(s, step);
    forall r | r in RequestsAfter(s, step)
      ensures RequestOk(TablesAfter(s, step), WriterAfter(s, step), r, RequestsAfter(s, step)[r])
    {
      if r == ActorIn(s, step) {
        ActorOk(s, step, r);
      } else {
        BystanderOk(s.tables, TablesAfter(s, step), s.writer, WriterAfter(s, step), r, s.requests[r], ActorIn(s, step));
      }
    }
  }

  /** Requests are never forgotten, and what they asked for never changes. */
  lemma {:induction false} RequestsKept(s: State, step: Step, r: Name)
    requires Enabled(s, step) && r in s.requests
    ensures r in RequestsAfter(s, step)
    ensures var q, q' := s.requests[r], RequestsAfter(s, step)[r];
      && q'.a == q.a && q'.readOnly == q.readOnly && (q.pc != Acquiring ==> q'.pc != Acquiring)
      && (q.pc == Stopped ==> q'.pc == Stopped && q'.log == q.log && q'.outcome == q.outcome)
      && (q'.outcome != q.outcome ==> q.pc.Ready? || q.pc.Running?)
      && (q'.outcome != q.outcome ==> !q.cancelled && r == ActorIn(s, step))
  {
    hide Transactions.Exec;
  }

  // --------------------------------------------------------------- rows and their requests

  lemma {:induction false} RowsStayBacked(s: State, step: Step)
    requires Inv(s) && Enabled(s, step)
    ensures RowsBacked(TablesAfter(s, step), RequestsAfter(s, step))
  {
    hide Transactions.Exec, Bookkeeping.Books, Accounting.Owned, Isolation.ClaimsSpared;
    hide Protocol.RequestOk, Protocol.RefundsBacked, Protocol.ClaimsBacked, Protocol.RecordsBacked, Protocol.PendingTogether;
    var t, t' := s.tables, TablesAfter(s, step);
    StepSpares(s, step);
    if step.Transact? {
      OwnAttempt(s, step.request);
    }
    forall i | 0 <= i < |t'.ledger.reservations|
      ensures var row := t'.ledger.reservations[i];
        && row.creator in RequestsAfter(s, step)
        && row.project == RequestsAfter(s, step)[row.creator].a.project
        && row.id == RequestsAfter(s, step)[row.creator].a.id
        && row.key == RequestsAfter(s, step)[row.creator].a.key
    {
      if i < |t.ledger.reservations| {
        assert RowGrows(t.ledger.reservations[i], t'.ledger.reservations[i]);
        RequestsKept(s, step, t.ledger.reservations[i].creator);
      } else {
        CallIsOwned(s, step);
        RowInserted(t, CallIn(s, step).value, i);
        RequestsKept(s, step, step.request);
      }
    }
  }

  lemma {:induction false} ClaimsStayBacked(s: State, step: Step)
    requires Inv(s) && Enabled(s, step)
    ensures ClaimsBacked(TablesAfter(s, step), RequestsAfter(s, step))
  {
    hide Transactions.Exec, Bookkeeping.Books, Bookkeeping.LedgerGrows, Accounting.Owned, Protocol.RequestOk;
    var t, t' := s.tables, TablesAfter(s, step);
    if CallIn(s, step).Some? {
      ExecKeepsApart(t, CallIn(s, step).value);
    }
    forall k | k in t'.claims
      ensures var c := t'.claims[k];
        && c.owner in RequestsAfter(s, step) && RequestsAfter(s, step)[c.owner].pc != Acquiring
        && RequestsAfter(s, step)[c.owner].a.key == Some(k.text)
        && RequestsAfter(s, step)[c.owner].a.project == k.project
        && RequestsAfter(s, step)[c.owner].a.id == c.id
    {
      if k in t.claims && t'.claims[k] == t.claims[k] {
        RequestsKept(s, step, t.claims[k].owner);
      } else {
        ClaimWritten(t, CallIn(s, step).value, k);
        assert step.Transact?;
        var q := s.requests[step.request];
        assert RequestOk(s.tables, s.writer, step.request, q);
        OwnAttempt(s, step.request);
        RequestsKept(s, step, step.request);
        AcquiringMovesOn(s, step);
      }
    }
  }

  lemma {:induction false} OwnAttempt(s: State, r: Name)
    requires Inv(s) && r in s.requests
    ensures s.requests[r].a.request == r
  {
    assert RequestOk(s.tables, s.writer, r, s.requests[r]);
  }

  lemma {:induction false} AcquiringMovesOn(s: State, step: Step)
    requires Enabled(s, step) && step.Transact?
    ensures RequestsAfter(s, step)[step.request].pc != Acquiring
  {
    hide Transactions.Exec;
  }

  lemma {:induction false} PendingStaysTogether(s: State, step: Step)
    requires Inv(s) && Enabled(s, step)
    ensures PendingTogether(TablesAfter(s, step))
  {
    hide Transactions.Exec, Bookkeeping.Books, Bookkeeping.LedgerGrows, Accounting.Owned;
    hide Protocol.RequestOk, Protocol.RefundsBacked, Protocol.RecordsBacked, Protocol.RowsBacked;
    var t, t' := s.tables, TablesAfter(s, step);
    var rows' := t'.ledger.reservations;
    StepSpares(s, step);
    if t' != t {
      CallIsOwned(s, step);
      var c := CallIn(s, step).value;
      if step.Transact? {
        OwnAttempt(s, step.request);
        NoRowsYet(s, step.request);
      }
      forall k, i | k in t'.claims && !t'.claims[k].dispatched && 0 <= i < |rows'| && rows'[i].creator == t'.claims[k].owner
        ensures rows'[i].phase == Pending || rows'[i].phase == Released
      {
        if c.MarkCall? && k in t.claims && t'.claims[k] == t.claims[k] {
          assert s.requests[t.claims[k].owner].a.key == Some(k.text);
        }
        PairStays(t, c, t', k, i);
      }
    }
  }

  lemma {:induction false} NoRowsYet(s: State, r: Name)
    requires Inv(s) && r in s.requests
    ensures s.requests[r].pc.Acquiring? ==>
      forall i :: 0 <= i < |s.tables.ledger.reservations| ==> s.tables.ledger.reservations[i].creator != r
  {
    assert RequestOk(s.tables, s.writer, r, s.requests[r]);
  }

  lemma {:induction false} PairStays(t: Tables, c: Call, t': Tables, k: Key, i: nat)
    requires Books(t.ledger) && Owned(t.ledger, c) && Executable(t, c) && t' == Exec(t, c).0
    requires LedgerGrows(t.ledger, t'.ledger) && PendingTogether(t)
    requires c.AcquireCall? ==>
      forall j :: 0 <= j < |t.ledger.reservations| ==> t.ledger.reservations[j].creator != c.a.request
    requires k in t'.claims && !t'.claims[k].dispatched
    requires i < |t'.ledger.reservations| && t'.ledger.reservations[i].creator == t'.claims[k].owner
    requires c.MarkCall? && k in t.claims && t'.claims[k] == t.claims[k] && c.a.request == t'.claims[k].owner ==>
      c.a.key == Some(k.text) && c.a.project == k.project
    ensures t'.ledger.reservations[i].phase == Pending || t'.ledger.reservations[i].phase == Released
  {
    hide Transactions.Exec, Bookkeeping.Books, Accounting.Owned;
    if i >= |t.ledger.reservations| {
      RowInserted(t, c, i);
    } else {
      assert RowGrows(t.ledger.reservations[i], t'.ledger.reservations[i]);
      if k in t.claims && t'.claims[k] == t.claims[k] {
        if t.ledger.reservations[i].phase == Pending {
          if c.MarkCall? {
            MarkPair(t, c, k, i);
          } else {
            PendingStays(t, c, i);
          }
        }
      } else {
        ClaimWritten(t, c, k);
      }
    }
  }

  /** Marking dispatches a claim together with its reservation. */
  lemma {:induction false} MarkPair(t: Tables, c: Call, k: Key, i: nat)
    requires c.MarkCall? && Owned(t.ledger, c) && i < |t.ledger.reservations|
    requires t.ledger.reservations[i].phase == Pending
    requires k in Exec(t, c).0.claims && !Exec(t, c).0.claims[k].dispatched
    requires t.ledger.reservations[i].creator == Exec(t, c).0.claims[k].owner
    requires c.a.request == Exec(t, c).0.claims[k].owner ==> c.a.key == Some(k.text) && c.a.project == k.project
    ensures Exec(t, c).0.ledger.reservations[i].phase == Pending
  {
  }

  lemma {:induction false} RecordsStayBacked(s: State, step: Step)
    requires Inv(s) && Enabled(s, step)
    ensures RecordsBacked(TablesAfter(s, step), RequestsAfter(s, step), WriterAfter(s, step))
  {
    hide Transactions.Exec, Bookkeeping.Books, Bookkeeping.LedgerGrows, Accounting.Owned, Isolation.ClaimsSpared, Isolation.RowsSpared;
    hide Protocol.RequestOk, Protocol.RowsBacked, Protocol.RefundsBacked, Protocol.ClaimsBacked, Protocol.PendingTogether;
    hide Service.TablesAfter;
    var t, t' := s.tables, TablesAfter(s, step);
    StepSpares(s, step);
    forall k | k in t'.records
      ensures k in WriterAfter(s, step) && WriterAfter(s, step)[k] in RequestsAfter(s, step)
      ensures var w := RequestsAfter(s, step)[WriterAfter(s, step)[k]];
        && w.pc == Stopped && w.a.key == Some(k.text) && w.a.project == k.project
        && RecordMatches(t'.records[k], w.a.id)
        && w.log != [] && w.log[|w.log| - 1] == Answered(t'.records[k].output)
    {
      if k in t.records {
        RequestsKept(s, step, s.writer[k]);
        WritersGrow(s, step);
      } else {
        NewRecordBacked(s, step, k);
      }
    }
  }

  /** A record just written holds the last answer of the request that finishes. */
  lemma {:induction false} NewRecordBacked(s: State, step: Step, k: Key)
    requires Inv(s) && Enabled(s, step) && k in TablesAfter(s, step).records && k !in s.tables.records
    ensures k in WriterAfter(s, step) && WriterAfter(s, step)[k] in RequestsAfter(s, step)
    ensures var w := RequestsAfter(s, step)[WriterAfter(s, step)[k]];
      && w.pc == Stopped && w.a.key == Some(k.text) && w.a.project == k.project
      && RecordMatches(TablesAfter(s, step).records[k], w.a.id)
      && w.log != [] && w.log[|w.log| - 1] == Answered(TablesAfter(s, step).records[k].output)
  {
    hide Transactions.Exec, Bookkeeping.Books;
    hide Protocol.Linked, Protocol.FenceKept, Protocol.RowsBacked, Protocol.RefundsBacked, Protocol.ClaimsBacked, Protocol.RecordsBacked;
    RecordWritten(s.tables, CallIn(s, step).value, k);
    assert step.Transact? && s.requests[step.request].pc.FinishingOutput?;
    assert RequestOk(s.tables, s.writer, step.request, s.requests[step.request]);
  }

  lemma {:induction false} RefundsStayBacked(s: State, step: Step)
    requires Inv(s) && Enabled(s, step)
    ensures RefundsBacked(TablesAfter(s, step), RequestsAfter(s, step))
  {
    hide Transactions.Exec, Bookkeeping.Books, Accounting.Owned, Isolation.ClaimsSpared, Isolation.RowsSpared, Bookkeeping.HasRefund;
    hide Protocol.RecordsBacked, Protocol.ClaimsBacked, Protocol.RequestOk, Protocol.Proven;
    var t, t' := s.tables, TablesAfter(s, step);
    StepSpares(s, step);
    forall i | 0 <= i < |t'.ledger.reservations| && HasRefund(t'.ledger.reservations[i])
      ensures var c := t'.ledger.reservations[i].creator;
        c in RequestsAfter(s, step) && (RequestsAfter(s, step)[c].outcome == NotDispatched || Proven(t', c))
    {
      if i >= |t.ledger.reservations| {
        CallIsOwned(s, step);
        RowInserted(t, CallIn(s, step).value, i);
        RefundedIsReleased(t'.ledger, i);
      } else {
        assert RowGrows(t.ledger.reservations[i], t'.ledger.reservations[i]);
        RequestsKept(s, step, t.ledger.reservations[i].creator);
        if HasRefund(t.ledger.reservations[i]) {
          OldRefund(s, step, i);
        } else {
          CallIsOwned(s, step);
          NewRefund(s, step, i);
        }
      }
    }
  }

  lemma {:induction false} RefundedIsReleased(l: Ledger, i: nat)
    requires Books(l) && i < |l.reservations| && HasRefund(l.reservations[i])
    ensures l.reservations[i].phase == Released
  {
  }

  /** A request whose reservation was refunded does not enter the runner later. */
  lemma {:induction false} OldRefund(s: State, step: Step, i: nat)
    requires Inv(s) && Enabled(s, step) && HistoryKept(s.tables, TablesAfter(s, step))
    requires i < |s.tables.ledger.reservations| && HasRefund(s.tables.ledger.reservations[i])
    ensures var c := s.tables.ledger.reservations[i].creator;
      c in RequestsAfter(s, step) && (RequestsAfter(s, step)[c].outcome == NotDispatched || Proven(TablesAfter(s, step), c))
  {
    hide Transactions.Exec, Bookkeeping.HasRefund, Protocol.Proven;
    var c := s.tables.ledger.reservations[i].creator;
    RequestsKept(s, step, c);
    var q := s.requests[c];
    assert RequestOk(s.tables, s.writer, c, q);
    if RequestsAfter(s, step)[c].outcome != q.outcome {
      OnlyRow(s.tables, q, i);
      assert Proven(s.tables, c);
    }
    if Proven(s.tables, c) {
      ProvenStays(s.tables, TablesAfter(s, step), c);
    }
  }

  /** A new refund is of a request that never ran, or whose evidence is nondispatch, or that an operator proved. */
  lemma {:induction false} NewRefund(s: State, step: Step, i: nat)
    requires Inv(s) && Enabled(s, step)
    requires CallIn(s, step).Some? ==> Owned(s.tables.ledger, CallIn(s, step).value)
    requires var rows, rows' := s.tables.ledger.reservations, TablesAfter(s, step).ledger.reservations;
      i < |rows| && i < |rows'| && !HasRefund(rows[i]) && HasRefund(rows'[i])
    ensures var c := s.tables.ledger.reservations[i].creator;
      c in RequestsAfter(s, step) && (RequestsAfter(s, step)[c].outcome == NotDispatched || Proven(TablesAfter(s, step), c))
  {
    hide Transactions.Exec, Bookkeeping.HasRefund, Accounting.Owned, Bookkeeping.Books, Protocol.Proven, Protocol.RequestOk;
    hide Protocol.ClaimsBacked, Protocol.PendingTogether, Protocol.RecordsBacked, Protocol.RefundsBacked;
    var row := s.tables.ledger.reservations[i];
    RequestsKept(s, step, row.creator);
    var c := CallIn(s, step).value;
    RefundCause(s.tables, c, TablesAfter(s, step), i);
    if row.phase == Pending {
      PendingNeverRan(s, i);
    } else if AsksRefund(c) {
      OwnAttempt(s, step.request);
      if step.FinalizeTimeout? {
        FinalizerRefunds(s, step, i);
      } else {
        AskerEvidence(s, step);
      }
    }
  }

  lemma {:induction false} PendingNeverRan(s: State, i: nat)
    requires Inv(s) && i < |s.tables.ledger.reservations| && s.tables.ledger.reservations[i].phase == Pending
    ensures s.requests[s.tables.ledger.reservations[i].creator].outcome == NotDispatched
  {
    var c := s.tables.ledger.reservations[i].creator;
    assert RequestOk(s.tables, s.writer, c, s.requests[c]);
  }

  lemma {:induction false} AskerEvidence(s: State, step: Step)
    requires Inv(s) && Enabled(s, step) && step.Transact? && AsksRefund(CallIn(s, step).value)
    ensures s.requests[step.request].outcome == NotDispatched
  {
    hide Transactions.Exec, Bookkeeping.Books, Protocol.Linked, Protocol.FenceKept, Protocol.RowsBacked;
    hide Protocol.ClaimsBacked, Protocol.PendingTogether, Protocol.RecordsBacked, Protocol.RefundsBacked;
    assert RequestOk(s.tables, s.writer, step.request, s.requests[step.request]);
  }

  /** The read finalizer asks for a refund of a dispatched reservation only on nondispatch evidence. */
  lemma {:induction false} FinalizerRefunds(s: State, step: Step, i: nat)
    requires Inv(s) && Enabled(s, step) && step.FinalizeTimeout?
    requires var rows, rows' := s.tables.ledger.reservations, TablesAfter(s, step).ledger.reservations;
      && i < |rows| && i < |rows'| && !HasRefund(rows[i]) && HasRefund(rows'[i])
      && rows[i].creator == step.request && rows[i].phase != Pending
    ensures s.requests[step.request].outcome == NotDispatched
  {
    hide Transactions.Exec, Bookkeeping.HasRefund;
    var q := s.requests[step.request];
    OwnAttempt(s, step.request);
    TimeoutRefunds(s.tables, q.a, q.outcome, step.pick, i);
  }

  lemma {:induction false} TimeoutRefunds(t: Tables, a: Attempt, outcome: Outcome, pick: Option<nat>, i: nat)
    requires Books(t.ledger) && IsLatestCandidate(t, a, pick) && PendingTogether(t)
    requires var rows, rows' := t.ledger.reservations, Exec(t, FinishReadTimeoutCall(a, outcome, pick)).0.ledger.reservations;
      && i < |rows| && i < |rows'| && !HasRefund(rows[i]) && HasRefund(rows'[i])
      && rows[i].creator == a.request && rows[i].phase != Pending
    ensures outcome == NotDispatched
  {
    var moves := TimeoutMoves(t, a, outcome, pick);
    MoveRefunds(t.ledger, moves, i);
  }

  // ------------------------------------------------------------------- induction

  /** Every step of every request, crash, timeout and operator keeps the invariant. */
  lemma {:induction false} StepKeepsInv(s: State, step: Step)
    requires Inv(s)
    ensures Inv(Next(s, step))
  {
    hide Transactions.Exec, Service.TablesAfter, Service.RequestsAfter, Service.WriterAfter;
    hide Bookkeeping.Books, Protocol.RequestOk, Protocol.RowsBacked, Protocol.ClaimsBacked, Protocol.PendingTogether;
    hide Protocol.RecordsBacked, Protocol.RefundsBacked;
    if Enabled(s, step) {
      StepSpares(s, step);
      RequestsStayOk(s, step);
      RowsStayBacked(s, step);
      ClaimsStayBacked(s, step);
      PendingStaysTogether(s, step);
      RecordsStayBacked(s, step);
      RefundsStayBacked(s, step);
    }
  }

  lemma {:induction false} InitialInv()
    ensures Inv(Initial)
  {
  }

  lemma {:induction false} RunKeepsInv(s: State, steps: seq<Step>)
    requires Inv(s)
    ensures Inv(Run(s, steps))
    decreases |steps|
  {
    hide Protocol.Inv;
    if steps != [] {
      RunKeepsInv(s, steps[..|steps| - 1]);
      StepKeepsInv(Run(s, steps[..|steps| - 1]), steps[|steps| - 1]);
    }
  }

  /** The invariant holds in every reachable state. */
  lemma {:induction false} ReachableInv(steps: seq<Step>)
    ensures Inv(Run(Initial, steps))
  {
    InitialInv();
    RunKeepsInv(Initial, steps);
  }
}
