/** What a request may count on over whole runs: a live lease protects its claim, and a success is never undone. */
module Durability {
  import opened Wrappers
  import opened Sums
  import opened Schema
  import opened Ledgers
  import opened Evidence
  import opened Transactions
  import opened Conservation
  import opened Bookkeeping
  import opened Accounting
  import opened Isolation
  import opened Effects
  import opened Service
  import opened Protocol
  import opened Preservation
  import opened Guarantees

  // ------------------------------------------------------------------ leases

  /** Another request's transaction leaves a claim alone, unless it is an acquire after the lease. */
  lemma {:induction false} ExecSparesLeased(t: Tables, c: Call, k: Key)
    requires Executable(t, c) && k in t.claims && !c.ReconcileCall? && c.a.request != t.claims[k].owner
    requires c.AcquireCall? ==> c.now.ms < t.claims[k].leasedUntil
    ensures k in Exec(t, c).0.claims && Exec(t, c).0.claims[k] == t.claims[k]
  {
    hide Ledgers.SettleRow, Ledgers.RefundAndRelease, Transactions.SweepMonths, Transactions.QuotaMonths, Transactions.Reconcile;
    hide Transactions.ClaimCounters, Transactions.Projected, Schema.RecordMatches, Schema.Tombstoned;
    if c.AcquireCall? {
      AcquireSparesLeased(t, c, k);
    } else if c.ReserveCall? {
      hide Transactions.Finish, Transactions.Mark, Transactions.Bind, Transactions.FinishReadTimeout;
    } else {
      hide Transactions.Acquire, Transactions.Reserve;
    }
  }

  lemma {:induction false} AcquireSparesLeased(t: Tables, c: Call, k: Key)
    requires c.AcquireCall? && k in t.claims && c.a.request != t.claims[k].owner && c.now.ms < t.claims[k].leasedUntil
    ensures k in Exec(t, c).0.claims && Exec(t, c).0.claims[k] == t.claims[k]
  {
    AcquireLaw(t, c.a, c.disabled, c.now);
    hide Transactions.Acquire;
  }

  /** Reconciling one key leaves the claims of the others alone. */
  lemma {:induction false} ReconcileSparesOthers(t: Tables, cmd: Command, now: Instant, k: Key)
    requires k in t.claims && cmd.key != k
    ensures k in Reconcile(t, cmd, now).0.claims && Reconcile(t, cmd, now).0.claims[k] == t.claims[k]
  {
    hide Transactions.Refusal, Transactions.Resolve;
  }

  /** The step is not the claim owner's, no operator command on its key, and no acquire once its lease is over. */
  predicate LeavesLeased(s: State, step: Step, k: Key, c: Claim) {
    && ((step.Transact? || step.FinalizeTimeout?) && Enabled(s, step) ==> step.request != c.owner)
    && (step.Operate? ==> step.cmd.key != k)
    && (step.Transact? && Enabled(s, step) && CallIn(s, step).value.AcquireCall? ==> step.env.now.ms < c.leasedUntil)
  }

  predicate LeaseRuns(s: State, steps: seq<Step>, k: Key, c: Claim) {
    forall n :: 0 <= n < |steps| ==> LeavesLeased(Run(s, steps[..n]), steps[n], k, c)
  }

  /** A step changes the tables only by committing its transaction. */
  lemma {:induction false} NextTables(s: State, step: Step)
    ensures Next(s, step).tables == s.tables
            || (Enabled(s, step) && CallIn(s, step).Some? && Next(s, step).tables == Exec(s.tables, CallIn(s, step).value).0)
  {
    hide Transactions.Exec;
  }

  lemma {:induction false} StepSparesLeased(s: State, step: Step, k: Key)
    requires Inv(s) && k in s.tables.claims && LeavesLeased(s, step, k, s.tables.claims[k])
    ensures k in Next(s, step).tables.claims && Next(s, step).tables.claims[k] == s.tables.claims[k]
  {
    hide Transactions.Exec, Protocol.Inv, Transactions.Reconcile, Service.Next;
    NextTables(s, step);
    if Enabled(s, step) && CallIn(s, step).Some? {
      if step.Operate? {
        ReconcileSparesOthers(s.tables, step.cmd, step.now, k);
        ReconcileIsExec(s.tables, step.cmd, step.now);
      } else {
        OwnAttempt(s, step.request);
        ExecSparesLeased(s.tables, CallIn(s, step).value, k);
      }
    }
  }

  lemma {:induction false} ReconcileIsExec(t: Tables, cmd: Command, now: Instant)
    ensures Exec(t, ReconcileCall(cmd, now)) == Reconcile(t, cmd, now)
  {
  }

  /** Lease protection: in every run, while its owner rests and its lease lasts, a claim stays exactly as it is,
      and nobody is granted its key. */
  lemma {:induction false} LeaseProtects(steps: seq<Step>, more: seq<Step>, k: Key, a: Attempt, disabled: bool, now: Instant)
    requires k in Run(Initial, steps).tables.claims
    requires LeaseRuns(Run(Initial, steps), more, k, Run(Initial, steps).tables.claims[k])
    ensures var c, t := Run(Initial, steps).tables.claims[k], Run(Run(Initial, steps), more).tables;
      && k in t.claims && t.claims[k] == c
      && (a.key.Some? && KeyOf(a) == k && now.ms < c.leasedUntil ==>
            Acquire(t, a, disabled, now).1 != Acquired && Acquire(t, a, disabled, now).0 == t)
    decreases |more|
  {
    hide Protocol.Inv, LeavesLeased, Service.Next, Transactions.Acquire;
    var s := Run(Initial, steps);
    if more != [] {
      var front := more[..|more| - 1];
      forall n | 0 <= n < |front| ensures LeavesLeased(Run(s, front[..n]), front[n], k, s.tables.claims[k]) {
        assert front[..n] == more[..n];
      }
      LeaseProtects(steps, front, k, a, disabled, now);
      ReachableInv(steps);
      RunKeepsInv(s, front);
      StepSparesLeased(Run(s, front), more[|more| - 1], k);
    }
    AcquireLaw(Run(s, more).tables, a, disabled, now);
  }

  // ----------------------------------------------------------------- success

  /** The step commits a finish with the request's answer. */
  predicate Succeeds(s: State, step: Step) {
    && step.Transact? && step.fault != RolledBack && Enabled(s, step) && s.requests[step.request].pc.FinishingOutput?
    && Exec(s.tables, CallIn(s, step).value).1 == Done
  }

  lemma {:induction false} FinishIsExec(t: Tables, a: Attempt, q: nat, month: Name, output: Option<Name>)
    ensures Exec(t, FinishCall(a, q, month, output)) == Finish(t, a, q, month, output)
  {
  }

  /** A success leaves the reservation settled with one event, the output recorded under the key, and no claim. */
  lemma {:induction false} SuccessSettles(s: State, step: Step)
    requires Inv(s) && UsageExact(s.tables.ledger) && Succeeds(s, step)
    ensures var q, t' := s.requests[step.request], Next(s, step).tables;
      && q.quota.Some? && q.quota.value.id < |t'.ledger.reservations|
      && t'.ledger.reservations[q.quota.value.id].phase == Settled
      && t'.ledger.reservations[q.quota.value.id].creator == step.request
      && Sum(t'.ledger.events, FromReservation(q.quota.value.id)) == 1
      && (q.a.key.Some? ==>
            && KeyOf(q.a) in t'.records && KeyOf(q.a) !in t'.claims
            && (KeyOf(q.a) !in s.tables.records ==>
                  t'.records[KeyOf(q.a)] == Record(q.a.id.connection, q.a.id.action, q.a.id.hash, q.pc.output)))
  {
    hide Transactions.Exec, Transactions.Finish, Bookkeeping.Books, Bookkeeping.UsageExact, Effects.Charged, Accounting.Owned;
    hide Protocol.RowsBacked, Protocol.RefundsBacked, Protocol.RecordsBacked, Protocol.PendingTogether, Protocol.FenceKept;
    var q := s.requests[step.request];
    assert RequestOk(s.tables, s.writer, step.request, q);
    var id, month := q.quota.value.id, q.quota.value.month;
    CallIsOwned(s, step);
    OwnsItsRow(s, step);
    FinishIsExec(s.tables, q.a, id, month, Some(q.pc.output));
    FinishLaw(s.tables, q.a, id, month, q.pc.output);
    StepGrowsLedger(s, step);
    assert RowGrows(s.tables.ledger.reservations[id], Next(s, step).tables.ledger.reservations[id]);
    if q.a.key.Some? && !MayEnd(s.tables, q.a) {
      ClaimsBackedApart(s, KeyOf(q.a));
    }
  }

  lemma {:induction false} OwnsItsRow(s: State, step: Step)
    requires Enabled(s, step) && CallIn(s, step).Some? && CallIn(s, step).value.FinishCall?
    requires Owned(s.tables.ledger, CallIn(s, step).value)
    ensures Owns(s.tables.ledger, CallIn(s, step).value.a, CallIn(s, step).value.q)
  {
  }

  lemma {:induction false} ClaimsBackedApart(s: State, k: Key)
    requires Inv(s)
    ensures k in s.tables.records ==> k !in s.tables.claims
  {
  }

  lemma {:induction false} SucceedsIsTransact(s: State, step: Step)
    requires Succeeds(s, step)
    ensures step.Transact? && step.request in s.requests && s.requests[step.request].pc.FinishingOutput?
  {
  }

  /** ... and so it stays, however the run goes on: the reservation settled, the record unchanged, the key never
      claimed again. */
  lemma {:induction false} SuccessIsDurable(steps: seq<Step>, step: Step, more: seq<Step>)
    requires FairRun(Initial, steps) && Succeeds(Run(Initial, steps), step)
    ensures var s := Run(Initial, steps);
      var q, t := s.requests[step.request], Run(Next(s, step), more).tables;
      && q.quota.Some? && q.quota.value.id < |t.ledger.reservations|
      && t.ledger.reservations[q.quota.value.id].phase == Settled
      && t.ledger.reservations[q.quota.value.id].creator == step.request
      && (q.a.key.Some? ==>
            && KeyOf(q.a) in t.records && KeyOf(q.a) !in t.claims
            && (KeyOf(q.a) !in s.tables.records ==>
                  t.records[KeyOf(q.a)] == Record(q.a.id.connection, q.a.id.action, q.a.id.hash, q.pc.output)))
  {
    hide Protocol.Inv, Service.Next, Succeeds, Bookkeeping.UsageExact, Bookkeeping.Books;
    var s := Run(Initial, steps);
    SucceedsIsTransact(s, step);
    ReachableInv(steps);
    UsageOnce(steps);
    SuccessSettles(s, step);
    var all := steps + [step];
    assert all[..|steps|] == steps;
    assert Run(Initial, all) == Next(s, step);
    PhasesAreFinal(all, more);
    HistoryIsPermanent(all, more);
    var id := s.requests[step.request].quota.value.id;
    assert RowGrows(Next(s, step).tables.ledger.reservations[id], Run(Next(s, step), more).tables.ledger.reservations[id]);
    ReachableInv(all);
    RunKeepsInv(Next(s, step), more);
    if s.requests[step.request].a.key.Some? {
      ClaimsBackedApart(Run(Next(s, step), more), KeyOf(s.requests[step.request].a));
    }
  }
}
