/** What the protocol promises, for every run: any interleaving of requests, crashes, lost replies,
    deadlines, lease takeovers and operator commands, starting from empty tables. */
module Guarantees {
  import opened Wrappers
  import opened Sums
  import opened Schema
  import opened Ledgers
  import opened Evidence
  import opened Transactions
  import opened Conservation
  import opened Bookkeeping
  import opened Accounting
  import opened Isolation
  import opened Service
  import opened Protocol
  import opened Preservation

  // --------------------------------------------------------------- at most once

  /** The request is a keyed mutation that entered the runner, and neither the runner
      nor an operator proved that nothing was dispatched. */
  ghost predicate MayHaveActed(s: State, r: Name) {
    r in s.requests && s.requests[r].a.key.Some? && !s.requests[r].readOnly && !Proven(s.tables, r)
    && exists i :: 0 <= i < |s.requests[r].log| && s.requests[r].log[i] != Refused(NotDispatched)
  }

  /** Such a request holds its dispatched claim or wrote the completed record of its key. */
  lemma {:induction false} ActorHoldsKey(s: State, r: Name)
    requires Inv(s) && MayHaveActed(s, r)
    ensures var k := KeyOf(s.requests[r].a); HoldsDispatched(s.tables, k, r) || (k in s.writer && s.writer[k] == r)
  {
    assert RequestOk(s.tables, s.writer, r, s.requests[r]);
    NotDispatchedIff(s.requests[r].log);
  }

  /** At most once: in every run, one project and key have at most one request that may have acted,
      and that request entered the runner at most once. */
  lemma {:induction false} AtMostOnce(steps: seq<Step>, r1: Name, r2: Name)
    requires var s := Run(Initial, steps);
      MayHaveActed(s, r1) && MayHaveActed(s, r2) && KeyOf(s.requests[r1].a) == KeyOf(s.requests[r2].a)
    ensures r1 == r2
    ensures |Run(Initial, steps).requests[r1].log| == 1
  {
    var s := Run(Initial, steps);
    ReachableInv(steps);
    ActorHoldsKey(s, r1);
    ActorHoldsKey(s, r2);
    assert RequestOk(s.tables, s.writer, r1, s.requests[r1]);
  }

  // ---------------------------------------------------------------- cache

  /** Claims and records never share a key, and a cached reply repeats the output some earlier request
      with the same connection, action and input hash got from its runner. */
  lemma {:induction false} CacheSound(steps: seq<Step>)
    ensures var s := Run(Initial, steps);
      && (forall k :: k in s.tables.claims ==> k !in s.tables.records)
      && forall r :: r in s.requests && s.requests[r].cached.Some? ==>
           s.requests[r].a.key.Some? &&
           var k := KeyOf(s.requests[r].a);
           && k in s.writer && s.writer[k] in s.requests
           && var w := s.requests[s.writer[k]];
              && w.a.project == k.project && w.a.key == Some(k.text)
              && w.a.id.connection == s.requests[r].a.id.connection
              && w.a.id.action == s.requests[r].a.id.action && w.a.id.hash == s.requests[r].a.id.hash
              && w.log != [] && w.log[|w.log| - 1] == Answered(s.requests[r].cached.value)
  {
    ReachableInv(steps);
    var s := Run(Initial, steps);
    forall r | r in s.requests && s.requests[r].cached.Some? ensures RequestOk(s.tables, s.writer, r, s.requests[r]) {}
  }

  lemma {:induction false} StepKeepsHistory(s: State, step: Step)
    requires Inv(s)
    ensures HistoryKept(s.tables, Next(s, step).tables)
  {
    hide Transactions.Exec, Service.TablesAfter, Protocol.Inv;
    if Enabled(s, step) {
      StepSpares(s, step);
    }
  }

  /** Records never change and audits are never removed, however the run goes on. */
  lemma {:induction false} HistoryIsPermanent(steps: seq<Step>, more: seq<Step>)
    ensures HistoryKept(Run(Initial, steps).tables, Run(Run(Initial, steps), more).tables)
    decreases |more|
  {
    hide Protocol.Inv;
    if more != [] {
      var front := more[..|more| - 1];
      HistoryIsPermanent(steps, front);
      ReachableInv(steps);
      RunKeepsInv(Run(Initial, steps), front);
      StepKeepsHistory(Run(Run(Initial, steps), front), more[|more| - 1]);
    }
  }

  // -------------------------------------------------------------- tombstones

  lemma {:induction false} TombstoneStays(t: Tables, t': Tables, k: Key)
    requires HistoryKept(t, t') && Tombstoned(t, k)
    ensures Tombstoned(t', k)
  {
    var i :| 0 <= i < |t.audits| && TerminalFor(t.audits[i], k);
    assert t'.audits[i] == t.audits[i];
  }

  /** Once an operator recorded the provider's outcome for a key, no later acquire of that key is ever
      granted and no later reconciliation of it succeeds. */
  lemma {:induction false} TombstonePermanent(steps: seq<Step>, more: seq<Step>, k: Key, a: Attempt, disabled: bool, now: Instant, cmd: Command)
    requires Tombstoned(Run(Initial, steps).tables, k)
    requires a.key.Some? && KeyOf(a) == k && cmd.key == k
    ensures var t := Run(Run(Initial, steps), more).tables;
      && Acquire(t, a, disabled, now).1 != Acquired && Acquire(t, a, disabled, now).0 == t
      && Reconcile(t, cmd, now).1.Failed? && Reconcile(t, cmd, now).0 == t
  {
    HistoryIsPermanent(steps, more);
    TombstoneStays(Run(Initial, steps).tables, Run(Run(Initial, steps), more).tables, k);
  }

  // ----------------------------------------------------------------- refunds

  /** A charge is refunded only when its reservation is released and its request proved nondispatch in every
      runner attempt (or made none), or an operator proved it. */
  lemma {:induction false} RefundSound(steps: seq<Step>, q: nat, j: nat)
    requires var rows := Run(Initial, steps).tables.ledger.reservations;
      q < |rows| && j < |rows[q].charges| && rows[q].charges[j].refunded
    ensures var s := Run(Initial, steps);
      var row := s.tables.ledger.reservations[q];
      && row.phase == Released && row.creator in s.requests
      && (|| Proven(s.tables, row.creator)
          || forall i :: 0 <= i < |s.requests[row.creator].log| ==>
               s.requests[row.creator].log[i] == Refused(NotDispatched))
  {
    ReachableInv(steps);
    var s := Run(Initial, steps);
    var row := s.tables.ledger.reservations[q];
    assert HasRefund(row);
    assert RequestOk(s.tables, s.writer, row.creator, s.requests[row.creator]);
    NotDispatchedIff(s.requests[row.creator].log);
  }

  lemma {:induction false} StepGrowsLedger(s: State, step: Step)
    requires Inv(s)
    ensures LedgerGrows(s.tables.ledger, Next(s, step).tables.ledger)
  {
    hide Transactions.Exec, Service.TablesAfter, Protocol.Inv;
    NothingHappens(s.tables, 0);
    if Enabled(s, step) {
      StepSpares(s, step);
    }
  }

  /** Settled and released are final, refunds are never taken back, and a settled reservation is never refunded. */
  lemma {:induction false} PhasesAreFinal(steps: seq<Step>, more: seq<Step>)
    ensures LedgerGrows(Run(Initial, steps).tables.ledger, Run(Run(Initial, steps), more).tables.ledger)
    decreases |more|
  {
    hide Protocol.Inv, Bookkeeping.LedgerGrows;
    var s := Run(Initial, steps);
    NothingHappens(s.tables, 0);
    if more != [] {
      var front := more[..|more| - 1];
      PhasesAreFinal(steps, front);
      ReachableInv(steps);
      RunKeepsInv(s, front);
      StepGrowsLedger(Run(s, front), more[|more| - 1]);
      GrowsTransitive(s.tables.ledger, Run(s, front).tables.ledger, Run(s, more).tables.ledger);
    }
  }

  // ---------------------------------------------------------------- counters

  /** In every run every counter equals the unrefunded charges that point at it; so no counter is negative,
      and refunding any reservation finds every counter row and takes off exactly what is owed, never clamping. */
  lemma {:induction false} CountersConserved(steps: seq<Step>)
    ensures var l := Run(Initial, steps).tables.ledger;
      && Conserved(l)
      && (forall w: Window, money: bool :: 0 <= Amount(l.counters, w, money))
      && forall q :: 0 <= q < |l.reservations| ==>
           var after := RefundAndRelease(l, l.reservations[q].project, q);
           && after.Some?
           && forall w: Window, money: bool ::
                Amount(after.value.counters, w, money) == Amount(l.counters, w, money) - OwedBy(l.reservations[q], w, money)
  {
    ReachableInv(steps);
    var l := Run(Initial, steps).tables.ledger;
    forall w: Window, money: bool ensures 0 <= Amount(l.counters, w, money) {
      forall i | 0 <= i < |l.reservations| ensures 0 <= Owed(w, money)(l.reservations[i]) {
        OwedNonnegative(l.reservations[i], w, money);
      }
      SumAtLeast(l.reservations, Owed(w, money));
    }
    forall q | 0 <= q < |l.reservations|
      ensures var after := RefundAndRelease(l, l.reservations[q].project, q);
        && after.Some?
        && forall w: Window, money: bool ::
             Amount(after.value.counters, w, money) == Amount(l.counters, w, money) - OwedBy(l.reservations[q], w, money)
    {
      RefundConserves(l, q);
    }
  }

  // ------------------------------------------------------------------- usage

  /** The step is an operator command that writes usage without settling a reservation. */
  predicate OverchargingStep(s: State, step: Step) {
    Enabled(s, step) && CallIn(s, step).Some? && Overcharges(s.tables, CallIn(s, step).value)
  }

  /** No step of the run is such a command. */
  predicate FairRun(s: State, steps: seq<Step>) {
    forall n :: 0 <= n < |steps| ==> !OverchargingStep(Run(s, steps[..n]), steps[n])
  }

  lemma {:induction false} FairFront(s: State, steps: seq<Step>)
    requires FairRun(s, steps) && steps != []
    ensures FairRun(s, steps[..|steps| - 1])
    ensures !OverchargingStep(Run(s, steps[..|steps| - 1]), steps[|steps| - 1])
  {
    var front := steps[..|steps| - 1];
    forall n | 0 <= n < |front| ensures !OverchargingStep(Run(s, front[..n]), front[n]) {
      assert front[..n] == steps[..n];
    }
  }

  /** A step keeps usage exact if and only if it is not an overcharging operator command. */
  lemma {:induction false} StepKeepsUsageIff(s: State, step: Step)
    requires Inv(s) && UsageExact(s.tables.ledger)
    ensures UsageExact(Next(s, step).tables.ledger) <==> !OverchargingStep(s, step)
  {
    hide Transactions.Exec, Bookkeeping.UsageExact, Bookkeeping.Books, Accounting.Owned, Accounting.Overcharges;
    if Enabled(s, step) && CallIn(s, step).Some? {
      CallIsOwned(s, step);
      ExecKeepsUsageIff(s.tables, CallIn(s, step).value);
      RollbackIsFair(s, step);
    }
  }

  lemma {:induction false} RollbackIsFair(s: State, step: Step)
    requires Enabled(s, step) && CallIn(s, step).Some?
    ensures Overcharges(s.tables, CallIn(s, step).value) ==> step.Operate?
  {
  }

  /** Usage exactly once: without overcharging operator commands, a reservation is settled if and only if
      exactly one usage event was written for it, and every monthly rollup counts its events. */
  lemma {:induction false} UsageOnce(steps: seq<Step>)
    requires FairRun(Initial, steps)
    ensures UsageExact(Run(Initial, steps).tables.ledger)
    decreases |steps|
  {
    hide Protocol.Inv, Bookkeeping.UsageExact, OverchargingStep;
    if steps == [] {
      EmptyUsage();
    } else {
      FairFront(Initial, steps);
      UsageOnce(steps[..|steps| - 1]);
      ReachableInv(steps[..|steps| - 1]);
      StepKeepsUsageIff(Run(Initial, steps[..|steps| - 1]), steps[|steps| - 1]);
    }
  }

  /** Usage is exact at every moment of a run if and only if no step overcharges. */
  lemma {:induction false} UsageOnceIff(steps: seq<Step>)
    ensures FairRun(Initial, steps) <==>
      forall n :: 0 <= n <= |steps| ==> UsageExact(Run(Initial, steps[..n]).tables.ledger)
  {
    hide Protocol.Inv, Service.Next, OverchargingStep, Bookkeeping.UsageExact;
    if FairRun(Initial, steps) {
      forall n | 0 <= n <= |steps| ensures UsageExact(Run(Initial, steps[..n]).tables.ledger) {
        var front := steps[..n];
        assert forall i :: 0 <= i < n ==> front[..i] == steps[..i] && front[i] == steps[i];
        UsageOnce(front);
      }
    }
    if forall n :: 0 <= n <= |steps| ==> UsageExact(Run(Initial, steps[..n]).tables.ledger) {
      forall n | 0 <= n < |steps| ensures !OverchargingStep(Run(Initial, steps[..n]), steps[n]) {
        RunNext(Initial, steps, n);
        ReachableInv(steps[..n]);
        StepKeepsUsageIff(Run(Initial, steps[..n]), steps[n]);
      }
    }
  }

  lemma {:induction false} EmptyUsage()
    ensures UsageExact(EmptyLedger)
  {
  }

  // ------------------------------------------------------------------- quota

  /** Every admission of `project` in the run uses the hard limit `hard`. */
  predicate LimitedRun(s: State, steps: seq<Step>, project: Name, hard: nat) {
    forall n :: 0 <= n < |steps| ==> LimitedStep(Run(s, steps[..n]), steps[n], project, hard)
  }

  predicate LimitedStep(s: State, step: Step, project: Name, hard: nat) {
    Enabled(s, step) && CallIn(s, step).Some? ==> AdmitsUnder(CallIn(s, step).value, project, hard)
  }

  lemma {:induction false} LimitedFront(s: State, steps: seq<Step>, project: Name, hard: nat)
    requires LimitedRun(s, steps, project, hard) && steps != []
    ensures LimitedRun(s, steps[..|steps| - 1], project, hard)
    ensures LimitedStep(Run(s, steps[..|steps| - 1]), steps[|steps| - 1], project, hard)
  {
    var front := steps[..|steps| - 1];
    forall n | 0 <= n < |front| ensures LimitedStep(Run(s, front[..n]), front[n], project, hard) {
      assert front[..n] == steps[..n];
    }
  }

  /** The step is an overcharging operator command on a month of `project` that is used up. */
  predicate QuotaBreakingStep(s: State, step: Step, project: Name, hard: nat) {
    Enabled(s, step) && CallIn(s, step).Some? && BreaksQuota(s.tables, CallIn(s, step).value, project, hard)
  }

  /** A step under the constant limit passes it if and only if it is such a command. */
  lemma {:induction false} StepKeepsQuotaIff(s: State, step: Step, project: Name, hard: nat)
    requires Inv(s) && WithinQuota(s.tables.ledger, project, hard) && hard > 0
    requires LimitedStep(s, step, project, hard)
    ensures WithinQuota(Next(s, step).tables.ledger, project, hard) <==> !QuotaBreakingStep(s, step, project, hard)
  {
    hide Transactions.Exec, Accounting.WithinQuota, Bookkeeping.Books, Accounting.Owned, Accounting.Overcharges, Accounting.AdmitsUnder;
    if Enabled(s, step) && CallIn(s, step).Some? {
      CallIsOwned(s, step);
      ExecKeepsQuotaIff(s.tables, CallIn(s, step).value, project, hard);
      RollbackIsFair(s, step);
    }
  }

  /** No step of the run is such a command for this project and limit. */
  predicate QuotaRun(s: State, steps: seq<Step>, project: Name, hard: nat) {
    forall n :: 0 <= n < |steps| ==> !QuotaBreakingStep(Run(s, steps[..n]), steps[n], project, hard)
  }

  lemma {:induction false} QuotaFront(s: State, steps: seq<Step>, project: Name, hard: nat)
    requires QuotaRun(s, steps, project, hard) && steps != []
    ensures QuotaRun(s, steps[..|steps| - 1], project, hard)
    ensures !QuotaBreakingStep(Run(s, steps[..|steps| - 1]), steps[|steps| - 1], project, hard)
  {
    var front := steps[..|steps| - 1];
    forall n | 0 <= n < |front| ensures !QuotaBreakingStep(Run(s, front[..n]), front[n], project, hard) {
      assert front[..n] == steps[..n];
    }
  }

  /** Hard quota: completed usage plus every pending and dispatched reservation, lapsed or not,
      never exceeds a constant positive hard limit in any month. */
  lemma {:induction false} HardQuota(steps: seq<Step>, project: Name, hard: nat)
    requires hard > 0 && QuotaRun(Initial, steps, project, hard) && LimitedRun(Initial, steps, project, hard)
    ensures forall month: Name :: Committed(Run(Initial, steps).tables.ledger, project, month) <= hard
    decreases |steps|
  {
    hide Protocol.Inv, QuotaBreakingStep, LimitedStep;
    if steps != [] {
      var front := steps[..|steps| - 1];
      QuotaFront(Initial, steps, project, hard);
      LimitedFront(Initial, steps, project, hard);
      HardQuota(front, project, hard);
      ReachableInv(front);
      StepKeepsQuotaIff(Run(Initial, front), steps[|steps| - 1], project, hard);
    }
  }

  /** Under a constant limit, every moment of a run respects it if and only if no step is such a command. */
  lemma {:induction false} HardQuotaIff(steps: seq<Step>, project: Name, hard: nat)
    requires hard > 0 && LimitedRun(Initial, steps, project, hard)
    ensures QuotaRun(Initial, steps, project, hard) <==>
      forall n :: 0 <= n <= |steps| ==> WithinQuota(Run(Initial, steps[..n]).tables.ledger, project, hard)
  {
    hide Protocol.Inv, Service.Next, QuotaBreakingStep, LimitedStep, Bookkeeping.Committed;
    if QuotaRun(Initial, steps, project, hard) {
      forall n | 0 <= n <= |steps| ensures WithinQuota(Run(Initial, steps[..n]).tables.ledger, project, hard) {
        var front := steps[..n];
        assert forall i :: 0 <= i < n ==> front[..i] == steps[..i] && front[i] == steps[i];
        HardQuota(front, project, hard);
      }
    }
    if forall n :: 0 <= n <= |steps| ==> WithinQuota(Run(Initial, steps[..n]).tables.ledger, project, hard) {
      forall n | 0 <= n < |steps| ensures !QuotaBreakingStep(Run(Initial, steps[..n]), steps[n], project, hard) {
        hide Accounting.WithinQuota;
        RunNext(Initial, steps, n);
        ReachableInv(steps[..n]);
        StepKeepsQuotaIff(Run(Initial, steps[..n]), steps[n], project, hard);
      }
    }
  }

  lemma {:induction false} RunNext(s: State, steps: seq<Step>, n: nat)
    requires n < |steps|
    ensures Run(s, steps[..n + 1]) == Next(Run(s, steps[..n]), steps[n])
  {
    assert steps[..n + 1][..n] == steps[..n];
  }

  // -------------------------------------------------------------------- caps

  predicate CappedRun(s: State, steps: seq<Step>, project: Name, sendCap: nat, spendCap: nat) {
    forall n :: 0 <= n < |steps| ==> CappedStep(Run(s, steps[..n]), steps[n], project, sendCap, spendCap)
  }

  predicate CappedStep(s: State, step: Step, project: Name, sendCap: nat, spendCap: nat) {
    Enabled(s, step) && CallIn(s, step).Some? ==> CapsUnder(CallIn(s, step).value, project, sendCap, spendCap)
  }

  lemma {:induction false} StepKeepsCaps(s: State, step: Step, project: Name, sendCap: nat, spendCap: nat)
    requires Inv(s) && WithinCaps(s.tables.ledger.counters, project, sendCap, spendCap)
    requires CappedStep(s, step, project, sendCap, spendCap)
    ensures WithinCaps(Next(s, step).tables.ledger.counters, project, sendCap, spendCap)
  {
    hide Transactions.Exec, Accounting.WithinCaps, Bookkeeping.Books, Accounting.Owned, Accounting.CapsUnder;
    if Enabled(s, step) && CallIn(s, step).Some? {
      CallIsOwned(s, step);
      ExecKeepsCaps(s.tables, CallIn(s, step).value, project, sendCap, spendCap);
    }
  }

  /** With constant caps no day's sends or spend ever pass them, operators included. */
  lemma {:induction false} CapsHold(steps: seq<Step>, project: Name, sendCap: nat, spendCap: nat)
    requires CappedRun(Initial, steps, project, sendCap, spendCap)
    ensures WithinCaps(Run(Initial, steps).tables.ledger.counters, project, sendCap, spendCap)
    decreases |steps|
  {
    hide Protocol.Inv, CappedStep;
    if steps != [] {
      var front := steps[..|steps| - 1];
      forall n | 0 <= n < |front| ensures CappedStep(Run(Initial, front[..n]), front[n], project, sendCap, spendCap) {
        assert front[..n] == steps[..n];
      }
      CapsHold(front, project, sendCap, spendCap);
      ReachableInv(front);
      StepKeepsCaps(Run(Initial, front), steps[|steps| - 1], project, sendCap, spendCap);
    }
  }
}
