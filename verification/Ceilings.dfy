/** LinkedIn ceilings over whole runs: no window ever counts more than the largest limit it is ever given. */
module Ceilings {
  import opened Wrappers
  import opened Sums
  import opened Schema
  import opened Ledgers
  import opened Transactions
  import opened Conservation
  import opened Bookkeeping
  import opened Accounting
  import opened Admissions
  import opened Service
  import opened Protocol
  import opened Preservation

  /** A ceiling of zero or less constrains nothing. */
  ghost predicate WithinCeilings(counters: map<Window, Counter>, project: Name, ceiling: Window -> int) {
    forall w: Window :: w.LinkedInWindow? && w.project == project && ceiling(w) > 0 ==> Amount(counters, w, false) <= ceiling(w)
  }

  /** No limit of the plan exceeds its window's ceiling. */
  predicate PlanUnder(project: Name, account: Name, plan: LinkedInPlan, ceiling: Window -> int) {
    forall i :: 0 <= i < |plan.limits| ==>
      var w := WindowAt(project, account, plan.actionClass, plan.limits[i]);
      ceiling(w) > 0 ==> plan.limits[i].cap <= ceiling(w)
  }

  predicate CeilingsUnder(c: Call, project: Name, ceiling: Window -> int) {
    c.ReserveCall? && c.a.project == project && c.policy.routing.Paced? ==>
      PlanUnder(project, c.a.id.account, c.policy.routing.plan, ceiling)
  }

  lemma {:induction false} WindowsKeepCeilings(
    counters: map<Window, Counter>, project: Name, account: Name, plan: LinkedInPlan, n: nat, p: Name, ceiling: Window -> int)
    requires n <= |plan.limits| && WithinCeilings(counters, p, ceiling)
    requires project == p ==> PlanUnder(project, account, plan, ceiling)
    ensures var claimed := ClaimWindows(counters, project, account, plan.actionClass, plan.limits, n);
            claimed.Ok? ==> WithinCeilings(claimed.value.0, p, ceiling)
    decreases n
  {
    if n > 0 {
      WindowsKeepCeilings(counters, project, account, plan, n - 1, p, ceiling);
    }
  }

  lemma {:induction false} ClaimKeepsCeilings(t: Tables, a: Attempt, readOnly: bool, p: Policy, now: Instant, project: Name, ceiling: Window -> int)
    requires WithinCeilings(t.ledger.counters, project, ceiling)
    requires a.project == project && p.routing.Paced? ==> PlanUnder(project, a.id.account, p.routing.plan, ceiling)
    requires ClaimCounters(t, a, readOnly, p, now).Ok?
    ensures WithinCeilings(ClaimCounters(t, a, readOnly, p, now).value.0, project, ceiling)
  {
    if p.routing.Paced? {
      var plan := p.routing.plan;
      WindowsKeepCeilings(t.ledger.counters, a.project, a.id.account, plan, |plan.limits|, project, ceiling);
    }
    hide Transactions.ClaimWindows, PlanUnder;
    var planned := ClaimPlan(t, a, p.routing, now).value.0;
    var counters := ClaimCounters(t, a, readOnly, p, now).value.0;
    assert forall w: Window :: w.LinkedInWindow? ==> Amount(counters, w, false) == Amount(planned, w, false);
  }

  lemma {:induction false} QuietKeepsCeilings(l: Ledger, moves: seq<Move>, project: Name, ceiling: Window -> int)
    requires Conserved(l) && LegalAll(l, moves) && WithinCeilings(l.counters, project, ceiling)
    requires forall i :: 0 <= i < |moves| ==> !moves[i].Insert?
    ensures WithinCeilings(PlayAll(l, moves).counters, project, ceiling)
  {
    forall w: Window, money: bool ensures Amount(PlayAll(l, moves).counters, w, money) <= Amount(l.counters, w, money) {
      PlayAllRaisesNothing(l, moves, w, money);
    }
  }

  lemma {:induction false} ExecKeepsCeilings(t: Tables, c: Call, project: Name, ceiling: Window -> int)
    requires Books(t.ledger) && Owned(t.ledger, c) && Executable(t, c)
    requires CeilingsUnder(c, project, ceiling) && WithinCeilings(t.ledger.counters, project, ceiling)
    ensures WithinCeilings(Exec(t, c).0.ledger.counters, project, ceiling)
  {
    hide WithinCeilings, PlanUnder;
    if c.ReserveCall? {
      var moves, swept := ReserveMoves(t, c.a, c.readOnly, c.policy, c.now);
      QuietKeepsCeilings(t.ledger, moves, project, ceiling);
      if Reserve(t, c.a, c.readOnly, c.policy, c.now).1.Reserved? {
        ClaimKeepsCeilings(t.(ledger := swept), c.a, c.readOnly, c.policy, c.now, project, ceiling);
      }
    } else if c.ReconcileCall? {
      var moves := ReconcileMoves(t, c.cmd, c.now);
      QuietKeepsCeilings(t.ledger, moves, project, ceiling);
    } else {
      var moves := RequestMoves(t, c);
      QuietKeepsCeilings(t.ledger, moves, project, ceiling);
    }
  }

  ghost predicate CeiledStep(s: State, step: Step, project: Name, ceiling: Window -> int) {
    Enabled(s, step) && CallIn(s, step).Some? ==> CeilingsUnder(CallIn(s, step).value, project, ceiling)
  }

  ghost predicate CeiledRun(s: State, steps: seq<Step>, project: Name, ceiling: Window -> int) {
    forall n :: 0 <= n < |steps| ==> CeiledStep(Run(s, steps[..n]), steps[n], project, ceiling)
  }

  lemma {:induction false} StepKeepsCeilings(s: State, step: Step, project: Name, ceiling: Window -> int)
    requires Inv(s) && WithinCeilings(s.tables.ledger.counters, project, ceiling)
    requires CeiledStep(s, step, project, ceiling)
    ensures WithinCeilings(Next(s, step).tables.ledger.counters, project, ceiling)
  {
    hide Transactions.Exec, WithinCeilings, Bookkeeping.Books, Accounting.Owned, CeilingsUnder;
    if Enabled(s, step) && CallIn(s, step).Some? {
      CallIsOwned(s, step);
      ExecKeepsCeilings(s.tables, CallIn(s, step).value, project, ceiling);
    }
  }

  /** In every run whose plans stay under the ceilings, every LinkedIn window does. */
  lemma {:induction false} CeilingsHold(steps: seq<Step>, project: Name, ceiling: Window -> int)
    requires CeiledRun(Initial, steps, project, ceiling)
    ensures WithinCeilings(Run(Initial, steps).tables.ledger.counters, project, ceiling)
    decreases |steps|
  {
    hide Protocol.Inv, CeiledStep;
    if steps != [] {
      var front := steps[..|steps| - 1];
      forall n | 0 <= n < |front| ensures CeiledStep(Run(Initial, front[..n]), front[n], project, ceiling) {
        assert front[..n] == steps[..n];
      }
      CeilingsHold(front, project, ceiling);
      ReachableInv(front);
      StepKeepsCeilings(Run(Initial, front), steps[|steps| - 1], project, ceiling);
    }
  }
}
