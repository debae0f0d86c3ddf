/** Every send, spend and LinkedIn counter equals the unrefunded charges that point at it. */
module Conservation {
  import opened Wrappers
  import opened Sums
  import opened Schema
  import opened Ledgers
  import opened Transactions

  /** What one charge row still counts in window `w`: spend when `money`, else quantity. */
  function ChargeOwed(project: Name, account: Name, w: Window, money: bool): Charge -> int {
    (c: Charge) =>
      if c.refunded || WindowOf(project, account, c.target) != w then 0 else if money then c.spend else c.quantity
  }

  function OwedBy(r: Reservation, w: Window, money: bool): int {
    Sum(r.charges, ChargeOwed(r.project, r.id.account, w, money))
  }

  function Owed(w: Window, money: bool): Reservation -> int {
    (r: Reservation) => OwedBy(r, w, money)
  }

  /** The stored counter; a missing row counts nothing. */
  function Amount(counters: map<Window, Counter>, w: Window, money: bool): int {
    if w !in counters then 0 else if money then counters[w].spend else counters[w].count
  }

  ghost predicate Conserved(l: Ledger) {
    forall w: Window, money: bool :: Amount(l.counters, w, money) == Sum(l.reservations, Owed(w, money))
  }

  lemma {:induction false} OwedNonnegative(r: Reservation, w: Window, money: bool)
    ensures 0 <= OwedBy(r, w, money)
  {
    SumAtLeast(r.charges, ChargeOwed(r.project, r.id.account, w, money));
  }

  lemma {:induction false} OwedBounded(rows: seq<Reservation>, q: nat, w: Window, money: bool)
    requires q < |rows|
    ensures 0 <= OwedBy(rows[q], w, money) <= Sum(rows, Owed(w, money))
  {
    forall i | 0 <= i < |rows| ensures 0 <= Owed(w, money)(rows[i]) {
      OwedNonnegative(rows[i], w, money);
    }
    SumAtLeast(rows, Owed(w, money));
    assert Owed(w, money)(rows[q]) == OwedBy(rows[q], w, money);
  }

  /** Rows whose charges did not change owe what they owed. */
  lemma {:induction false} SameChargesSameOwed(rows: seq<Reservation>, rows': seq<Reservation>, w: Window, money: bool)
    requires |rows| == |rows'|
    requires forall i :: 0 <= i < |rows| ==>
      rows'[i].charges == rows[i].charges && rows'[i].project == rows[i].project && rows'[i].id == rows[i].id
    ensures Sum(rows', Owed(w, money)) == Sum(rows, Owed(w, money))
  {
    SumSame(rows', Owed(w, money), rows, Owed(w, money));
  }

  /** A conserved ledger stays conserved when no counter and no charge row changes. */
  lemma {:induction false} SameChargesConserved(l: Ledger, l': Ledger)
    requires Conserved(l)
    requires l'.counters == l.counters && |l'.reservations| == |l.reservations|
    requires forall i :: 0 <= i < |l.reservations| ==>
      && l'.reservations[i].charges == l.reservations[i].charges
      && l'.reservations[i].project == l.reservations[i].project
      && l'.reservations[i].id == l.reservations[i].id
    ensures Conserved(l')
  {
    forall w: Window, money: bool ensures Amount(l'.counters, w, money) == Sum(l'.reservations, Owed(w, money)) {
      SameChargesSameOwed(l.reservations, l'.reservations, w, money);
    }
  }

  // --------------------------------------------------------------- refunds

  /** What the charge rows from `i` on still owe. */
  function OwedFrom(r: Reservation, i: nat, w: Window, money: bool): int
    requires i <= |r.charges|
  {
    Sum(r.charges[i..], ChargeOwed(r.project, r.id.account, w, money))
  }

  lemma {:induction false} OwedFromStep(r: Reservation, i: nat, w: Window, money: bool)
    requires i < |r.charges|
    ensures OwedFrom(r, i, w, money)
         == ChargeOwed(r.project, r.id.account, w, money)(r.charges[i]) + OwedFrom(r, i + 1, w, money)
    ensures 0 <= OwedFrom(r, i + 1, w, money)
  {
    var f := ChargeOwed(r.project, r.id.account, w, money);
    assert r.charges[i..] == [r.charges[i]] + r.charges[i + 1..];
    SumConcat([r.charges[i]], r.charges[i + 1..], f);
    assert [r.charges[i]][..0] == [];
    SumAtLeast(r.charges[i + 1..], f);
  }

  /** When the counters hold at least what a reservation owes, the refund loop finds every counter row,
      never clamps, and takes off exactly what was owed. */
  lemma {:induction false} RefundLoopExact(counters: map<Window, Counter>, r: Reservation, i: nat)
    requires i <= |r.charges|
    requires forall w: Window, money: bool :: OwedFrom(r, i, w, money) <= Amount(counters, w, money)
    ensures RefundCounters(counters, r, i).Some?
    ensures forall w: Window, money: bool ::
      Amount(RefundCounters(counters, r, i).value, w, money) == Amount(counters, w, money) - OwedFrom(r, i, w, money)
    decreases |r.charges| - i
  {
    if i == |r.charges| {
      assert r.charges[i..] == [];
    } else {
      var c := r.charges[i];
      var w0 := WindowOf(r.project, r.id.account, c.target);
      forall w: Window, money: bool
        ensures OwedFrom(r, i, w, money)
             == ChargeOwed(r.project, r.id.account, w, money)(c) + OwedFrom(r, i + 1, w, money)
             && 0 <= OwedFrom(r, i + 1, w, money)
      {
        OwedFromStep(r, i, w, money);
      }
      if c.refunded {
        RefundLoopExact(counters, r, i + 1);
      } else {
        assert OwedFrom(r, i, w0, false) <= Amount(counters, w0, false);
        assert OwedFrom(r, i, w0, true) <= Amount(counters, w0, true);
        var updated := RefundCounter(counters, w0, c.quantity, c.spend).value;
        forall w: Window, money: bool
          ensures Amount(updated, w, money)
               == Amount(counters, w, money) - ChargeOwed(r.project, r.id.account, w, money)(c)
        {
        }
        forall w: Window, money: bool ensures OwedFrom(r, i + 1, w, money) <= Amount(updated, w, money) {
          assert OwedFrom(r, i, w, money) <= Amount(counters, w, money);
        }
        RefundLoopExact(updated, r, i + 1);
      }
    }
  }

  /** In a conserved ledger a refund always succeeds and conserves: no counter row is missing and none clamps. */
  lemma {:induction false} RefundConserves(l: Ledger, q: nat)
    requires Conserved(l) && q < |l.reservations|
    ensures var after := RefundAndRelease(l, l.reservations[q].project, q);
      && after.Some?
      && Conserved(after.value)
      && forall w: Window, money: bool ::
           Amount(after.value.counters, w, money) == Amount(l.counters, w, money) - OwedBy(l.reservations[q], w, money)
  {
    var r := l.reservations[q];
    assert r.charges[0..] == r.charges;
    forall w: Window, money: bool ensures OwedFrom(r, 0, w, money) <= Amount(l.counters, w, money) {
      OwedBounded(l.reservations, q, w, money);
    }
    RefundLoopExact(l.counters, r, 0);
    var l' := RefundAndRelease(l, r.project, q).value;
    var r' := l'.reservations[q];
    forall w: Window, money: bool ensures Amount(l'.counters, w, money) == Sum(l'.reservations, Owed(w, money)) {
      SumZero(r'.charges, ChargeOwed(r'.project, r'.id.account, w, money));
      SumUpdate(l.reservations, q, r', Owed(w, money));
    }
  }

  // ------------------------------------------------------------- admission

  /** Claiming windows adds to each counter exactly the charges it lists. */
  lemma {:induction false} ClaimWindowsExact(
    counters: map<Window, Counter>, project: Name, account: Name, actionClass: Name, limits: seq<Limit>, n: nat)
    requires n <= |limits|
    ensures var claimed := ClaimWindows(counters, project, account, actionClass, limits, n);
      claimed.Ok? ==> forall w: Window, money: bool ::
        Amount(claimed.value.0, w, money)
        == Amount(counters, w, money) + Sum(claimed.value.1, ChargeOwed(project, account, w, money))
    decreases n
  {
    if n > 0 {
      ClaimWindowsExact(counters, project, account, actionClass, limits, n - 1);
      var before := ClaimWindows(counters, project, account, actionClass, limits, n - 1);
      var after := ClaimWindows(counters, project, account, actionClass, limits, n);
      if after.Ok? && limits[n - 1].cap > 0 {
        var charge := Charge(LinkedInSlot(actionClass, limits[n - 1].kind, limits[n - 1].slot), 1, 0, false);
        forall w: Window, money: bool
          ensures Amount(after.value.0, w, money)
               == Amount(counters, w, money) + Sum(after.value.1, ChargeOwed(project, account, w, money))
        {
          SumAppend(before.value.1, charge, ChargeOwed(project, account, w, money));
        }
      }
    }
  }

  /** An admission adds to each counter exactly the charge rows it inserts, none of them refunded. */
  lemma {:induction false} ClaimCountersExact(t: Tables, a: Attempt, readOnly: bool, p: Policy, now: Instant)
    requires ClaimCounters(t, a, readOnly, p, now).Ok?
    ensures var (counters, charges) := ClaimCounters(t, a, readOnly, p, now).value;
      && (forall w: Window, money: bool ::
            Amount(counters, w, money)
            == Amount(t.ledger.counters, w, money) + Sum(charges, ChargeOwed(a.project, a.id.account, w, money)))
      && forall i :: 0 <= i < |charges| ==> !charges[i].refunded
  {
    hide Transactions.ClaimPlan, Sums.Sum;
    ClaimPlanExact(t, a, p.routing, now);
    var (planned, rows) := ClaimPlan(t, a, p.routing, now).value;
    if !readOnly {
      var charge := Charge(SendDay(now.day), 1, p.cost, false);
      forall w: Window, money: bool
        ensures var (counters, charges) := ClaimCounters(t, a, readOnly, p, now).value;
          Amount(counters, w, money)
          == Amount(t.ledger.counters, w, money) + Sum(charges, ChargeOwed(a.project, a.id.account, w, money))
      {
        SumAppend(rows, charge, ChargeOwed(a.project, a.id.account, w, money));
      }
    }
  }

  lemma {:induction false} ClaimPlanExact(t: Tables, a: Attempt, routing: Routing, now: Instant)
    requires ClaimPlan(t, a, routing, now).Ok?
    ensures var (counters, charges) := ClaimPlan(t, a, routing, now).value;
      && (forall w: Window, money: bool ::
            Amount(counters, w, money)
            == Amount(t.ledger.counters, w, money) + Sum(charges, ChargeOwed(a.project, a.id.account, w, money)))
      && forall i :: 0 <= i < |charges| ==> !charges[i].refunded
  {
    if routing.Paced? {
      hide Transactions.ClaimWindows, Sums.Sum, Amount;
      var plan := routing.plan;
      ClaimWindowsExact(t.ledger.counters, a.project, a.id.account, plan.actionClass, plan.limits, |plan.limits|);
      ClaimWindowsUnrefunded(t.ledger.counters, a.project, a.id.account, plan.actionClass, plan.limits, |plan.limits|);
    }
  }

  lemma {:induction false} ClaimWindowsUnrefunded(
    counters: map<Window, Counter>, project: Name, account: Name, actionClass: Name, limits: seq<Limit>, n: nat)
    requires n <= |limits|
    ensures var claimed := ClaimWindows(counters, project, account, actionClass, limits, n);
      claimed.Ok? ==> forall i :: 0 <= i < |claimed.value.1| ==> !claimed.value.1[i].refunded
    decreases n
  {
    if n > 0 {
      ClaimWindowsUnrefunded(counters, project, account, actionClass, limits, n - 1);
    }
  }
}
