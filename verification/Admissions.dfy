/** What an admission visibly does: which reservations its sweep ends, which windows and caps it respects,
    when it is granted, and what it inserts. */
module Admissions {
  import opened Wrappers
  import opened Sums
  import opened Schema
  import opened Ledgers
  import opened Evidence
  import opened Transactions
  import opened Conservation
  import opened Bookkeeping
  import opened Accounting
  import opened Effects

  // ------------------------------------------------------------------ sweep

  ghost predicate Lapsed(r: Reservation, project: Name, now: Instant) {
    r.project == project && (r.phase == Pending || r.phase == Dispatched) && r.expiresAt <= now.ms
  }

  /** A lapsed pending reservation is released with all charges refunded, a lapsed dispatched one settled with
      its charges kept; every other reservation is left as it was. */
  ghost predicate Swept(r: Reservation, r': Reservation, lapsed: bool) {
    if !lapsed then r' == r
    else if r.phase == Pending then
      && r' == r.(phase := Released, charges := r'.charges) && |r'.charges| == |r.charges|
      && forall j :: 0 <= j < |r.charges| ==> r'.charges[j] == r.charges[j].(refunded := true)
    else r' == r.(phase := Settled)
  }

  ghost predicate ExpiredBelow(rows: seq<Reservation>, rows': seq<Reservation>, project: Name, month: Name, now: Instant, n: nat, phase: Phase) {
    && |rows'| == |rows|
    && forall i :: 0 <= i < |rows| ==>
         Swept(rows[i], rows'[i], i < n && rows[i].month == month && Lapsed(rows[i], project, now) && rows[i].phase == phase)
  }

  lemma {:induction false} ExpireRows(l: Ledger, project: Name, month: Name, now: Instant, n: nat)
    requires n <= |l.reservations|
    ensures var after := ExpirePending(l, project, month, now, n);
            after.Some? ==> ExpiredBelow(l.reservations, after.value.reservations, project, month, now, n, Pending)
                            && after.value.events == l.events
    decreases n
  {
    hide Ledgers.RefundCounters;
    if n > 0 {
      ExpireRows(l, project, month, now, n - 1);
    }
  }

  lemma {:induction false} RecoverRows(l: Ledger, project: Name, month: Name, now: Instant, n: nat)
    requires n <= |l.reservations|
    ensures var after := RecoverDispatched(l, project, month, now, n);
            && ExpiredBelow(l.reservations, after.reservations, project, month, now, n, Dispatched)
            && OnlyRecoveries(l, after)
    decreases n
  {
    hide Ledgers.SettleRow;
    if n > 0 {
      RecoverRows(l, project, month, now, n - 1);
      var before := RecoverDispatched(l, project, month, now, n - 1);
      RecoverOne(before, project, RecoveryMeter(n - 1), l.reservations[n - 1].id.account, n - 1, month);
    }
  }

  lemma {:induction false} RecoverOne(l: Ledger, project: Name, meter: MeterKey, account: Name, q: nat, month: Name)
    requires q < |l.reservations|
    ensures var after := SettleRow(l, project, meter, account, q, month);
            && after.reservations == l.reservations[q := l.reservations[q].(phase := Settled)]
            && (after.events == l.events
                || after.events == l.events + [Event(project, meter, account, l.reservations[q].createdAt, Some(q))])
  {
    hide Ledgers.AddToRollup, Ledgers.Metered;
  }

  /** Every usage event gained is a recovery's. */
  ghost predicate OnlyRecoveries(l: Ledger, l': Ledger) {
    l.events <= l'.events
    && forall i :: |l.events| <= i < |l'.events| ==>
         l'.events[i].source.Some? && l'.events[i].meter == RecoveryMeter(l'.events[i].source.value)
  }

  lemma {:induction false} SweepMonthRows(l: Ledger, project: Name, month: Name, now: Instant)
    ensures var after := SweepMonth(l, project, month, now);
            after.Some? ==>
              && |after.value.reservations| == |l.reservations| && OnlyRecoveries(l, after.value)
              && forall i :: 0 <= i < |l.reservations| ==>
                   Swept(l.reservations[i], after.value.reservations[i],
                         l.reservations[i].month == month && Lapsed(l.reservations[i], project, now))
  {
    hide Transactions.ExpirePending, Transactions.RecoverDispatched;
    ExpireRows(l, project, month, now, |l.reservations|);
    var expired := ExpirePending(l, project, month, now, |l.reservations|);
    if expired.Some? {
      RecoverRows(expired.value, project, month, now, |expired.value.reservations|);
    }
  }

  lemma {:induction false} SweepMonthsRows(l: Ledger, project: Name, months: seq<Name>, now: Instant)
    ensures var after := SweepMonths(l, project, months, now);
            after.Some? ==>
              && |after.value.reservations| == |l.reservations| && OnlyRecoveries(l, after.value)
              && forall i :: 0 <= i < |l.reservations| ==>
                   Swept(l.reservations[i], after.value.reservations[i],
                         l.reservations[i].month in months && Lapsed(l.reservations[i], project, now))
    decreases |months|
  {
    hide Transactions.SweepMonth;
    if months != [] {
      var front, month := months[..|months| - 1], months[|months| - 1];
      SweepMonthsRows(l, project, front, now);
      var before := SweepMonths(l, project, front, now);
      if before.Some? {
        SweepMonthRows(before.value, project, month, now);
        assert forall m :: m in months <==> m in front || m == month;
      }
    }
  }

  /** The sweep before an admission at `now` ends exactly the project's lapsed reservations, in every month. */
  lemma {:induction false} SweepLaw(l: Ledger, project: Name, now: Instant)
    requires Books(l)
    ensures var after := SweepMonths(l, project, QuotaMonths(l.reservations, project, now), now);
            && after.Some? && Books(after.value)
            && |after.value.reservations| == |l.reservations| && OnlyRecoveries(l, after.value)
            && forall i :: 0 <= i < |l.reservations| ==>
                 Swept(l.reservations[i], after.value.reservations[i], Lapsed(l.reservations[i], project, now))
    ensures UsageExact(l) ==> UsageExact(SweepMonths(l, project, QuotaMonths(l.reservations, project, now), now).value)
  {
    hide Bookkeeping.Books, Bookkeeping.UsageExact, Transactions.SweepMonths;
    var months := QuotaMonths(l.reservations, project, now);
    QuotaMonthsExact(l.reservations, project, now);
    SweepMonthsRows(l, project, months, now);
    var moves := AdmissionSweep(l, project, now);
    PlayAllKeepsBooks(l, moves);
    if UsageExact(l) {
      PlayAllKeepsUsage(l, moves);
    }
    forall i | 0 <= i < |l.reservations| && Lapsed(l.reservations[i], project, now) ensures l.reservations[i].month in months {
      assert Expired(l.reservations[i], project, l.reservations[i].month, now);
    }
  }

  // ---------------------------------------------------------- LinkedIn windows

  function WindowAt(project: Name, account: Name, actionClass: Name, limit: Limit): Window {
    LinkedInWindow(project, account, actionClass, limit.kind, limit.slot)
  }

  /** How many of the first `n` limits claim this window. */
  function Claims(project: Name, account: Name, actionClass: Name, limits: seq<Limit>, n: nat, w: Window): nat
    requires n <= |limits|
  {
    if n == 0 then 0
    else
      Claims(project, account, actionClass, limits, n - 1, w)
      + (if limits[n - 1].cap > 0 && WindowAt(project, account, actionClass, limits[n - 1]) == w then 1 else 0)
  }

  /** The window of limit `i` has already reached the limit, counting what the earlier limits claim. */
  ghost predicate Full(counters: map<Window, Counter>, project: Name, account: Name, actionClass: Name, limits: seq<Limit>, i: nat)
    requires i < |limits|
  {
    var w := WindowAt(project, account, actionClass, limits[i]);
    limits[i].cap > 0
    && Amount(counters, w, false) + Claims(project, account, actionClass, limits, i, w) >= limits[i].cap
  }

  ghost predicate FirstFull(counters: map<Window, Counter>, project: Name, account: Name, actionClass: Name, limits: seq<Limit>, i: nat)
    requires i < |limits|
  {
    Full(counters, project, account, actionClass, limits, i)
    && forall j :: 0 <= j < i ==> !Full(counters, project, account, actionClass, limits, j)
  }

  /** One charge for each limit in use, in order. */
  function PlanCharges(actionClass: Name, limits: seq<Limit>, n: nat): seq<Charge>
    requires n <= |limits|
  {
    if n == 0 then []
    else
      PlanCharges(actionClass, limits, n - 1)
      + if limits[n - 1].cap <= 0 then []
        else [Charge(LinkedInSlot(actionClass, limits[n - 1].kind, limits[n - 1].slot), 1, 0, false)]
  }

  /** A claim counts one more in each claimed window and leaves every other amount alone. */
  lemma {:induction false} WindowsCount(
    counters: map<Window, Counter>, project: Name, account: Name, actionClass: Name, limits: seq<Limit>, n: nat)
    requires n <= |limits|
    ensures var claimed := ClaimWindows(counters, project, account, actionClass, limits, n);
      claimed.Ok? ==>
        && claimed.value.1 == PlanCharges(actionClass, limits, n)
        && forall w: Window, money: bool ::
             Amount(claimed.value.0, w, money)
             == Amount(counters, w, money) + if money then 0 else Claims(project, account, actionClass, limits, n, w)
    decreases n
  {
    if n > 0 {
      WindowsCount(counters, project, account, actionClass, limits, n - 1);
      hide Claims;
      ClaimsNext(project, account, actionClass, limits, n);
    }
  }

  ghost predicate NoneFull(counters: map<Window, Counter>, project: Name, account: Name, actionClass: Name, limits: seq<Limit>, n: nat)
    requires n <= |limits|
  {
    forall i :: 0 <= i < n ==> !Full(counters, project, account, actionClass, limits, i)
  }

  lemma {:induction false} WindowsOpen(
    counters: map<Window, Counter>, project: Name, account: Name, actionClass: Name, limits: seq<Limit>, n: nat)
    requires n <= |limits|
    ensures ClaimWindows(counters, project, account, actionClass, limits, n).Ok? <==>
            NoneFull(counters, project, account, actionClass, limits, n)
    decreases n
  {
    if n > 0 {
      WindowsOpen(counters, project, account, actionClass, limits, n - 1);
      WindowsCount(counters, project, account, actionClass, limits, n - 1);
      WindowNext(counters, project, account, actionClass, limits, n);
      ClaimNext(counters, project, account, actionClass, limits, n);
      hide Claims, Full, Transactions.ClaimWindows, PlanCharges, Conservation.Amount;
      assert NoneFull(counters, project, account, actionClass, limits, n) <==>
        NoneFull(counters, project, account, actionClass, limits, n - 1) && !Full(counters, project, account, actionClass, limits, n - 1);
    }
  }

  lemma {:induction false} WindowsBlocked(
    counters: map<Window, Counter>, project: Name, account: Name, actionClass: Name, limits: seq<Limit>, n: nat, i: nat)
    requires i < n <= |limits| && FirstFull(counters, project, account, actionClass, limits, i)
    ensures ClaimWindows(counters, project, account, actionClass, limits, n) == Err(LinkedInCapExceeded(limits[i].kind))
    decreases n
  {
    hide Claims, Transactions.ClaimWindows, PlanCharges, Conservation.Amount, Full;
    ClaimNext(counters, project, account, actionClass, limits, n);
    if i < n - 1 {
      WindowsBlocked(counters, project, account, actionClass, limits, n - 1, i);
    } else {
      WindowsOpen(counters, project, account, actionClass, limits, i);
      WindowsCount(counters, project, account, actionClass, limits, i);
      WindowNext(counters, project, account, actionClass, limits, n);
    }
  }

  /** The first `n` limits are claimed exactly when none of them is full; otherwise the first full one is named. */
  lemma {:induction false} WindowsLaw(
    counters: map<Window, Counter>, project: Name, account: Name, actionClass: Name, limits: seq<Limit>, n: nat)
    requires n <= |limits|
    ensures var claimed := ClaimWindows(counters, project, account, actionClass, limits, n);
      && (claimed.Ok? <==> forall i :: 0 <= i < n ==> !Full(counters, project, account, actionClass, limits, i))
      && (forall i :: 0 <= i < n && FirstFull(counters, project, account, actionClass, limits, i) ==>
            claimed == Err(LinkedInCapExceeded(limits[i].kind)))
      && (claimed.Ok? ==> claimed.value.1 == PlanCharges(actionClass, limits, n))
      && (claimed.Ok? ==> forall w: Window, money: bool ::
            Amount(claimed.value.0, w, money)
            == Amount(counters, w, money) + if money then 0 else Claims(project, account, actionClass, limits, n, w))
  {
    hide Claims, Full, Transactions.ClaimWindows, PlanCharges, Conservation.Amount, FirstFull;
    WindowsCount(counters, project, account, actionClass, limits, n);
    WindowsOpen(counters, project, account, actionClass, limits, n);
    forall i | 0 <= i < n && FirstFull(counters, project, account, actionClass, limits, i)
      ensures ClaimWindows(counters, project, account, actionClass, limits, n) == Err(LinkedInCapExceeded(limits[i].kind))
    {
      WindowsBlocked(counters, project, account, actionClass, limits, n, i);
    }
  }

  lemma {:induction false} ClaimNext(
    counters: map<Window, Counter>, project: Name, account: Name, actionClass: Name, limits: seq<Limit>, n: nat)
    requires 0 < n <= |limits|
    ensures var before := ClaimWindows(counters, project, account, actionClass, limits, n - 1);
      var after := ClaimWindows(counters, project, account, actionClass, limits, n);
      if before.Err? then after == before
      else if limits[n - 1].cap > 0 && Amount(before.value.0, WindowAt(project, account, actionClass, limits[n - 1]), false) >= limits[n - 1].cap
      then after == Err(LinkedInCapExceeded(limits[n - 1].kind))
      else after.Ok?
  {
  }

  /** One more limit is full exactly when the claims before it fill its window. */
  lemma {:induction false} WindowNext(
    counters: map<Window, Counter>, project: Name, account: Name, actionClass: Name, limits: seq<Limit>, n: nat)
    requires 0 < n <= |limits|
    requires var before := ClaimWindows(counters, project, account, actionClass, limits, n - 1);
      before.Ok? ==> forall w: Window, money: bool ::
        Amount(before.value.0, w, money)
        == Amount(counters, w, money) + if money then 0 else Claims(project, account, actionClass, limits, n - 1, w)
    ensures var before := ClaimWindows(counters, project, account, actionClass, limits, n - 1);
      before.Ok? ==>
        (Full(counters, project, account, actionClass, limits, n - 1) <==>
          limits[n - 1].cap > 0 && Amount(before.value.0, WindowAt(project, account, actionClass, limits[n - 1]), false) >= limits[n - 1].cap)
  {
    hide Claims, Transactions.ClaimWindows;
  }

  lemma {:induction false} ClaimsNext(project: Name, account: Name, actionClass: Name, limits: seq<Limit>, n: nat)
    requires 0 < n <= |limits|
    ensures forall w: Window ::
      Claims(project, account, actionClass, limits, n, w)
      == Claims(project, account, actionClass, limits, n - 1, w)
         + if limits[n - 1].cap > 0 && WindowAt(project, account, actionClass, limits[n - 1]) == w then 1 else 0
  {
  }

  ghost predicate DistinctWindows(limits: seq<Limit>) {
    forall i, j :: 0 <= i < j < |limits| ==> !(limits[i].kind == limits[j].kind && limits[i].slot == limits[j].slot)
  }

  lemma {:induction false} DistinctClaimOnce(project: Name, account: Name, actionClass: Name, limits: seq<Limit>, i: nat, n: nat)
    requires DistinctWindows(limits) && i < |limits| && n <= |limits|
    ensures Claims(project, account, actionClass, limits, n, WindowAt(project, account, actionClass, limits[i]))
         == if i < n && limits[i].cap > 0 then 1 else 0
    decreases n
  {
    if n > 0 {
      DistinctClaimOnce(project, account, actionClass, limits, i, n - 1);
    }
  }

  ghost predicate AtCeiling(counters: map<Window, Counter>, project: Name, account: Name, actionClass: Name, limit: Limit) {
    limit.cap > 0 && Amount(counters, WindowAt(project, account, actionClass, limit), false) >= limit.cap
  }

  ghost predicate FirstAtCeiling(counters: map<Window, Counter>, project: Name, account: Name, actionClass: Name, limits: seq<Limit>, i: nat)
    requires i < |limits|
  {
    AtCeiling(counters, project, account, actionClass, limits[i])
    && forall j :: 0 <= j < i ==> !AtCeiling(counters, project, account, actionClass, limits[j])
  }

  /** With one limit per window, as hour, day, week and month are, a claim fails exactly at the first limit whose
      stored count has reached it, and a successful claim leaves every claimed window within its limit. */
  lemma {:induction false} CeilingLaw(counters: map<Window, Counter>, project: Name, account: Name, actionClass: Name, limits: seq<Limit>)
    requires DistinctWindows(limits)
    ensures var claimed := ClaimWindows(counters, project, account, actionClass, limits, |limits|);
      && (claimed.Ok? <==> forall i :: 0 <= i < |limits| ==> !AtCeiling(counters, project, account, actionClass, limits[i]))
      && (forall i :: 0 <= i < |limits| && FirstAtCeiling(counters, project, account, actionClass, limits, i) ==>
            claimed == Err(LinkedInCapExceeded(limits[i].kind)))
      && (claimed.Ok? ==> forall i :: 0 <= i < |limits| && limits[i].cap > 0 ==>
            Amount(claimed.value.0, WindowAt(project, account, actionClass, limits[i]), false) <= limits[i].cap)
  {
    hide Transactions.ClaimWindows, Claims;
    var n := |limits|;
    WindowsLaw(counters, project, account, actionClass, limits, n);
    forall i | 0 <= i < n
      ensures Full(counters, project, account, actionClass, limits, i) <==>
        AtCeiling(counters, project, account, actionClass, limits[i])
      ensures Claims(project, account, actionClass, limits, n, WindowAt(project, account, actionClass, limits[i]))
           == if limits[i].cap > 0 then 1 else 0
    {
      DistinctClaimOnce(project, account, actionClass, limits, i, i);
      DistinctClaimOnce(project, account, actionClass, limits, i, n);
    }
  }

  // -------------------------------------------------------------- admission

  /** The last action of this class is less than the spacing ago, to the nearest second. */
  ghost predicate Hurried(t: Tables, a: Attempt, plan: LinkedInPlan, now: Instant) {
    var pace := Pace(a.project, a.id.account, plan.actionClass);
    plan.spacingSeconds > 0 && pace in t.lastSent && now.ms - t.lastSent[pace] + 500 < 1000 * plan.spacingSeconds
  }

  ghost predicate SomeFull(counters: map<Window, Counter>, a: Attempt, plan: LinkedInPlan) {
    exists i :: 0 <= i < |plan.limits| && Full(counters, a.project, a.id.account, plan.actionClass, plan.limits, i)
  }

  ghost predicate BlocksFirst(counters: map<Window, Counter>, a: Attempt, plan: LinkedInPlan, i: nat)
    requires i < |plan.limits|
  {
    FirstFull(counters, a.project, a.id.account, plan.actionClass, plan.limits, i)
  }

  ghost predicate RouteOpen(t: Tables, a: Attempt, routing: Routing, now: Instant) {
    match routing
    case Unrouted => true
    case Rejected(_) => false
    case Paced(plan) => !Hurried(t, a, plan, now) && !SomeFull(t.ledger.counters, a, plan)
  }

  ghost predicate SendOpen(counters: map<Window, Counter>, a: Attempt, p: Policy, now: Instant) {
    var today := SendWindow(a.project, a.id.account, now.day);
    && (p.e.sendCap > 0 ==> Amount(counters, today, false) + 1 <= p.e.sendCap)
    && (p.e.spendCap > 0 ==> Amount(counters, today, true) + p.cost <= p.e.spendCap)
  }

  /** What an admitted call is charged: one unit in each LinkedIn window in use, and for a write one send of the
      given cost today. */
  function ChargesOf(p: Policy, readOnly: bool, now: Instant): seq<Charge> {
    (if p.routing.Paced? then PlanCharges(p.routing.plan.actionClass, p.routing.plan.limits, |p.routing.plan.limits|) else [])
    + (if readOnly then [] else [Charge(SendDay(now.day), 1, p.cost, false)])
  }

  /** Claiming the counters succeeds exactly when the route is open and a write finds room under the caps; it
      charges what the policy says, and its refusal names the first obstacle. */
  lemma {:induction false} ClaimLaw(t: Tables, a: Attempt, readOnly: bool, p: Policy, now: Instant)
    ensures var claimed := ClaimCounters(t, a, readOnly, p, now);
      && (claimed.Ok? <==> RouteOpen(t, a, p.routing, now) && (readOnly || SendOpen(t.ledger.counters, a, p, now)))
      && (claimed.Ok? ==> claimed.value.1 == ChargesOf(p, readOnly, now))
      && (p.routing.Rejected? ==> claimed == Err(p.routing.code))
      && (p.routing.Paced? && Hurried(t, a, p.routing.plan, now) ==> claimed == Err(LinkedInTooFast))
      && (p.routing.Paced? && !Hurried(t, a, p.routing.plan, now) ==>
            forall i :: 0 <= i < |p.routing.plan.limits| ==> BlocksFirst(t.ledger.counters, a, p.routing.plan, i) ==>
              claimed == Err(LinkedInCapExceeded(p.routing.plan.limits[i].kind)))
      && (claimed.Err? && RouteOpen(t, a, p.routing, now) ==>
            claimed.code == if p.e.sendCap > 0 && Amount(t.ledger.counters, SendWindow(a.project, a.id.account, now.day), false) >= p.e.sendCap
                            then SendCapExceeded else SpendCapExceeded)
  {
    hide Transactions.ClaimWindows, Claims;
    if p.routing.Paced? {
      var plan := p.routing.plan;
      WindowsLaw(t.ledger.counters, a.project, a.id.account, plan.actionClass, plan.limits, |plan.limits|);
      ClaimWindowsSparesSends(t.ledger.counters, a.project, a.id.account, plan.actionClass, plan.limits, |plan.limits|);
    }
    var planned := ClaimPlan(t, a, p.routing, now);
    if planned.Ok? {
      var today := SendWindow(a.project, a.id.account, now.day);
      assert forall money: bool :: Amount(planned.value.0, today, money) == Amount(t.ledger.counters, today, money);
      SendClaimLaw(planned.value.0, today, p.e, p.cost);
      assert ChargesOf(p, true, now) == planned.value.1;
    }
  }

  lemma {:induction false} SendClaimLaw(counters: map<Window, Counter>, w: Window, e: Entitlements, cost: nat)
    ensures var sent := ClaimSend(counters, w, e, cost);
      && (sent.Ok? <==> (e.sendCap > 0 ==> Amount(counters, w, false) + 1 <= e.sendCap)
                        && (e.spendCap > 0 ==> Amount(counters, w, true) + cost <= e.spendCap))
      && (sent.Err? ==> sent.code == if e.sendCap > 0 && Amount(counters, w, false) >= e.sendCap then SendCapExceeded else SpendCapExceeded)
  {
  }

  ghost predicate Representable(x: int) { -0x8000_0000_0000_0000 <= x <= 0x7FFF_FFFF_FFFF_FFFF }

  /** The project still has a call left this month, counting every pending and dispatched one. */
  ghost predicate HasQuota(swept: Ledger, a: Attempt, hard: nat, now: Instant) {
    var committed := Committed(swept, a.project, now.month);
    Representable(committed) && Representable(committed + 1) && (hard > 0 ==> committed + 1 <= hard)
  }

  ghost function SweptLedger(t: Tables, project: Name, now: Instant): Ledger
    requires Books(t.ledger)
  {
    SweepLaw(t.ledger, project, now);
    SweepMonths(t.ledger, project, QuotaMonths(t.ledger.reservations, project, now), now).value
  }

  lemma {:induction false} ProjectedLaw(l: Ledger, project: Name, now: Instant)
    requires forall r :: r in l.reservations ==> !Expired(r, project, r.month, now)
    ensures var committed := Committed(l, project, now.month);
      Projected(l, project, now.month, now)
      == if Representable(committed) && Representable(committed + 1) then Some(committed + 1) else None
  {
    hide Sums.Sum;
    LiveIsActive(l, project, now);
  }

  /** An admission is granted exactly when, after the sweep, the project has quota, the route is open and a write
      finds room under its caps. A denial for quota keeps the sweep; any other denial changes nothing. */
  lemma {:induction false} AdmissionLaw(t: Tables, a: Attempt, readOnly: bool, p: Policy, now: Instant)
    requires Books(t.ledger)
    ensures var (t', reply) := Reserve(t, a, readOnly, p, now);
      var cleaned := t.(ledger := SweptLedger(t, a.project, now));
      && (reply.Reserved? <==>
            && HasQuota(cleaned.ledger, a, p.e.hard, now) && RouteOpen(cleaned, a, p.routing, now)
            && (readOnly || SendOpen(cleaned.ledger.counters, a, p, now)))
      && (!HasQuota(cleaned.ledger, a, p.e.hard, now) ==>
            if p.e.hard > 0 then t' == cleaned && reply == Failed(UsageLimitExceeded)
            else t' == t && reply == Failed(Unavailable))
      && (!reply.Reserved? && HasQuota(cleaned.ledger, a, p.e.hard, now) ==>
            t' == t && reply.Failed? && ClaimCounters(cleaned, a, readOnly, p, now) == Err(reply.code))
  {
    hide Bookkeeping.Books, Transactions.SweepMonths, Transactions.ClaimCounters, Transactions.Projected, RouteOpen, SendOpen;
    SweepLaw(t.ledger, a.project, now);
    var moves := AdmissionSweep(t.ledger, a.project, now);
    var cleaned := t.(ledger := SweptLedger(t, a.project, now));
    ProjectedLaw(cleaned.ledger, a.project, now);
    ClaimLaw(cleaned, a, readOnly, p, now);
  }

  /** A granted admission inserts one pending reservation for the caller, with its charges counted in their
      windows, and touches nothing else but the pacing clock. */
  lemma {:induction false} AdmittedLaw(t: Tables, a: Attempt, readOnly: bool, p: Policy, now: Instant)
    requires Books(t.ledger) && Reserve(t, a, readOnly, p, now).1.Reserved?
    ensures var (t', reply) := Reserve(t, a, readOnly, p, now);
      var swept := SweptLedger(t, a.project, now);
      var row := Reservation(a.request, a.project, now.month, a.id, a.key, None, Pending, now.ms + p.leaseMs, now,
                             ChargesOf(p, readOnly, now));
      && reply == Reserved(|t.ledger.reservations|, now.month)
      && t'.ledger.reservations == swept.reservations + [row]
      && t'.ledger.events == swept.events && t'.ledger.rollups == swept.rollups
      && (forall w: Window, money: bool ::
            Amount(t'.ledger.counters, w, money) == Amount(swept.counters, w, money) + OwedBy(row, w, money))
      && t'.claims == t.claims && t'.records == t.records && t'.audits == t.audits
      && (forall pace :: !(p.routing.Paced? && pace == Pace(a.project, a.id.account, p.routing.plan.actionClass)) ==>
            (pace in t'.lastSent <==> pace in t.lastSent) && (pace in t.lastSent ==> t'.lastSent[pace] == t.lastSent[pace]))
      && (p.routing.Paced? ==>
            var pace := Pace(a.project, a.id.account, p.routing.plan.actionClass);
            pace in t'.lastSent && t'.lastSent[pace] == now.ms)
  {
    hide Bookkeeping.Books, Transactions.SweepMonths, Transactions.ClaimCounters, Transactions.Projected, Sums.Sum;
    SweepLaw(t.ledger, a.project, now);
    var cleaned := t.(ledger := SweptLedger(t, a.project, now));
    ClaimLaw(cleaned, a, readOnly, p, now);
    ClaimCountersExact(cleaned, a, readOnly, p, now);
  }
}
