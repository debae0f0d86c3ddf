/** The elementary changes transactions make to the accounting tables. */
module Ledgers {
  import opened Wrappers
  import opened Sums
  import opened Schema

  // ------------------------------------------------------ reservation rows

  function SetPhase(l: Ledger, q: nat, phase: Phase): (after: Ledger)
    requires q < |l.reservations|
  {
    l.(reservations := l.reservations[q := l.reservations[q].(phase := phase)])
  }

  function BindRow(l: Ledger, q: nat, request: Name): Ledger
    requires q < |l.reservations|
  {
    l.(reservations := l.reservations[q := l.reservations[q].(request := Some(request))])
  }

  function DispatchRow(l: Ledger, q: nat, expiresAt: int): Ledger
    requires q < |l.reservations|
  {
    l.(reservations := l.reservations[q := l.reservations[q].(phase := Dispatched, expiresAt := expiresAt)])
  }

  // --------------------------------------------------------------- refunds

  function AtLeastZero(n: int): int { if n < 0 then 0 else n }

  /** One counter UPDATE with GREATEST(.., 0); None when no row was there to update. */
  function RefundCounter(counters: map<Window, Counter>, w: Window, quantity: int, spend: int): Option<map<Window, Counter>> {
    if w !in counters then None
    else Some(counters[w := Counter(AtLeastZero(counters[w].count - quantity), AtLeastZero(counters[w].spend - spend))])
  }

  /** The refund loop from charge row `i` on. */
  function RefundCounters(counters: map<Window, Counter>, r: Reservation, i: nat): Option<map<Window, Counter>>
    requires i <= |r.charges|
    decreases |r.charges| - i
  {
    if i == |r.charges| then Some(counters)
    else if r.charges[i].refunded then RefundCounters(counters, r, i + 1)
    else
      var c := r.charges[i];
      var updated := RefundCounter(counters, WindowOf(r.project, r.id.account, c.target), c.quantity, c.spend);
      if updated.None? then None else RefundCounters(updated.value, r, i + 1)
  }

  function MarkRefunded(charges: seq<Charge>): (marked: seq<Charge>)
    ensures |marked| == |charges|
    ensures forall i :: 0 <= i < |charges| ==> marked[i] == charges[i].(refunded := true)
  {
    seq(|charges|, i requires 0 <= i < |charges| => charges[i].(refunded := true))
  }

  /** Refund a reservation's charges and release it; None when the row or a counter is missing. */
  function RefundAndRelease(l: Ledger, project: Name, q: nat): Option<Ledger> {
    if q >= |l.reservations| || l.reservations[q].project != project then None
    else
      var r := l.reservations[q];
      var counters := RefundCounters(l.counters, r, 0);
      if counters.None? then None
      else Some(l.(counters := counters.value,
                   reservations := l.reservations[q := r.(phase := Released, charges := MarkRefunded(r.charges))]))
  }

  // ----------------------------------------------------------------- usage

  predicate Metered(l: Ledger, project: Name, meter: MeterKey) {
    exists i :: 0 <= i < |l.events| && l.events[i].project == project && l.events[i].meter == meter
  }

  predicate RollupFor(r: Rollup, project: Name, account: Name, month: Name) {
    r.project == project && r.account == account && r.month == month
  }

  function FindRollup(rollups: seq<Rollup>, project: Name, account: Name, month: Name): (i: nat)
    ensures i <= |rollups|
    ensures i < |rollups| ==> RollupFor(rollups[i], project, account, month)
    ensures forall j :: 0 <= j < i ==> !RollupFor(rollups[j], project, account, month)
  {
    if rollups == [] then 0
    else if RollupFor(rollups[0], project, account, month) then 0
    else 1 + FindRollup(rollups[1..], project, account, month)
  }

  function AddToRollup(rollups: seq<Rollup>, project: Name, account: Name, month: Name): seq<Rollup> {
    var i := FindRollup(rollups, project, account, month);
    if i == |rollups| then rollups + [Rollup(project, account, month, 1)]
    else rollups[i := rollups[i].(quantity := rollups[i].quantity + 1)]
  }

  /** INSERT the event ON CONFLICT DO NOTHING and add it to its monthly rollup when it was inserted. */
  function WriteEvent(l: Ledger, e: Event, month: Name): (after: Ledger)
    ensures after == l.(events := after.events, rollups := after.rollups)
  {
    if Metered(l, e.project, e.meter) then l
    else l.(events := l.events + [e], rollups := AddToRollup(l.rollups, e.project, e.account, month))
  }

  /** Charge one action call to a reservation's month. */
  function ChargeUsage(l: Ledger, project: Name, meter: MeterKey, account: Name, q: nat, month: Name): Ledger
    requires q < |l.reservations|
  {
    WriteEvent(l, Event(project, meter, account, l.reservations[q].createdAt, Some(q)), month)
  }

  /** Charge a dispatched reservation and settle it. */
  function SettleRow(l: Ledger, project: Name, meter: MeterKey, account: Name, q: nat, month: Name): Ledger
    requires q < |l.reservations|
  {
    SetPhase(ChargeUsage(l, project, meter, account, q, month), q, Settled)
  }
}
