/** The ledger as a small machine: every transaction is a sequence of legal moves, and legal moves
    keep the books (counters conserved, one reservation per request, refunds only when released)
    and, unless an operator overcharges, exactly one usage event per settled reservation. */
module Bookkeeping {
  import opened Wrappers
  import opened Sums
  import opened Schema
  import opened Ledgers
  import opened Transactions
  import opened Conservation

  datatype Move =
    | BindTo(q: nat, request: Name)
    | DispatchTill(q: nat, expiresAt: int)
    | Release(q: nat)
    | RefundRelease(q: nat)
    | SettleBy(q: nat, meter: MeterKey)
    | Insert(row: Reservation, counters: map<Window, Counter>)
    /** An event written without settling a reservation: only operators do this. */
    | Extra(e: Event, month: Name)

  predicate InRange(l: Ledger, m: Move) {
    !m.Insert? && !m.Extra? ==> m.q < |l.reservations|
  }

  /** The effect of a move. */
  function Play(l: Ledger, m: Move): Ledger
    requires InRange(l, m)
  {
    match m
    case BindTo(q, request) => BindRow(l, q, request)
    case DispatchTill(q, expiresAt) => DispatchRow(l, q, expiresAt)
    case Release(q) => SetPhase(l, q, Released)
    case RefundRelease(q) =>
      var after := RefundAndRelease(l, l.reservations[q].project, q);
      if after.Some? then after.value else l
    case SettleBy(q, meter) =>
      var r := l.reservations[q];
      SettleRow(l, r.project, meter, r.id.account, q, r.month)
    case Insert(row, counters) => l.(counters := counters, reservations := l.reservations + [row])
    case Extra(e, month) => WriteEvent(l, e, month)
  }

  /** When a move may be played. Settled rows are final, and a row is bound and charged only to its creator. */
  ghost predicate Legal(l: Ledger, m: Move) {
    InRange(l, m) &&
    match m
    case BindTo(q, request) =>
      Active(l.reservations[q]) && l.reservations[q].request == None && request == l.reservations[q].creator
    case DispatchTill(q, _) =>
      var r := l.reservations[q];
      r.phase == Pending && (r.key.Some? ==> r.request == Some(r.creator))
    case Release(q) => l.reservations[q].phase != Settled
    case RefundRelease(q) => l.reservations[q].phase != Settled
    case SettleBy(q, meter) =>
      l.reservations[q].phase == Dispatched
      && (meter == ActionMeter(l.reservations[q].creator) || meter == RecoveryMeter(q))
    case Insert(row, counters) =>
      && row.phase == Pending && row.request == None && row.month == row.createdAt.month
      && (forall i :: 0 <= i < |row.charges| ==> !row.charges[i].refunded)
      && (forall i :: 0 <= i < |l.reservations| ==> l.reservations[i].creator != row.creator)
      && forall w: Window, money: bool ::
           Amount(counters, w, money) == Amount(l.counters, w, money) + OwedBy(row, w, money)
    case Extra(_, _) => true
  }

  // ----------------------------------------------------------------- books

  ghost predicate RowsWellFormed(rows: seq<Reservation>) {
    && (forall i, j :: 0 <= i < j < |rows| ==> rows[i].creator != rows[j].creator)
    && (forall i :: 0 <= i < |rows| ==> rows[i].month == rows[i].createdAt.month)
    && (forall i :: 0 <= i < |rows| && rows[i].request.Some? ==> rows[i].request == Some(rows[i].creator))
    && (forall i :: 0 <= i < |rows| && rows[i].key.Some? && (rows[i].phase == Dispatched || rows[i].phase == Settled) ==>
          rows[i].request == Some(rows[i].creator))
  }

  /** A charge is refunded only when its reservation is released. */
  ghost predicate RefundsReleased(rows: seq<Reservation>) {
    forall i :: 0 <= i < |rows| && HasRefund(rows[i]) ==> rows[i].phase == Released
  }

  predicate HasRefund(r: Reservation) {
    exists j :: 0 <= j < |r.charges| && r.charges[j].refunded
  }

  ghost predicate Books(l: Ledger) {
    Conserved(l) && RowsWellFormed(l.reservations) && RefundsReleased(l.reservations)
  }

  lemma {:induction false} PlayKeepsConserved(l: Ledger, m: Move)
    requires Conserved(l) && Legal(l, m)
    ensures Conserved(Play(l, m))
  {
    match m {
      case RefundRelease(q) => RefundConserves(l, q);
      case Insert(row, counters) =>
        forall w: Window, money: bool
          ensures Amount(counters, w, money) == Sum(l.reservations + [row], Owed(w, money))
        {
          SumAppend(l.reservations, row, Owed(w, money));
        }
      case _ => SameChargesConserved(l, Play(l, m));
    }
  }

  /** A row after a move: what never changes, and which ways the rest may. */
  ghost predicate RowGrows(r: Reservation, r': Reservation) {
    && r'.creator == r.creator && r'.project == r.project && r'.month == r.month && r'.id == r.id
    && r'.key == r.key && r'.createdAt == r.createdAt && |r'.charges| == |r.charges|
    && (r.request.Some? ==> r'.request == r.request)
    && (r.phase == Settled ==> r' == r.(request := r'.request))
    && (r.phase == Released ==> r'.phase == Released)
    && (r.phase == Dispatched ==> r'.phase != Pending)
    && (HasRefund(r) ==> HasRefund(r'))
    && forall j :: 0 <= j < |r.charges| ==>
         r'.charges[j] == r.charges[j] || r'.charges[j] == r.charges[j].(refunded := true)
  }

  /** Rows are never removed, settled and released are final, and a refunded charge stays refunded. */
  ghost predicate LedgerGrows(l: Ledger, l': Ledger) {
    && |l.reservations| <= |l'.reservations|
    && (forall i :: 0 <= i < |l.reservations| ==> RowGrows(l.reservations[i], l'.reservations[i]))
    && l.events <= l'.events
  }

  lemma {:induction false} RefundedRow(l: Ledger, q: nat)
    requires q < |l.reservations| && RefundAndRelease(l, l.reservations[q].project, q).Some?
    ensures var r := l.reservations[q];
      var l' := RefundAndRelease(l, r.project, q).value;
      && l'.reservations == l.reservations[q := r.(phase := Released, charges := MarkRefunded(r.charges))]
      && l'.events == l.events && l'.rollups == l.rollups
      && (HasRefund(r) ==> HasRefund(l'.reservations[q]))
  {
    var r := l.reservations[q];
    var r' := RefundAndRelease(l, r.project, q).value.reservations[q];
    if HasRefund(r) {
      var j :| 0 <= j < |r.charges| && r.charges[j].refunded;
      assert r'.charges[j].refunded;
    }
  }

  lemma {:induction false} PlayGrows(l: Ledger, m: Move)
    requires Legal(l, m)
    ensures LedgerGrows(l, Play(l, m))
  {
    if m.RefundRelease? && RefundAndRelease(l, l.reservations[m.q].project, m.q).Some? {
      RefundedRow(l, m.q);
    }
  }

  lemma {:induction false} PlayKeepsRows(l: Ledger, m: Move)
    requires Books(l) && Legal(l, m)
    ensures RowsWellFormed(Play(l, m).reservations) && RefundsReleased(Play(l, m).reservations)
  {
    if m.RefundRelease? {
      RefundConserves(l, m.q);
      RefundedRow(l, m.q);
    }
  }

  /** Every legal move keeps the books. */
  lemma {:induction false} PlayKeepsBooks(l: Ledger, m: Move)
    requires Books(l) && Legal(l, m)
    ensures Books(Play(l, m))
  {
    PlayKeepsConserved(l, m);
    PlayKeepsRows(l, m);
  }

  // ----------------------------------------------------------------- usage

  function FromReservation(q: nat): Event -> int {
    (e: Event) => if e.source == Some(q) then 1 else 0
  }

  function EventIn(project: Name, account: Name, month: Name): Event -> int {
    (e: Event) => if e.project == project && e.account == account && e.occurredAt.month == month then 1 else 0
  }

  function RollupIn(project: Name, account: Name, month: Name): Rollup -> int {
    (r: Rollup) => if RollupFor(r, project, account, month) then r.quantity else 0
  }

  /** An event charges one reservation: its own project, account and creation time, under its own meter. */
  ghost predicate EventBacked(e: Event, rows: seq<Reservation>) {
    e.source.Some? && e.source.value < |rows| &&
    var r := rows[e.source.value];
    && e.project == r.project && e.account == r.id.account && e.occurredAt == r.createdAt
    && (e.meter == ActionMeter(r.creator) || e.meter == RecoveryMeter(e.source.value))
  }

  /** A reservation is settled if and only if exactly one event was written for it, every event was written
      for a reservation, and each monthly rollup is one row equal to the number of its events. */
  ghost predicate UsageExact(l: Ledger) {
    && (forall i :: 0 <= i < |l.events| ==> EventBacked(l.events[i], l.reservations))
    && (forall q :: 0 <= q < |l.reservations| ==>
          Sum(l.events, FromReservation(q)) == if l.reservations[q].phase == Settled then 1 else 0)
    && RollupsExact(l)
  }

  ghost predicate RollupsExact(l: Ledger) {
    && (forall p: Name, a: Name, m: Name :: Sum(l.rollups, RollupIn(p, a, m)) == Sum(l.events, EventIn(p, a, m)))
    && (forall i, j :: 0 <= i < j < |l.rollups| ==>
          !RollupFor(l.rollups[j], l.rollups[i].project, l.rollups[i].account, l.rollups[i].month))
  }

  lemma {:induction false} AddToRollupAdds(rollups: seq<Rollup>, project: Name, account: Name, month: Name, p: Name, a: Name, m: Name)
    ensures Sum(AddToRollup(rollups, project, account, month), RollupIn(p, a, m))
         == Sum(rollups, RollupIn(p, a, m)) + if p == project && a == account && m == month then 1 else 0
  {
    var i := FindRollup(rollups, project, account, month);
    if i == |rollups| {
      SumAppend(rollups, Rollup(project, account, month, 1), RollupIn(p, a, m));
    } else {
      SumUpdate(rollups, i, rollups[i].(quantity := rollups[i].quantity + 1), RollupIn(p, a, m));
    }
  }

  lemma {:induction false} WriteEventRollups(l: Ledger, e: Event)
    requires RollupsExact(l)
    ensures RollupsExact(WriteEvent(l, e, e.occurredAt.month))
  {
    if !Metered(l, e.project, e.meter) {
      var l' := WriteEvent(l, e, e.occurredAt.month);
      forall p: Name, a: Name, m: Name
        ensures Sum(l'.rollups, RollupIn(p, a, m)) == Sum(l'.events, EventIn(p, a, m))
      {
        AddToRollupAdds(l.rollups, e.project, e.account, e.occurredAt.month, p, a, m);
        SumAppend(l.events, e, EventIn(p, a, m));
      }
    }
  }

  /** A dispatched reservation has not been metered under either of its keys. */
  lemma {:induction false} DispatchedUnmetered(l: Ledger, q: nat, meter: MeterKey)
    requires RowsWellFormed(l.reservations) && UsageExact(l)
    requires q < |l.reservations| && l.reservations[q].phase == Dispatched
    requires meter == ActionMeter(l.reservations[q].creator) || meter == RecoveryMeter(q)
    ensures !Metered(l, l.reservations[q].project, meter)
  {
    SumAtLeast(l.events, FromReservation(q));
    forall i | 0 <= i < |l.events| && l.events[i].project == l.reservations[q].project
      ensures l.events[i].meter != meter
    {
      assert EventBacked(l.events[i], l.reservations);
      assert FromReservation(q)(l.events[i]) <= 0;
    }
  }

  lemma {:induction false} SettleKeepsUsage(l: Ledger, q: nat, meter: MeterKey)
    requires Books(l) && UsageExact(l) && Legal(l, SettleBy(q, meter))
    ensures UsageExact(Play(l, SettleBy(q, meter)))
  {
    var r := l.reservations[q];
    DispatchedUnmetered(l, q, meter);
    var e := Event(r.project, meter, r.id.account, r.createdAt, Some(q));
    var l' := Play(l, SettleBy(q, meter));
    WriteEventRollups(l, e);
    assert l'.events == l.events + [e];
    forall i | 0 <= i < |l'.events| ensures EventBacked(l'.events[i], l'.reservations) {
      if i < |l.events| {
        assert EventBacked(l.events[i], l.reservations);
      }
    }
    forall k | 0 <= k < |l'.reservations|
      ensures Sum(l'.events, FromReservation(k)) == if l'.reservations[k].phase == Settled then 1 else 0
    {
      SumAppend(l.events, e, FromReservation(k));
    }
  }

  /** Moves that write no event and settle no row leave usage exact. */
  lemma {:induction false} QuietKeepsUsage(l: Ledger, l': Ledger)
    requires UsageExact(l) && LedgerGrows(l, l')
    requires l'.events == l.events && l'.rollups == l.rollups
    requires forall q :: 0 <= q < |l'.reservations| && l'.reservations[q].phase == Settled ==>
      q < |l.reservations| && l.reservations[q].phase == Settled
    ensures UsageExact(l')
  {
    forall i | 0 <= i < |l'.events| ensures EventBacked(l'.events[i], l'.reservations) {
      assert EventBacked(l.events[i], l.reservations);
    }
    forall q | 0 <= q < |l'.reservations|
      ensures Sum(l'.events, FromReservation(q)) == if l'.reservations[q].phase == Settled then 1 else 0
    {
      if q < |l.reservations| {
        assert RowGrows(l.reservations[q], l'.reservations[q]);
      } else {
        forall i | 0 <= i < |l.events| ensures FromReservation(q)(l.events[i]) == 0 {
          assert EventBacked(l.events[i], l.reservations);
        }
        SumZero(l.events, FromReservation(q));
      }
    }
  }

  /** A move is fair unless it really writes an event without settling a reservation. */
  predicate Fair(l: Ledger, m: Move) {
    m.Extra? ==> Metered(l, m.e.project, m.e.meter)
  }

  /** Every fair legal move keeps usage exact. */
  lemma {:induction false} PlayKeepsUsage(l: Ledger, m: Move)
    requires Books(l) && UsageExact(l) && Legal(l, m) && Fair(l, m)
    ensures UsageExact(Play(l, m))
  {
    if m.SettleBy? {
      SettleKeepsUsage(l, m.q, m.meter);
    } else {
      if m.RefundRelease? {
        RefundConserves(l, m.q);
        RefundedRow(l, m.q);
      }
      PlayGrows(l, m);
      QuietKeepsUsage(l, Play(l, m));
    }
  }

  /** ... and an unfair move always breaks it. */
  lemma {:induction false} ExtraBreaksUsage(l: Ledger, e: Event, month: Name)
    requires UsageExact(l) && !Fair(l, Extra(e, month))
    requires e.source.Some? ==> e.source.value < |l.reservations| && l.reservations[e.source.value].phase == Settled
    ensures !UsageExact(Play(l, Extra(e, month)))
  {
    var l' := Play(l, Extra(e, month));
    assert l'.events[|l.events|] == e;
    if e.source.Some? {
      SumAppend(l.events, e, FromReservation(e.source.value));
    }
  }

  // ----------------------------------------------------------------- quota

  function ActiveIn(project: Name, month: Name): Reservation -> int {
    (r: Reservation) => if r.project == project && r.month == month && Active(r) then 1 else 0
  }

  /** Completed usage plus every pending and dispatched reservation, expired or not. */
  function Committed(l: Ledger, project: Name, month: Name): int {
    Sum(l.rollups, UsedIn(project, month)) + Sum(l.reservations, ActiveIn(project, month))
  }

  lemma {:induction false} WriteEventUses(l: Ledger, e: Event, month: Name, p: Name, m: Name)
    ensures var used := Sum(WriteEvent(l, e, month).rollups, UsedIn(p, m)) - Sum(l.rollups, UsedIn(p, m));
      0 <= used <= 1 && (used == 1 ==> p == e.project && m == month)
  {
    if !Metered(l, e.project, e.meter) {
      var i := FindRollup(l.rollups, e.project, e.account, month);
      if i == |l.rollups| {
        SumAppend(l.rollups, Rollup(e.project, e.account, month, 1), UsedIn(p, m));
      } else {
        SumUpdate(l.rollups, i, l.rollups[i].(quantity := l.rollups[i].quantity + 1), UsedIn(p, m));
      }
    }
  }

  /** No fair move but an insertion commits more; an insertion commits one more in its own month. */
  lemma {:induction false} PlayCommits(l: Ledger, m: Move, p: Name, month: Name)
    requires Legal(l, m) && Fair(l, m)
    ensures Committed(Play(l, m), p, month) <= Committed(l, p, month)
      + if m.Insert? && m.row.project == p && m.row.month == month then 1 else 0
  {
    if m.Insert? {
      SumAppend(l.reservations, m.row, ActiveIn(p, month));
    } else if !m.Extra? {
      var l' := Play(l, m);
      if m.SettleBy? {
        var r := l.reservations[m.q];
        WriteEventUses(l, Event(r.project, m.meter, r.id.account, r.createdAt, Some(m.q)), r.month, p, month);
      } else if m.RefundRelease? && RefundAndRelease(l, l.reservations[m.q].project, m.q).Some? {
        RefundedRow(l, m.q);
      }
      assert l'.reservations == l.reservations[m.q := l'.reservations[m.q]];
      SumUpdate(l.reservations, m.q, l'.reservations[m.q], ActiveIn(p, month));
    }
  }

  /** A usage event written without a settlement commits one more in the month it is written for. */
  lemma {:induction false} ExtraCommits(l: Ledger, e: Event, month: Name, p: Name, m: Name)
    requires !Fair(l, Extra(e, month))
    ensures Committed(Play(l, Extra(e, month)), p, m) == Committed(l, p, m) + if p == e.project && m == month then 1 else 0
  {
    var i := FindRollup(l.rollups, e.project, e.account, month);
    if i == |l.rollups| {
      SumAppend(l.rollups, Rollup(e.project, e.account, month, 1), UsedIn(p, m));
    } else {
      SumUpdate(l.rollups, i, l.rollups[i].(quantity := l.rollups[i].quantity + 1), UsedIn(p, m));
    }
  }

  // ----------------------------------------------------------- send and spend caps

  /** No move but an insertion raises a counter. */
  lemma {:induction false} PlayRaisesOnlyByInsert(l: Ledger, m: Move, w: Window, money: bool)
    requires Conserved(l) && Legal(l, m) && !m.Insert?
    ensures Amount(Play(l, m).counters, w, money) <= Amount(l.counters, w, money)
  {
    if m.RefundRelease? {
      RefundConserves(l, m.q);
      OwedNonnegative(l.reservations[m.q], w, money);
    }
  }

  // ------------------------------------------------------------- sequences

  ghost predicate LegalAll(l: Ledger, moves: seq<Move>)
    decreases |moves|
  {
    moves == [] || (Legal(l, moves[0]) && LegalAll(Play(l, moves[0]), moves[1..]))
  }

  ghost function PlayAll(l: Ledger, moves: seq<Move>): Ledger
    requires LegalAll(l, moves)
    decreases |moves|
  {
    if moves == [] then l else PlayAll(Play(l, moves[0]), moves[1..])
  }

  lemma {:induction false} PlayMore(l: Ledger, moves: seq<Move>, m: Move)
    requires LegalAll(l, moves) && Legal(PlayAll(l, moves), m)
    ensures LegalAll(l, moves + [m]) && PlayAll(l, moves + [m]) == Play(PlayAll(l, moves), m)
    decreases |moves|
  {
    if moves == [] {
      assert ([] + [m])[1..] == [];
    } else {
      PlayMore(Play(l, moves[0]), moves[1..], m);
      assert (moves + [m])[1..] == moves[1..] + [m];
    }
  }

  lemma {:induction false} GrowsTransitive(l1: Ledger, l2: Ledger, l3: Ledger)
    requires LedgerGrows(l1, l2) && LedgerGrows(l2, l3)
    ensures LedgerGrows(l1, l3)
  {
    forall i | 0 <= i < |l1.reservations| ensures RowGrows(l1.reservations[i], l3.reservations[i]) {
      assert RowGrows(l1.reservations[i], l2.reservations[i]) && RowGrows(l2.reservations[i], l3.reservations[i]);
    }
  }

  lemma {:induction false} PlayAllKeepsBooks(l: Ledger, moves: seq<Move>)
    requires Books(l) && LegalAll(l, moves)
    ensures Books(PlayAll(l, moves)) && LedgerGrows(l, PlayAll(l, moves))
    decreases |moves|
  {
    if moves != [] {
      PlayKeepsBooks(l, moves[0]);
      PlayGrows(l, moves[0]);
      PlayAllKeepsBooks(Play(l, moves[0]), moves[1..]);
      GrowsTransitive(l, Play(l, moves[0]), PlayAll(l, moves));
    }
  }

  lemma {:induction false} PlayAllKeepsUsage(l: Ledger, moves: seq<Move>)
    requires Books(l) && UsageExact(l) && LegalAll(l, moves)
    requires forall i :: 0 <= i < |moves| ==> !moves[i].Extra?
    ensures UsageExact(PlayAll(l, moves))
    decreases |moves|
  {
    if moves != [] {
      PlayKeepsBooks(l, moves[0]);
      PlayKeepsUsage(l, moves[0]);
      PlayAllKeepsUsage(Play(l, moves[0]), moves[1..]);
    }
  }

  lemma {:induction false} PlayAllCommits(l: Ledger, moves: seq<Move>, p: Name, month: Name)
    requires LegalAll(l, moves)
    requires forall i :: 0 <= i < |moves| ==> !moves[i].Extra? && !moves[i].Insert?
    ensures Committed(PlayAll(l, moves), p, month) <= Committed(l, p, month)
    decreases |moves|
  {
    if moves != [] {
      PlayCommits(l, moves[0], p, month);
      PlayAllCommits(Play(l, moves[0]), moves[1..], p, month);
    }
  }

  lemma {:induction false} PlayAllRaisesNothing(l: Ledger, moves: seq<Move>, w: Window, money: bool)
    requires Conserved(l) && LegalAll(l, moves)
    requires forall i :: 0 <= i < |moves| ==> !moves[i].Insert?
    ensures Amount(PlayAll(l, moves).counters, w, money) <= Amount(l.counters, w, money)
    decreases |moves|
  {
    if moves != [] {
      PlayRaisesOnlyByInsert(l, moves[0], w, money);
      PlayKeepsConserved(l, moves[0]);
      PlayAllRaisesNothing(Play(l, moves[0]), moves[1..], w, money);
    }
  }
}
