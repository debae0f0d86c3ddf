/** Every transaction, called with the arguments its request owns, plays legal ledger moves. */
module Accounting {
  import opened Wrappers
  import opened Sums
  import opened Schema
  import opened Ledgers
  import opened Evidence
  import opened Transactions
  import opened Conservation
  import opened Bookkeeping

  /** Reservation `q`, if it exists, was made by this attempt. */
  predicate Owns(l: Ledger, a: Attempt, q: nat) {
    q < |l.reservations| ==>
      var r := l.reservations[q];
      r.creator == a.request && r.project == a.project && r.id == a.id && r.key == a.key
  }

  /** What the service guarantees about the arguments it passes. */
  ghost predicate Owned(l: Ledger, c: Call) {
    match c
    case AcquireCall(_, _, _) => true
    case ReserveCall(a, _, _, _) => forall i :: 0 <= i < |l.reservations| ==> l.reservations[i].creator != a.request
    case MarkCall(a, q, _, _, _) =>
      Owns(l, a, q) && (q < |l.reservations| && a.key.Some? ==> l.reservations[q].request == Some(a.request))
    case ReleasePendingCall(_) => true
    case FinishReadTimeoutCall(_, _, _) => true
    case ReconcileCall(_, _) => true
    case _ => Owns(l, c.a, c.q)
  }

  lemma {:induction false} OneMove(l: Ledger, m: Move) returns (moves: seq<Move>)
    requires Legal(l, m)
    ensures moves == [m] && LegalAll(l, moves) && PlayAll(l, moves) == Play(l, m)
  {
    moves := [m];
    assert moves[1..] == [];
  }

  // ----------------------------------------------------------------- sweep

  /** What happens to a reservation its own request does not touch: a pending one may be released
      with its charges refunded, a dispatched one may be settled, and nothing else. */
  ghost predicate RowDrifts(r: Reservation, r': Reservation) {
    || r' == r
    || (r.phase == Pending && r' == r.(phase := Released, charges := r'.charges))
    || (r.phase == Dispatched && r' == r.(phase := Settled))
  }

  ghost predicate Drift(rows: seq<Reservation>, rows': seq<Reservation>) {
    |rows'| == |rows| && forall i :: 0 <= i < |rows| ==> RowDrifts(rows[i], rows'[i])
  }

  predicate SweepMove(m: Move) {
    m.RefundRelease? || (m.SettleBy? && m.meter == RecoveryMeter(m.q))
  }

  lemma {:induction false} DriftStep(rows: seq<Reservation>, before: seq<Reservation>, q: nat, r': Reservation)
    requires Drift(rows, before) && q < |before| && before[q] == rows[q] && RowDrifts(rows[q], r')
    ensures Drift(rows, before[q := r'])
  {
  }

  lemma {:induction false} DriftTransitive(rows: seq<Reservation>, mid: seq<Reservation>, rows': seq<Reservation>)
    requires Drift(rows, mid) && Drift(mid, rows')
    ensures Drift(rows, rows')
  {
    forall i | 0 <= i < |rows| ensures RowDrifts(rows[i], rows'[i]) {
      assert RowDrifts(rows[i], mid[i]) && RowDrifts(mid[i], rows'[i]);
    }
  }

  /** A month's rows below `n` hold none of this phase that has lapsed; the rows from `n` on are untouched. */
  ghost predicate Cleared(rows: seq<Reservation>, rows': seq<Reservation>, phase: Phase, project: Name, month: Name, now: Instant, n: nat) {
    && |rows'| == |rows| && n <= |rows|
    && (forall i :: n <= i < |rows| ==> rows'[i] == rows[i])
    && (forall i :: 0 <= i < n ==> !(Expired(rows'[i], project, month, now) && rows'[i].phase == phase))
  }

  lemma {:induction false} RefundStep(l: Ledger, q: nat) returns (row: Reservation)
    requires Books(l) && q < |l.reservations| && l.reservations[q].phase == Pending
    ensures Legal(l, RefundRelease(q)) && RefundAndRelease(l, l.reservations[q].project, q) == Some(Play(l, RefundRelease(q)))
    ensures Play(l, RefundRelease(q)).reservations == l.reservations[q := row]
    ensures row.phase == Released && RowDrifts(l.reservations[q], row)
  {
    RefundConserves(l, q);
    RefundedRow(l, q);
    row := Play(l, RefundRelease(q)).reservations[q];
  }

  lemma {:induction false} ExpireMoves(l: Ledger, project: Name, month: Name, now: Instant, n: nat) returns (moves: seq<Move>)
    requires Books(l) && n <= |l.reservations|
    ensures LegalAll(l, moves) && forall i :: 0 <= i < |moves| ==> SweepMove(moves[i])
    ensures ExpirePending(l, project, month, now, n) == Some(PlayAll(l, moves))
    ensures Drift(l.reservations, PlayAll(l, moves).reservations)
    ensures Cleared(l.reservations, PlayAll(l, moves).reservations, Pending, project, month, now, n)
    decreases n
  {
    hide Bookkeeping.Books, Drift, RowDrifts, Cleared, Ledgers.RefundAndRelease, Bookkeeping.Play, Bookkeeping.Legal;
    moves := [];
    EmptyDrift(l.reservations);
    NothingCleared(l.reservations, Pending, project, month, now);
    if n > 0 {
      moves := ExpireMoves(l, project, month, now, n - 1);
      if Expired(l.reservations[n - 1], project, month, now) && l.reservations[n - 1].phase == Pending {
        var before := PlayAll(l, moves);
        ClearedKeeps(l.reservations, before.reservations, Pending, project, month, now, n - 1);
        PlayAllKeepsBooks(l, moves);
        var row := RefundStep(before, n - 1);
        DriftStep(l.reservations, before.reservations, n - 1, row);
        ClearedNext(l.reservations, before.reservations, Pending, project, month, now, n - 1, row);
        PlayMore(l, moves, RefundRelease(n - 1));
        moves := moves + [RefundRelease(n - 1)];
      } else {
        ClearedSkip(l.reservations, PlayAll(l, moves).reservations, Pending, project, month, now, n - 1);
      }
    }
  }

  lemma {:induction false} SettledRow(l: Ledger, q: nat, meter: MeterKey)
    requires q < |l.reservations|
    ensures Play(l, SettleBy(q, meter)).reservations == l.reservations[q := l.reservations[q].(phase := Settled)]
  {
  }

  lemma {:induction false} EmptyDrift(rows: seq<Reservation>)
    ensures Drift(rows, rows)
  {
  }

  lemma {:induction false} SettlingDrifts(r: Reservation)
    requires r.phase == Dispatched
    ensures RowDrifts(r, r.(phase := Settled))
  {
  }

  lemma {:induction false} RecoverMoves(l: Ledger, project: Name, month: Name, now: Instant, n: nat) returns (moves: seq<Move>)
    requires Books(l) && n <= |l.reservations|
    ensures LegalAll(l, moves) && forall i :: 0 <= i < |moves| ==> SweepMove(moves[i])
    ensures RecoverDispatched(l, project, month, now, n) == PlayAll(l, moves)
    ensures Drift(l.reservations, PlayAll(l, moves).reservations)
    ensures Cleared(l.reservations, PlayAll(l, moves).reservations, Dispatched, project, month, now, n)
    decreases n
  {
    hide Bookkeeping.Books, Drift, RowDrifts, Cleared;
    moves := [];
    EmptyDrift(l.reservations);
    NothingCleared(l.reservations, Dispatched, project, month, now);
    if n > 0 {
      moves := RecoverMoves(l, project, month, now, n - 1);
      var r := l.reservations[n - 1];
      if Expired(r, project, month, now) && r.phase == Dispatched {
        var before := PlayAll(l, moves);
        ClearedKeeps(l.reservations, before.reservations, Dispatched, project, month, now, n - 1);
        SettledRow(before, n - 1, RecoveryMeter(n - 1));
        SettlingDrifts(r);
        DriftStep(l.reservations, before.reservations, n - 1, r.(phase := Settled));
        ClearedNext(l.reservations, before.reservations, Dispatched, project, month, now, n - 1, r.(phase := Settled));
        SettleIsLegal(before, n - 1);
        PlayMore(l, moves, SettleBy(n - 1, RecoveryMeter(n - 1)));
        moves := moves + [SettleBy(n - 1, RecoveryMeter(n - 1))];
      } else {
        ClearedSkip(l.reservations, PlayAll(l, moves).reservations, Dispatched, project, month, now, n - 1);
      }
    }
  }

  lemma {:induction false} NothingCleared(rows: seq<Reservation>, phase: Phase, project: Name, month: Name, now: Instant)
    ensures Cleared(rows, rows, phase, project, month, now, 0)
  {
  }

  lemma {:induction false} ClearedKeeps(rows: seq<Reservation>, rows': seq<Reservation>, phase: Phase, project: Name, month: Name, now: Instant, n: nat)
    requires Cleared(rows, rows', phase, project, month, now, n) && n < |rows|
    ensures |rows'| == |rows| && rows'[n] == rows[n]
  {
  }

  lemma {:induction false} ClearedNext(rows: seq<Reservation>, rows': seq<Reservation>, phase: Phase, project: Name, month: Name, now: Instant, n: nat, row: Reservation)
    requires Cleared(rows, rows', phase, project, month, now, n) && n < |rows| == |rows'| && row.phase != phase
    ensures Cleared(rows, rows'[n := row], phase, project, month, now, n + 1)
  {
  }

  lemma {:induction false} ClearedSkip(rows: seq<Reservation>, rows': seq<Reservation>, phase: Phase, project: Name, month: Name, now: Instant, n: nat)
    requires Cleared(rows, rows', phase, project, month, now, n) && n < |rows|
    requires !(Expired(rows[n], project, month, now) && rows[n].phase == phase)
    ensures Cleared(rows, rows', phase, project, month, now, n + 1)
  {
  }

  lemma {:induction false} SettleIsLegal(l: Ledger, q: nat)
    requires q < |l.reservations| && l.reservations[q].phase == Dispatched
    ensures Legal(l, SettleBy(q, RecoveryMeter(q)))
  {
  }

  lemma {:induction false} PlayConcat(l: Ledger, first: seq<Move>, second: seq<Move>)
    requires LegalAll(l, first) && LegalAll(PlayAll(l, first), second)
    ensures LegalAll(l, first + second) && PlayAll(l, first + second) == PlayAll(PlayAll(l, first), second)
    decreases |first|
  {
    if first == [] {
      assert first + second == second;
    } else {
      PlayConcat(Play(l, first[0]), first[1..], second);
      assert (first + second)[1..] == first[1..] + second;
    }
  }

  lemma {:induction false} SweepMonthMoves(l: Ledger, project: Name, month: Name, now: Instant) returns (moves: seq<Move>)
    requires Books(l)
    ensures LegalAll(l, moves) && forall i :: 0 <= i < |moves| ==> SweepMove(moves[i])
    ensures SweepMonth(l, project, month, now) == Some(PlayAll(l, moves))
    ensures var rows := PlayAll(l, moves).reservations;
      Drift(l.reservations, rows) && forall i :: 0 <= i < |rows| ==> !Expired(rows[i], project, month, now)
  {
    var first := ExpireMoves(l, project, month, now, |l.reservations|);
    var expired := PlayAll(l, first);
    PlayAllKeepsBooks(l, first);
    var second := RecoverMoves(expired, project, month, now, |expired.reservations|);
    PlayConcat(l, first, second);
    moves := first + second;
    var rows := PlayAll(l, moves).reservations;
    DriftTransitive(l.reservations, expired.reservations, rows);
    forall i | 0 <= i < |rows| ensures !Expired(rows[i], project, month, now) {
      assert RowDrifts(expired.reservations[i], rows[i]);
    }
  }

  lemma {:induction false} SweepMoves(l: Ledger, project: Name, months: seq<Name>, now: Instant) returns (moves: seq<Move>)
    requires Books(l)
    ensures LegalAll(l, moves) && forall i :: 0 <= i < |moves| ==> SweepMove(moves[i])
    ensures SweepMonths(l, project, months, now) == Some(PlayAll(l, moves))
    ensures var rows := PlayAll(l, moves).reservations;
      && Drift(l.reservations, rows)
      && forall i :: 0 <= i < |rows| && rows[i].month in months ==> !Expired(rows[i], project, rows[i].month, now)
    decreases |months|
  {
    moves := [];
    if months != [] {
      var front, month := months[..|months| - 1], months[|months| - 1];
      var first := SweepMoves(l, project, front, now);
      var before := PlayAll(l, first);
      PlayAllKeepsBooks(l, first);
      var second := SweepMonthMoves(before, project, month, now);
      PlayConcat(l, first, second);
      moves := first + second;
      var rows := PlayAll(l, moves).reservations;
      DriftTransitive(l.reservations, before.reservations, rows);
      forall i | 0 <= i < |rows| && rows[i].month in months
        ensures !Expired(rows[i], project, rows[i].month, now)
      {
        if rows[i].month != month {
          assert rows[i].month in front;
          assert RowDrifts(before.reservations[i], rows[i]);
          assert !Expired(before.reservations[i], project, rows[i].month, now);
        }
      }
    }
  }

  predicate StrictlySorted(months: seq<Name>) {
    forall i, j :: 0 <= i < j < |months| ==> months[i] < months[j]
  }

  lemma {:induction false} InsertMonthSorts(months: seq<Name>, month: Name)
    requires StrictlySorted(months)
    ensures StrictlySorted(InsertMonth(months, month))
    ensures forall m :: m in InsertMonth(months, month) <==> m in months || m == month
    decreases |months|
  {
    if months != [] && month > months[0] {
      InsertMonthSorts(months[1..], month);
      assert forall m :: m in months <==> m == months[0] || m in months[1..];
    }
  }

  /** The locked months are in strict order and are exactly the current one and those with lapsed rows. */
  lemma {:induction false} QuotaMonthsExact(rows: seq<Reservation>, project: Name, now: Instant)
    ensures StrictlySorted(QuotaMonths(rows, project, now))
    ensures forall m :: m in QuotaMonths(rows, project, now) <==>
      m == now.month || exists i :: 0 <= i < |rows| && Expired(rows[i], project, m, now)
    decreases |rows|
  {
    if rows != [] {
      var front, last := rows[..|rows| - 1], rows[|rows| - 1];
      QuotaMonthsExact(front, project, now);
      var months := QuotaMonths(front, project, now);
      if Expired(last, project, last.month, now) {
        InsertMonthSorts(months, last.month);
      }
      forall m ensures m in QuotaMonths(rows, project, now) <==>
        m == now.month || exists i :: 0 <= i < |rows| && Expired(rows[i], project, m, now)
      {
        if i :| 0 <= i < |rows| && Expired(rows[i], project, m, now) {
          if i < |front| {
            assert Expired(front[i], project, m, now);
          }
        }
        if Expired(last, project, m, now) {
          assert Expired(rows[|rows| - 1], project, m, now);
        }
        if i :| 0 <= i < |front| && Expired(front[i], project, m, now) {
          assert Expired(rows[i], project, m, now);
        }
      }
    }
  }

  /** After the sweep of an admission no reservation of the project is lapsed, in any month. */
  lemma {:induction false} AdmissionSweep(l: Ledger, project: Name, now: Instant) returns (moves: seq<Move>)
    requires Books(l)
    ensures LegalAll(l, moves) && forall i :: 0 <= i < |moves| ==> SweepMove(moves[i])
    ensures SweepMonths(l, project, QuotaMonths(l.reservations, project, now), now) == Some(PlayAll(l, moves))
    ensures Drift(l.reservations, PlayAll(l, moves).reservations)
    ensures forall r :: r in PlayAll(l, moves).reservations ==> !Expired(r, project, r.month, now)
  {
    var months := QuotaMonths(l.reservations, project, now);
    moves := SweepMoves(l, project, months, now);
    QuotaMonthsExact(l.reservations, project, now);
    var rows := PlayAll(l, moves).reservations;
    forall i | 0 <= i < |rows| ensures !Expired(rows[i], project, rows[i].month, now) {
      if Expired(rows[i], project, rows[i].month, now) {
        assert RowDrifts(l.reservations[i], rows[i]);
        assert Expired(l.reservations[i], project, rows[i].month, now);
      }
    }
  }

  // ---------------------------------------------------------------- reserve

  /** The state after the sweep, with the legal moves that lead to it. */
  ghost predicate SweptBy(l: Ledger, project: Name, now: Instant, moves: seq<Move>, swept: Ledger) {
    && LegalAll(l, moves) && swept == PlayAll(l, moves)
    && (forall i :: 0 <= i < |moves| ==> SweepMove(moves[i]))
    && Drift(l.reservations, swept.reservations)
    && (forall r :: r in swept.reservations ==> !Expired(r, project, r.month, now))
  }

  /** The insertion an admission plays after its sweep. */
  function Admission(t: Tables, swept: Ledger, a: Attempt, readOnly: bool, p: Policy, now: Instant): Option<Move> {
    var claimed := ClaimCounters(t.(ledger := swept), a, readOnly, p, now);
    if claimed.Err? then None else Some(Insert(NewReservation(a, p, now, claimed.value.1), claimed.value.0))
  }

  /** A reserve commits nothing, or its sweep, or its sweep and one insertion under the hard limit. */
  lemma {:induction false} ReserveMoves(t: Tables, a: Attempt, readOnly: bool, p: Policy, now: Instant)
    returns (moves: seq<Move>, swept: Ledger)
    requires Books(t.ledger) && Owned(t.ledger, ReserveCall(a, readOnly, p, now))
    ensures SweptBy(t.ledger, a.project, now, moves, swept)
    ensures var (t', reply) := Reserve(t, a, readOnly, p, now);
      if reply.Reserved? then
        var m := Admission(t, swept, a, readOnly, p, now);
        && m.Some? && Legal(swept, m.value) && t'.ledger == Play(swept, m.value)
        && reply == Reserved(|t.ledger.reservations|, now.month)
        && Projected(swept, a.project, now.month, now).Some?
        && (p.e.hard > 0 ==> Projected(swept, a.project, now.month, now).value <= p.e.hard)
      else t'.ledger == t.ledger || t'.ledger == swept
  {
    moves := AdmissionSweep(t.ledger, a.project, now);
    swept := PlayAll(t.ledger, moves);
    if Reserve(t, a, readOnly, p, now).1.Reserved? {
      ClaimCountersExact(t.(ledger := swept), a, readOnly, p, now);
    }
  }

  // ------------------------------------------------------ every other transaction

  lemma {:induction false} ReconcileMoves(t: Tables, cmd: Command, now: Instant) returns (moves: seq<Move>)
    requires Books(t.ledger)
    ensures LegalAll(t.ledger, moves) && |moves| <= 1
    ensures PlayAll(t.ledger, moves) == Reconcile(t, cmd, now).0.ledger
    ensures |moves| == 1 ==> !moves[0].Insert? && !moves[0].DispatchTill?
    ensures |moves| == 1 && !moves[0].Extra? ==>
      cmd.key in t.claims && t.ledger.reservations[moves[0].q].creator == t.claims[cmd.key].owner
    ensures |moves| == 1 && moves[0].RefundRelease? ==>
      Reconcile(t, cmd, now).1 == Done && cmd.resolution.ProvenNotDispatched?
    ensures |moves| == 1 && moves[0].Extra? ==>
      && Refusal(t, cmd, now).None? && cmd.resolution == ProviderOutcomeKnown(true)
      && moves[0].e.project == cmd.key.project && moves[0].e.meter == ActionMeter(t.claims[cmd.key].owner)
      && moves[0].e.source == ExactReservation(t, cmd) && moves[0].month == ChargedMonth(t, cmd, now)
      && (moves[0].e.source.Some? ==> t.ledger.reservations[moves[0].e.source.value].phase == Settled)
    ensures Refusal(t, cmd, now).None? && Overcharging(t, cmd) ==> |moves| == 1 && moves[0].Extra?
  {
    moves := [];
    if Reconcile(t, cmd, now).1 == Done {
      var c := t.claims[cmd.key];
      var exact := ExactReservation(t, cmd);
      if exact.None? {
        if cmd.resolution == ProviderOutcomeKnown(true) {
          moves := OneMove(t.ledger, Extra(Event(cmd.key.project, ActionMeter(c.owner), c.id.account, now, None), now.month));
        }
      } else {
        var q := exact.value;
        var r := t.ledger.reservations[q];
        if cmd.resolution.ProvenNotDispatched? {
          moves := OneMove(t.ledger, RefundRelease(q));
        } else if !cmd.resolution.succeeded {
          if r.phase != Released {
            moves := OneMove(t.ledger, Release(q));
          }
        } else if r.phase == Dispatched {
          moves := OneMove(t.ledger, SettleBy(q, ActionMeter(c.owner)));
        } else {
          moves := OneMove(t.ledger, Extra(Event(r.project, ActionMeter(c.owner), c.id.account, r.createdAt, Some(q)), r.month));
        }
      }
    }
  }

  /** The branch of an operator's resolution that writes usage without settling a reservation:
      the provider is said to have succeeded, and the claim's reservation is missing or already settled. */
  predicate Overcharging(t: Tables, cmd: Command) {
    && cmd.key in t.claims && cmd.resolution == ProviderOutcomeKnown(true)
    && var exact := ExactReservation(t, cmd);
       exact.None? || t.ledger.reservations[exact.value].phase == Settled
  }

  /** The month such a command charges: its reservation's, or the current one. */
  function ChargedMonth(t: Tables, cmd: Command, now: Instant): Name
    requires cmd.key in t.claims
  {
    var exact := ExactReservation(t, cmd);
    if exact.None? then now.month else t.ledger.reservations[exact.value].month
  }

  lemma {:induction false} TimeoutMoves(t: Tables, a: Attempt, outcome: Outcome, pick: Option<nat>) returns (moves: seq<Move>)
    requires Books(t.ledger) && IsLatestCandidate(t, a, pick)
    ensures LegalAll(t.ledger, moves) && |moves| <= 1
    ensures PlayAll(t.ledger, moves) == FinishReadTimeout(t, a, outcome, pick).0.ledger
    ensures |moves| == 1 ==>
      && pick.Some?
      && (moves[0] == RefundRelease(pick.value) || moves[0] == SettleBy(pick.value, ActionMeter(a.request)))
      && (t.ledger.reservations[pick.value].creator == a.request || t.ledger.reservations[pick.value].phase == Pending)
  {
    moves := [];
    if a.key.Some? && OwnsClaim(t, KeyOf(a), a.request) && pick.Some? {
      var q := pick.value;
      var r := t.ledger.reservations[q];
      if r.phase == Dispatched && t.claims[KeyOf(a)].dispatched && outcome != NotDispatched {
        moves := OneMove(t.ledger, SettleBy(q, ActionMeter(a.request)));
      } else {
        RefundConserves(t.ledger, q);
        moves := OneMove(t.ledger, RefundRelease(q));
      }
    }
  }

  lemma {:induction false} ReleaseMoves(t: Tables, a: Attempt, q: nat, month: Name, refund: bool) returns (moves: seq<Move>)
    requires Books(t.ledger)
    ensures LegalAll(t.ledger, moves) && |moves| <= 1
    ensures PlayAll(t.ledger, moves) == ReleaseReservation(t, a, q, month, true, refund, refund).0.ledger
    ensures |moves| == 1 ==> moves[0] == if refund then RefundRelease(q) else Release(q)
  {
    moves := [];
    if Finds(t, a, q, month) && Active(t.ledger.reservations[q]) {
      if refund {
        RefundConserves(t.ledger, q);
        moves := OneMove(t.ledger, RefundRelease(q));
      } else {
        moves := OneMove(t.ledger, Release(q));
      }
    }
  }

  lemma {:induction false} FenceMoves(t: Tables, c: Call) returns (moves: seq<Move>)
    requires Owned(t.ledger, c) && (c.BindCall? || c.MarkCall?)
    ensures LegalAll(t.ledger, moves) && |moves| <= 1
    ensures PlayAll(t.ledger, moves) == Exec(t, c).0.ledger
    ensures |moves| == 1 ==> !moves[0].Insert? && !moves[0].Extra? && moves[0].q == c.q && if c.BindCall? then moves[0].BindTo? else moves[0].DispatchTill?
  {
    moves := [];
    if c.BindCall? {
      if Bind(t, c.a, c.q, c.month).0.ledger != t.ledger {
        moves := OneMove(t.ledger, BindTo(c.q, c.a.request));
      }
    } else if Mark(t, c.a, c.q, c.month, c.revision, c.now).0.ledger != t.ledger {
      moves := OneMove(t.ledger, DispatchTill(c.q, c.now.ms + DAY_MS));
    }
  }

  lemma {:induction false} FinishMoves(t: Tables, c: Call) returns (moves: seq<Move>)
    requires Books(t.ledger) && Owned(t.ledger, c)
    requires c.FinishCall? || c.FinishReadFailureCall? || c.FinishNotDispatchedCall?
    ensures LegalAll(t.ledger, moves) && |moves| <= 1
    ensures PlayAll(t.ledger, moves) == Exec(t, c).0.ledger
    ensures |moves| == 1 ==>
      moves[0] == if c.FinishNotDispatchedCall? then RefundRelease(c.q) else SettleBy(c.q, ActionMeter(c.a.request))
  {
    moves := [];
    if Exec(t, c).0.ledger != t.ledger {
      if c.FinishNotDispatchedCall? {
        moves := OneMove(t.ledger, RefundRelease(c.q));
      } else {
        moves := OneMove(t.ledger, SettleBy(c.q, ActionMeter(c.a.request)));
      }
    }
  }

  /** Any transaction a request makes on its own reservation is at most one legal move. */
  lemma {:induction false} RequestMoves(t: Tables, c: Call) returns (moves: seq<Move>)
    requires Books(t.ledger) && Owned(t.ledger, c) && Executable(t, c)
    requires !c.ReserveCall? && !c.ReconcileCall?
    ensures LegalAll(t.ledger, moves) && |moves| <= 1
    ensures PlayAll(t.ledger, moves) == Exec(t, c).0.ledger
    ensures |moves| == 1 ==> !moves[0].Extra? && !moves[0].Insert?
    ensures |moves| == 1 && moves[0].DispatchTill? ==> c.MarkCall?
    ensures |moves| == 1 && moves[0].SettleBy? ==> moves[0].meter == ActionMeter(c.a.request)
    ensures |moves| == 1 && moves[0].RefundRelease? ==>
      c.ReleaseNotDispatchedCall? || c.FinishNotDispatchedCall? || c.FinishReadTimeoutCall?
    ensures |moves| == 1 && moves[0].RefundRelease? ==>
      t.ledger.reservations[moves[0].q].creator == c.a.request || t.ledger.reservations[moves[0].q].phase == Pending
  {
    moves := [];
    match c {
      case BindCall(_, _, _) => moves := FenceMoves(t, c);
      case MarkCall(_, _, _, _, _) => moves := FenceMoves(t, c);
      case ReleaseQuotaCall(a, q, month) => moves := ReleaseMoves(t, a, q, month, false);
      case ReleaseNotDispatchedCall(a, q, month) => moves := ReleaseMoves(t, a, q, month, true);
      case FinishNotDispatchedCall(_, _, _) => moves := FinishMoves(t, c);
      case FinishCall(_, _, _, _) => moves := FinishMoves(t, c);
      case FinishReadFailureCall(_, _, _) => moves := FinishMoves(t, c);
      case FinishReadTimeoutCall(a, outcome, pick) => moves := TimeoutMoves(t, a, outcome, pick);
      case _ =>
    }
  }

  lemma {:induction false} ReserveKeepsBooks(t: Tables, a: Attempt, readOnly: bool, p: Policy, now: Instant)
    requires Books(t.ledger) && Owned(t.ledger, ReserveCall(a, readOnly, p, now))
    ensures var l' := Reserve(t, a, readOnly, p, now).0.ledger; Books(l') && LedgerGrows(t.ledger, l')
  {
    var moves, swept := ReserveMoves(t, a, readOnly, p, now);
    PlayAllKeepsBooks(t.ledger, moves);
    PlayAllKeepsBooks(t.ledger, []);
    if Reserve(t, a, readOnly, p, now).1.Reserved? {
      var m := Admission(t, swept, a, readOnly, p, now).value;
      PlayKeepsBooks(swept, m);
      PlayGrows(swept, m);
      GrowsTransitive(t.ledger, swept, Play(swept, m));
    }
  }

  /** Every transaction keeps the books and only grows the ledger. */
  lemma {:induction false} ExecKeepsBooks(t: Tables, c: Call)
    requires Books(t.ledger) && Owned(t.ledger, c) && Executable(t, c)
    ensures Books(Exec(t, c).0.ledger) && LedgerGrows(t.ledger, Exec(t, c).0.ledger)
  {
    if c.ReserveCall? {
      ReserveKeepsBooks(t, c.a, c.readOnly, c.policy, c.now);
    } else if c.ReconcileCall? {
      var moves := ReconcileMoves(t, c.cmd, c.now);
      PlayAllKeepsBooks(t.ledger, moves);
    } else {
      var moves := RequestMoves(t, c);
      PlayAllKeepsBooks(t.ledger, moves);
    }
  }

  // ------------------------------------------------------------ usage exactness

  /** An operator command that would write a usage event without settling a reservation. */
  predicate Overcharges(t: Tables, c: Call) {
    c.ReconcileCall? && Refusal(t, c.cmd, c.now).None? && Overcharging(t, c.cmd)
    && !Metered(t.ledger, c.cmd.key.project, ActionMeter(t.claims[c.cmd.key].owner))
  }

  lemma {:induction false} ReserveKeepsUsage(t: Tables, a: Attempt, readOnly: bool, p: Policy, now: Instant)
    requires Books(t.ledger) && UsageExact(t.ledger) && Owned(t.ledger, ReserveCall(a, readOnly, p, now))
    ensures UsageExact(Reserve(t, a, readOnly, p, now).0.ledger)
  {
    var moves, swept := ReserveMoves(t, a, readOnly, p, now);
    PlayAllKeepsBooks(t.ledger, moves);
    PlayAllKeepsUsage(t.ledger, moves);
    if Reserve(t, a, readOnly, p, now).1.Reserved? {
      PlayKeepsUsage(swept, Admission(t, swept, a, readOnly, p, now).value);
    }
  }

  lemma {:induction false} ReconcileKeepsUsageIff(t: Tables, cmd: Command, now: Instant)
    requires Books(t.ledger) && UsageExact(t.ledger)
    ensures UsageExact(Reconcile(t, cmd, now).0.ledger) <==> !Overcharges(t, ReconcileCall(cmd, now))
  {
    var moves := ReconcileMoves(t, cmd, now);
    if moves != [] {
      assert moves[1..] == [];
      if Fair(t.ledger, moves[0]) {
        PlayKeepsUsage(t.ledger, moves[0]);
      } else {
        ExtraBreaksUsage(t.ledger, moves[0].e, moves[0].month);
      }
    }
  }

  /** Usage stays exact across a transaction exactly when it is not an overcharging operator command. */
  lemma {:induction false} ExecKeepsUsageIff(t: Tables, c: Call)
    requires Books(t.ledger) && UsageExact(t.ledger) && Owned(t.ledger, c) && Executable(t, c)
    ensures UsageExact(Exec(t, c).0.ledger) <==> !Overcharges(t, c)
  {
    if c.ReserveCall? {
      ReserveKeepsUsage(t, c.a, c.readOnly, c.policy, c.now);
    } else if c.ReconcileCall? {
      ReconcileKeepsUsageIff(t, c.cmd, c.now);
    } else {
      var moves := RequestMoves(t, c);
      PlayAllKeepsUsage(t.ledger, moves);
    }
  }

  // ----------------------------------------------------------------- hard quota

  ghost predicate WithinQuota(l: Ledger, project: Name, hard: nat) {
    forall month: Name :: Committed(l, project, month) <= hard
  }

  /** The transaction admits under the hard limit `hard` whenever it admits for `project`. */
  predicate AdmitsUnder(c: Call, project: Name, hard: nat) {
    c.ReserveCall? && c.a.project == project ==> c.policy.e.hard == hard
  }

  /** Right after the sweep the unexpired reservations are all the active ones. */
  lemma {:induction false} LiveIsActive(l: Ledger, project: Name, now: Instant)
    requires forall r :: r in l.reservations ==> !Expired(r, project, r.month, now)
    ensures Sum(l.reservations, LiveIn(project, now.month, now)) == Sum(l.reservations, ActiveIn(project, now.month))
  {
    forall i | 0 <= i < |l.reservations|
      ensures LiveIn(project, now.month, now)(l.reservations[i]) == ActiveIn(project, now.month)(l.reservations[i])
    {
      assert l.reservations[i] in l.reservations;
    }
    SumSame(l.reservations, LiveIn(project, now.month, now), l.reservations, ActiveIn(project, now.month));
  }

  lemma {:induction false} ReserveKeepsQuota(t: Tables, a: Attempt, readOnly: bool, p: Policy, now: Instant, project: Name, hard: nat)
    requires Books(t.ledger) && Owned(t.ledger, ReserveCall(a, readOnly, p, now))
    requires hard > 0 && WithinQuota(t.ledger, project, hard)
    requires a.project == project ==> p.e.hard == hard
    ensures WithinQuota(Reserve(t, a, readOnly, p, now).0.ledger, project, hard)
  {
    var moves, swept := ReserveMoves(t, a, readOnly, p, now);
    var (t', reply) := Reserve(t, a, readOnly, p, now);
    LiveIsActive(swept, a.project, now);
    forall month: Name ensures Committed(t'.ledger, project, month) <= hard {
      PlayAllCommits(t.ledger, moves, project, month);
      if reply.Reserved? {
        PlayCommits(swept, Admission(t, swept, a, readOnly, p, now).value, project, month);
      }
    }
  }

  lemma {:induction false} ShortKeepsQuota(l: Ledger, moves: seq<Move>, project: Name, hard: nat)
    requires LegalAll(l, moves) && |moves| <= 1 && WithinQuota(l, project, hard)
    requires |moves| == 1 ==> Fair(l, moves[0]) && !moves[0].Insert?
    ensures WithinQuota(PlayAll(l, moves), project, hard)
  {
    if moves != [] {
      assert moves[1..] == [];
      forall month: Name ensures Committed(PlayAll(l, moves), project, month) <= hard {
        PlayCommits(l, moves[0], project, month);
      }
    }
  }

  /** No transaction but an overcharging operator command lets a project-month pass its hard limit. */
  lemma {:induction false} ExecKeepsQuota(t: Tables, c: Call, project: Name, hard: nat)
    requires Books(t.ledger) && Owned(t.ledger, c) && Executable(t, c) && !Overcharges(t, c)
    requires hard > 0 && AdmitsUnder(c, project, hard) && WithinQuota(t.ledger, project, hard)
    ensures WithinQuota(Exec(t, c).0.ledger, project, hard)
  {
    if c.ReserveCall? {
      ReserveKeepsQuota(t, c.a, c.readOnly, c.policy, c.now, project, hard);
    } else if c.ReconcileCall? {
      var moves := ReconcileMoves(t, c.cmd, c.now);
      ShortKeepsQuota(t.ledger, moves, project, hard);
    } else {
      var moves := RequestMoves(t, c);
      ShortKeepsQuota(t.ledger, moves, project, hard);
    }
  }

  /** The command overcharges a month of `project` that has nothing left under its hard limit. */
  predicate BreaksQuota(t: Tables, c: Call, project: Name, hard: nat) {
    Overcharges(t, c) && c.cmd.key.project == project
    && Committed(t.ledger, project, ChargedMonth(t, c.cmd, c.now)) == hard
  }

  /** An overcharging command commits exactly one more, in the month it charges. */
  lemma {:induction false} OverchargeCommits(t: Tables, cmd: Command, now: Instant, project: Name, month: Name)
    requires Books(t.ledger) && Overcharges(t, ReconcileCall(cmd, now))
    ensures Committed(Reconcile(t, cmd, now).0.ledger, project, month) == Committed(t.ledger, project, month)
      + if project == cmd.key.project && month == ChargedMonth(t, cmd, now) then 1 else 0
  {
    hide Bookkeeping.Books, Bookkeeping.Committed, Transactions.Reconcile, Transactions.Refusal;
    var moves := ReconcileMoves(t, cmd, now);
    assert moves[1..] == [];
    ExtraCommits(t.ledger, moves[0].e, moves[0].month, project, month);
  }

  /** A transaction keeps every month of a project within its hard limit exactly when it is not such a command. */
  lemma {:induction false} ExecKeepsQuotaIff(t: Tables, c: Call, project: Name, hard: nat)
    requires Books(t.ledger) && Owned(t.ledger, c) && Executable(t, c)
    requires hard > 0 && AdmitsUnder(c, project, hard) && WithinQuota(t.ledger, project, hard)
    ensures WithinQuota(Exec(t, c).0.ledger, project, hard) <==> !BreaksQuota(t, c, project, hard)
  {
    hide Bookkeeping.Books, Bookkeeping.Committed, Transactions.Reconcile, Transactions.Refusal, Owned;
    if Overcharges(t, c) {
      forall month: Name ensures Committed(Exec(t, c).0.ledger, project, month) == Committed(t.ledger, project, month)
        + if project == c.cmd.key.project && month == ChargedMonth(t, c.cmd, c.now) then 1 else 0
      {
        OverchargeCommits(t, c.cmd, c.now, project, month);
      }
      assert BreaksQuota(t, c, project, hard) ==>
        Committed(Exec(t, c).0.ledger, project, ChargedMonth(t, c.cmd, c.now)) == hard + 1;
    } else {
      ExecKeepsQuota(t, c, project, hard);
    }
  }

  // ------------------------------------------------------------- send and spend caps

  /** A cap of zero is no cap. */
  ghost predicate WithinCaps(counters: map<Window, Counter>, project: Name, sendCap: nat, spendCap: nat) {
    forall w: Window :: w.SendWindow? && w.project == project ==>
      && (sendCap > 0 ==> Amount(counters, w, false) <= sendCap)
      && (spendCap > 0 ==> Amount(counters, w, true) <= spendCap)
  }

  predicate CapsUnder(c: Call, project: Name, sendCap: nat, spendCap: nat) {
    c.ReserveCall? && c.a.project == project ==> c.policy.e.sendCap == sendCap && c.policy.e.spendCap == spendCap
  }

  lemma {:induction false} ClaimWindowsSparesSends(
    counters: map<Window, Counter>, project: Name, account: Name, actionClass: Name, limits: seq<Limit>, n: nat)
    requires n <= |limits|
    ensures var claimed := ClaimWindows(counters, project, account, actionClass, limits, n);
      claimed.Ok? ==> forall w: Window, money: bool :: w.SendWindow? ==>
        Amount(claimed.value.0, w, money) == Amount(counters, w, money)
    decreases n
  {
    if n > 0 {
      ClaimWindowsSparesSends(counters, project, account, actionClass, limits, n - 1);
    }
  }

  lemma {:induction false} ClaimKeepsCaps(t: Tables, a: Attempt, readOnly: bool, p: Policy, now: Instant, project: Name, sendCap: nat, spendCap: nat)
    requires WithinCaps(t.ledger.counters, project, sendCap, spendCap)
    requires a.project == project ==> p.e.sendCap == sendCap && p.e.spendCap == spendCap
    requires ClaimCounters(t, a, readOnly, p, now).Ok?
    ensures WithinCaps(ClaimCounters(t, a, readOnly, p, now).value.0, project, sendCap, spendCap)
  {
    if p.routing.Paced? {
      var plan := p.routing.plan;
      ClaimWindowsSparesSends(t.ledger.counters, a.project, a.id.account, plan.actionClass, plan.limits, |plan.limits|);
    }
    var planned := ClaimPlan(t, a, p.routing, now).value.0;
    assert forall w: Window, money: bool :: w.SendWindow? ==> Amount(planned, w, money) == Amount(t.ledger.counters, w, money);
  }

  lemma {:induction false} QuietKeepsCaps(l: Ledger, moves: seq<Move>, project: Name, sendCap: nat, spendCap: nat)
    requires Conserved(l) && LegalAll(l, moves) && WithinCaps(l.counters, project, sendCap, spendCap)
    requires forall i :: 0 <= i < |moves| ==> !moves[i].Insert?
    ensures WithinCaps(PlayAll(l, moves).counters, project, sendCap, spendCap)
  {
    forall w: Window, money: bool ensures Amount(PlayAll(l, moves).counters, w, money) <= Amount(l.counters, w, money) {
      PlayAllRaisesNothing(l, moves, w, money);
    }
  }

  /** With constant caps no transaction lets a day's sends or spend pass them. */
  lemma {:induction false} ExecKeepsCaps(t: Tables, c: Call, project: Name, sendCap: nat, spendCap: nat)
    requires Books(t.ledger) && Owned(t.ledger, c) && Executable(t, c)
    requires CapsUnder(c, project, sendCap, spendCap) && WithinCaps(t.ledger.counters, project, sendCap, spendCap)
    ensures WithinCaps(Exec(t, c).0.ledger.counters, project, sendCap, spendCap)
  {
    if c.ReserveCall? {
      var moves, swept := ReserveMoves(t, c.a, c.readOnly, c.policy, c.now);
      QuietKeepsCaps(t.ledger, moves, project, sendCap, spendCap);
      if Reserve(t, c.a, c.readOnly, c.policy, c.now).1.Reserved? {
        ClaimKeepsCaps(t.(ledger := swept), c.a, c.readOnly, c.policy, c.now, project, sendCap, spendCap);
      }
    } else if c.ReconcileCall? {
      var moves := ReconcileMoves(t, c.cmd, c.now);
      QuietKeepsCaps(t.ledger, moves, project, sendCap, spendCap);
    } else {
      var moves := RequestMoves(t, c);
      QuietKeepsCaps(t.ledger, moves, project, sendCap, spendCap);
    }
  }
}
