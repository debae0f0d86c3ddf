/** What one transaction can do to the rows of other requests. */
module Isolation {
  import opened Wrappers
  import opened Schema
  import opened Ledgers
  import opened Evidence
  import opened Transactions
  import opened Conservation
  import opened Bookkeeping
  import opened Accounting

  /** Everybody's dispatched claim but the actor's stays; only the actor gains claims. */
  ghost predicate ClaimsSpared(t: Tables, t': Tables, actor: Name) {
    && (forall k :: k in t.claims && t.claims[k].dispatched && t.claims[k].owner != actor ==>
          k in t'.claims && t'.claims[k] == t.claims[k])
    && (forall k :: k in t'.claims && !(k in t.claims && t'.claims[k] == t.claims[k]) ==> t'.claims[k].owner == actor)
  }

  /** Records never change once written, and audits are only appended. */
  ghost predicate HistoryKept(t: Tables, t': Tables) {
    && (forall k :: k in t.records ==> k in t'.records && t'.records[k] == t.records[k])
    && t.audits <= t'.audits
  }

  /** Reservations of other requests only drift, and new ones are the actor's. */
  ghost predicate RowsSpared(rows: seq<Reservation>, rows': seq<Reservation>, actor: Name) {
    && |rows| <= |rows'|
    && (forall i :: 0 <= i < |rows| ==> rows'[i].creator == rows[i].creator)
    && (forall i :: 0 <= i < |rows| && rows[i].creator != actor ==> RowDrifts(rows[i], rows'[i]))
    && (forall i :: |rows| <= i < |rows'| ==> rows'[i].creator == actor)
  }

  ghost predicate Spares(t: Tables, t': Tables, actor: Name) {
    ClaimsSpared(t, t', actor) && HistoryKept(t, t') && RowsSpared(t.ledger.reservations, t'.ledger.reservations, actor)
  }

  /** The request a transaction acts for; an operator acts for the owner of the claim. */
  function ActorOf(t: Tables, c: Call): Name {
    if !c.ReconcileCall? then c.a.request
    else if c.cmd.key in t.claims then t.claims[c.cmd.key].owner
    else 0
  }

  lemma {:induction false} OneMoveSpares(l: Ledger, moves: seq<Move>, actor: Name)
    requires LegalAll(l, moves) && |moves| <= 1
    requires |moves| == 1 ==> match moves[0]
      case Insert(_, _) => false
      case Extra(_, _) => true
      case _ => l.reservations[moves[0].q].creator == actor
    ensures RowsSpared(l.reservations, PlayAll(l, moves).reservations, actor)
  {
    if moves != [] {
      assert moves[1..] == [];
      if moves[0].RefundRelease? && RefundAndRelease(l, l.reservations[moves[0].q].project, moves[0].q).Some? {
        RefundedRow(l, moves[0].q);
      }
    }
  }

  // ------------------------------------------------------------ claims and records

  /** The rows keyed by idempotency key: what a transaction may do to them for its actor. */
  ghost predicate KeyedSpared(t: Tables, t': Tables, actor: Name) {
    ClaimsSpared(t, t', actor) && HistoryKept(t, t')
  }

  lemma {:induction false} DropSpares(t: Tables, t1: Tables, a: Attempt)
    requires t1.claims == t.claims && HistoryKept(t, t1)
    ensures KeyedSpared(t, DropOwnClaim(t1, a), a.request) && KeyedSpared(t, DropOwnPendingClaim(t1, a), a.request)
  {
  }

  lemma {:induction false} FenceSpares(t: Tables, c: Call)
    requires c.AcquireCall? || c.BindCall? || c.MarkCall?
    ensures KeyedSpared(t, Exec(t, c).0, c.a.request)
  {
  }

  lemma {:induction false} ReleaseSpares(t: Tables, a: Attempt, q: nat, month: Name, refund: bool)
    ensures KeyedSpared(t, ReleaseReservation(t, a, q, month, true, refund, refund).0, a.request)
  {
    var open := Finds(t, a, q, month) && Active(t.ledger.reservations[q]);
    if open && refund {
      var released := RefundAndRelease(t.ledger, a.project, q);
      if released.Some? {
        DropSpares(t, t.(ledger := released.value), a);
      }
    } else if open {
      DropSpares(t, t.(ledger := SetPhase(t.ledger, q, Released)), a);
    } else {
      DropSpares(t, t, a);
    }
  }

  lemma {:induction false} FinishSpares(t: Tables, a: Attempt, q: nat, month: Name, output: Option<Name>)
    ensures KeyedSpared(t, Finish(t, a, q, month, output).0, a.request)
  {
    if Finds(t, a, q, month) && output.Some? {
      var settled := if t.ledger.reservations[q].phase == Dispatched then Settle(t, a, q) else t;
      DropSpares(t, if a.key.None? then settled else AddRecord(settled, KeyOf(a), a.id, output.value), a);
    }
  }

  lemma {:induction false} FailureSpares(t: Tables, a: Attempt, q: nat, month: Name)
    ensures KeyedSpared(t, FinishReadFailure(t, a, q, month).0, a.request)
    ensures KeyedSpared(t, FinishNotDispatched(t, a, q, month).0, a.request)
  {
    if Finds(t, a, q, month) {
      DropSpares(t, t, a);
      DropSpares(t, Settle(t, a, q), a);
      var released := RefundAndRelease(t.ledger, a.project, q);
      if released.Some? {
        DropSpares(t, t.(ledger := released.value), a);
      }
    }
  }

  lemma {:induction false} TimeoutSpares(t: Tables, a: Attempt, outcome: Outcome, pick: Option<nat>)
    requires IsLatestCandidate(t, a, pick)
    ensures KeyedSpared(t, FinishReadTimeout(t, a, outcome, pick).0, a.request)
  {
    DropSpares(t, t, a);
    if pick.Some? {
      DropSpares(t, Settle(t, a, pick.value), a);
      var released := RefundAndRelease(t.ledger, a.project, pick.value);
      if released.Some? {
        DropSpares(t, t.(ledger := released.value), a);
      }
    }
  }

  lemma {:induction false} ReserveSpares(t: Tables, a: Attempt, readOnly: bool, p: Policy, now: Instant)
    ensures KeyedSpared(t, Reserve(t, a, readOnly, p, now).0, a.request)
  {
  }

  lemma {:induction false} ReconcileSpares(t: Tables, cmd: Command, now: Instant)
    ensures KeyedSpared(t, Reconcile(t, cmd, now).0, ActorOf(t, ReconcileCall(cmd, now)))
  {
  }

  lemma {:induction false} ExecSparesKeyed(t: Tables, c: Call)
    requires Executable(t, c)
    ensures KeyedSpared(t, Exec(t, c).0, ActorOf(t, c))
  {
    match c {
      case AcquireCall(_, _, _) => FenceSpares(t, c);
      case ReserveCall(a, readOnly, p, now) => ReserveSpares(t, a, readOnly, p, now);
      case BindCall(_, _, _) => FenceSpares(t, c);
      case MarkCall(_, _, _, _, _) => FenceSpares(t, c);
      case ReleasePendingCall(a) => DropSpares(t, t, a);
      case ReleaseQuotaCall(a, q, month) => ReleaseSpares(t, a, q, month, false);
      case ReleaseNotDispatchedCall(a, q, month) => ReleaseSpares(t, a, q, month, true);
      case FinishNotDispatchedCall(a, q, month) => FailureSpares(t, a, q, month);
      case FinishCall(a, q, month, output) => FinishSpares(t, a, q, month, output);
      case FinishReadFailureCall(a, q, month) => FailureSpares(t, a, q, month);
      case FinishReadTimeoutCall(a, outcome, pick) => TimeoutSpares(t, a, outcome, pick);
      case ReconcileCall(cmd, now) => ReconcileSpares(t, cmd, now);
    }
  }

  // ---------------------------------------------------------------- reservations

  lemma {:induction false} TimeoutSparesRows(t: Tables, a: Attempt, outcome: Outcome, pick: Option<nat>)
    requires Books(t.ledger) && IsLatestCandidate(t, a, pick)
    ensures RowsSpared(t.ledger.reservations, FinishReadTimeout(t, a, outcome, pick).0.ledger.reservations, a.request)
  {
    var moves := TimeoutMoves(t, a, outcome, pick);
    if moves != [] {
      assert moves[1..] == [];
      if moves[0].RefundRelease? {
        RefundConserves(t.ledger, pick.value);
        RefundedRow(t.ledger, pick.value);
      } else {
        SettledRow(t.ledger, pick.value, ActionMeter(a.request));
      }
    }
  }

  lemma {:induction false} ReserveSparesRows(t: Tables, a: Attempt, readOnly: bool, p: Policy, now: Instant)
    requires Books(t.ledger) && Owned(t.ledger, ReserveCall(a, readOnly, p, now))
    ensures RowsSpared(t.ledger.reservations, Reserve(t, a, readOnly, p, now).0.ledger.reservations, a.request)
  {
    var moves, swept := ReserveMoves(t, a, readOnly, p, now);
  }

  lemma {:induction false} OwnMovesSpareRows(t: Tables, c: Call)
    requires Books(t.ledger) && Owned(t.ledger, c)
    requires c.BindCall? || c.MarkCall? || c.FinishCall? || c.FinishReadFailureCall? || c.FinishNotDispatchedCall?
          || c.ReleaseQuotaCall? || c.ReleaseNotDispatchedCall?
    ensures RowsSpared(t.ledger.reservations, Exec(t, c).0.ledger.reservations, c.a.request)
  {
    var moves;
    if c.BindCall? || c.MarkCall? {
      moves := FenceMoves(t, c);
    } else if c.ReleaseQuotaCall? {
      moves := ReleaseMoves(t, c.a, c.q, c.month, false);
    } else if c.ReleaseNotDispatchedCall? {
      moves := ReleaseMoves(t, c.a, c.q, c.month, true);
    } else {
      moves := FinishMoves(t, c);
    }
    OneMoveSpares(t.ledger, moves, c.a.request);
  }

  /** No transaction disturbs what other requests rely on. */
  lemma {:induction false} ExecSpares(t: Tables, c: Call)
    requires Books(t.ledger) && Owned(t.ledger, c) && Executable(t, c)
    ensures Spares(t, Exec(t, c).0, ActorOf(t, c))
  {
    ExecSparesKeyed(t, c);
    match c {
      case AcquireCall(_, _, _) =>
      case ReserveCall(a, readOnly, p, now) => ReserveSparesRows(t, a, readOnly, p, now);
      case ReleasePendingCall(_) =>
      case FinishReadTimeoutCall(a, outcome, pick) => TimeoutSparesRows(t, a, outcome, pick);
      case ReconcileCall(cmd, now) =>
        var moves := ReconcileMoves(t, cmd, now);
        OneMoveSpares(t.ledger, moves, ActorOf(t, c));
      case _ => OwnMovesSpareRows(t, c);
    }
  }
}
