/** A request that lost its claim can no longer record, meter, or touch anybody's claim. */
module Fencing {
  import opened Wrappers
  import opened Schema
  import opened Ledgers
  import opened Evidence
  import opened Transactions
  import opened Conservation
  import opened Bookkeeping
  import opened Accounting
  import opened Isolation
  import opened Service
  import opened Protocol
  import opened Preservation

  /** The keyed request asked for its claim before and does not own it now:
      it was taken over, released, finished or reconciled away. */
  predicate LostClaim(s: State, r: Name) {
    r in s.requests && s.requests[r].a.key.Some? && s.requests[r].pc != Acquiring
    && !OwnsClaim(s.tables, KeyOf(s.requests[r].a), r)
  }

  /** The events a step added carry no meter of `r`. */
  predicate NotMetered(l: Ledger, l': Ledger, r: Name) {
    l.events <= l'.events && forall i :: |l.events| <= i < |l'.events| ==> l'.events[i].meter != ActionMeter(r)
  }

  // ------------------------------------------------------------ its own transactions

  /** Called for a request without its claim, a finisher changes nothing at all. */
  lemma {:induction false} FencedFinishesFail(t: Tables, c: Call)
    requires Executable(t, c) && !c.ReserveCall? && !c.ReconcileCall? && !c.AcquireCall?
    requires c.a.key.Some? && !OwnsClaim(t, KeyOf(c.a), c.a.request)
    requires !c.BindCall? && !c.ReleaseQuotaCall? && !c.ReleaseNotDispatchedCall?
    ensures Exec(t, c).0 == t
  {
    hide Ledgers.SettleRow, Ledgers.RefundAndRelease;
  }

  lemma {:induction false} ShortMetering(l: Ledger, moves: seq<Move>, r: Name)
    requires LegalAll(l, moves) && |moves| <= 1
    requires |moves| == 1 ==> !(moves[0].SettleBy? && moves[0].meter == ActionMeter(r))
    requires |moves| == 1 ==> !(moves[0].Extra? && moves[0].e.meter == ActionMeter(r))
    ensures NotMetered(l, PlayAll(l, moves), r)
  {
    if moves != [] {
      assert moves[1..] == [];
      if moves[0].RefundRelease? && RefundAndRelease(l, l.reservations[moves[0].q].project, moves[0].q).Some? {
        RefundedRow(l, moves[0].q);
      }
    }
  }

  lemma {:induction false} SweepMetering(l: Ledger, moves: seq<Move>, r: Name)
    requires Books(l) && LegalAll(l, moves) && forall i :: 0 <= i < |moves| ==> SweepMove(moves[i])
    ensures NotMetered(l, PlayAll(l, moves), r)
    decreases |moves|
  {
    if moves != [] {
      assert [moves[0]][1..] == [];
      ShortMetering(l, [moves[0]], r);
      PlayKeepsBooks(l, moves[0]);
      SweepMetering(Play(l, moves[0]), moves[1..], r);
    }
  }

  lemma {:induction false} ReserveMetering(t: Tables, a: Attempt, readOnly: bool, p: Policy, now: Instant, r: Name)
    requires Books(t.ledger) && Owned(t.ledger, ReserveCall(a, readOnly, p, now))
    ensures NotMetered(t.ledger, Reserve(t, a, readOnly, p, now).0.ledger, r)
  {
    hide Transactions.Reserve;
    var moves, swept := ReserveMoves(t, a, readOnly, p, now);
    SweepMetering(t.ledger, moves, r);
  }

  /** A transaction meters only the request it acts for. */
  lemma {:induction false} MetersOnlyActor(t: Tables, c: Call, r: Name)
    requires Books(t.ledger) && Owned(t.ledger, c) && Executable(t, c) && r != ActorOf(t, c)
    ensures NotMetered(t.ledger, Exec(t, c).0.ledger, r)
  {
    hide Bookkeeping.Books, NotMetered;
    if c.ReserveCall? {
      ReserveMetering(t, c.a, c.readOnly, c.policy, c.now, r);
    } else if c.ReconcileCall? {
      var moves := ReconcileMoves(t, c.cmd, c.now);
      ShortMetering(t.ledger, moves, r);
    } else {
      var moves := RequestMoves(t, c);
      ShortMetering(t.ledger, moves, r);
    }
  }

  /** Releasing or binding a reservation meters nothing and, without the claim, touches no claim. */
  lemma {:induction false} LostReleases(t: Tables, c: Call)
    requires Books(t.ledger) && Owned(t.ledger, c)
    requires c.BindCall? || c.ReleaseQuotaCall? || c.ReleaseNotDispatchedCall?
    requires c.a.key.Some? && !OwnsClaim(t, KeyOf(c.a), c.a.request)
    ensures Exec(t, c).0.claims == t.claims && Exec(t, c).0.records == t.records
    ensures NotMetered(t.ledger, Exec(t, c).0.ledger, c.a.request)
  {
    hide Ledgers.RefundAndRelease;
    var moves;
    if c.BindCall? {
      moves := FenceMoves(t, c);
    } else if c.ReleaseQuotaCall? {
      moves := ReleaseMoves(t, c.a, c.q, c.month, false);
    } else {
      moves := ReleaseMoves(t, c.a, c.q, c.month, true);
    }
    ShortMetering(t.ledger, moves, c.a.request);
  }

  lemma {:induction false} ReserveKeepsKeyed(t: Tables, a: Attempt, readOnly: bool, p: Policy, now: Instant)
    ensures Reserve(t, a, readOnly, p, now).0.claims == t.claims && Reserve(t, a, readOnly, p, now).0.records == t.records
  {
    hide Transactions.SweepMonths, Transactions.Projected, Transactions.ClaimCounters;
  }

  /** Any transaction of a request without its claim leaves claims and records alone and does not meter it. */
  lemma {:induction false} LostRequestInert(t: Tables, c: Call)
    requires Books(t.ledger) && Owned(t.ledger, c) && Executable(t, c) && !c.ReconcileCall? && !c.AcquireCall?
    requires c.a.key.Some? && !OwnsClaim(t, KeyOf(c.a), c.a.request)
    ensures Exec(t, c).0.claims == t.claims && Exec(t, c).0.records == t.records
    ensures NotMetered(t.ledger, Exec(t, c).0.ledger, c.a.request)
  {
    hide Bookkeeping.Books;
    if c.ReserveCall? {
      ReserveMetering(t, c.a, c.readOnly, c.policy, c.now, c.a.request);
      ReserveKeepsKeyed(t, c.a, c.readOnly, c.policy, c.now);
    } else if c.BindCall? || c.ReleaseQuotaCall? || c.ReleaseNotDispatchedCall? {
      LostReleases(t, c);
    } else {
      FencedFinishesFail(t, c);
    }
  }

  // --------------------------------------------------------------------- steps

  /** Nothing `r` does in this step changes a claim or a record. */
  ghost predicate Inert(s: State, step: Step, r: Name) {
    ActorIn(s, step) == r && !step.Operate? ==>
      Next(s, step).tables.claims == s.tables.claims && Next(s, step).tables.records == s.tables.records
  }

  lemma {:induction false} LostStep(s: State, step: Step, r: Name)
    requires Inv(s) && LostClaim(s, r)
    ensures Inert(s, step, r)
    ensures NotMetered(s.tables.ledger, Next(s, step).tables.ledger, r)
    ensures LostClaim(Next(s, step), r)
    ensures forall k :: k in Next(s, step).writer && Next(s, step).writer[k] == r ==> k in s.writer && s.writer[k] == r
  {
    hide Transactions.Exec, Protocol.Inv, Accounting.Owned, NotMetered, Inert;
    NothingMetered(s.tables.ledger, r);
    StillInert(s, step, r);
    if Enabled(s, step) {
      RequestsKept(s, step, r);
      OwnAttempt(s, r);
      if CallIn(s, step).Some? {
        CallIsOwned(s, step);
        InvBooks(s);
        LostTransaction(s, step, r);
      }
    }
  }

  lemma {:induction false} InvBooks(s: State)
    requires Inv(s)
    ensures Books(s.tables.ledger)
  {
  }

  lemma {:induction false} StillInert(s: State, step: Step, r: Name)
    ensures !Enabled(s, step) || CallIn(s, step).None? ==> Inert(s, step, r)
  {
    hide Transactions.Exec;
  }

  lemma {:induction false} NothingMetered(l: Ledger, r: Name)
    ensures NotMetered(l, l, r)
  {
  }

  lemma {:induction false} LostTransaction(s: State, step: Step, r: Name)
    requires Inv(s) && LostClaim(s, r) && Enabled(s, step) && CallIn(s, step).Some?
    requires Owned(s.tables.ledger, CallIn(s, step).value) && Books(s.tables.ledger)
    ensures Inert(s, step, r)
    ensures NotMetered(s.tables.ledger, TablesAfter(s, step).ledger, r)
    ensures !OwnsClaim(TablesAfter(s, step), KeyOf(s.requests[r].a), r)
    ensures forall k :: k in WriterAfter(s, step) && WriterAfter(s, step)[k] == r ==> k in s.writer && s.writer[k] == r
  {
    hide Transactions.Exec, Protocol.Inv, Accounting.Owned, NotMetered;
    var t, c := s.tables, CallIn(s, step).value;
    NothingMetered(t.ledger, r);
    OwnAttempt(s, r);
    if step.Operate? {
      OperatorSparesLost(s, step.cmd, r);
      if step.cmd.key in t.claims {
        MetersOnlyActor(t, c, r);
        ExecSparesKeyed(t, c);
      } else {
        NoClaimNoChange(t, step.cmd, step.now);
      }
    } else {
      OwnAttempt(s, step.request);
      if step.request == r {
        LostRequestInert(t, c);
      } else {
        MetersOnlyActor(t, c, r);
        ExecSparesKeyed(t, c);
      }
    }
  }

  lemma {:induction false} NoClaimNoChange(t: Tables, cmd: Command, now: Instant)
    requires cmd.key !in t.claims
    ensures Exec(t, ReconcileCall(cmd, now)).0 == t
  {
  }

  /** The operator's claim, if there is one, is not the lost request's. */
  lemma {:induction false} OperatorSparesLost(s: State, cmd: Command, r: Name)
    requires Inv(s) && LostClaim(s, r)
    ensures cmd.key in s.tables.claims ==> s.tables.claims[cmd.key].owner != r
  {
  }

  /** The ledger's events gained no meter of `r`; composing two such stretches of a run. */
  lemma {:induction false} MeteringComposes(l1: Ledger, l2: Ledger, l3: Ledger, r: Name)
    requires NotMetered(l1, l2, r) && NotMetered(l2, l3, r)
    ensures NotMetered(l1, l3, r)
  {
  }

  /** Ownership fencing: once a keyed request does not own its claim, then however the run goes on it never
      owns it again, writes no record, is never metered, and none of its steps changes a claim or a record. */
  lemma {:induction false} FencedForEver(steps: seq<Step>, more: seq<Step>, r: Name)
    requires LostClaim(Run(Initial, steps), r)
    ensures var s, s' := Run(Initial, steps), Run(Run(Initial, steps), more);
      && LostClaim(s', r)
      && NotMetered(s.tables.ledger, s'.tables.ledger, r)
      && (forall k :: k in s'.writer && s'.writer[k] == r ==> k in s.writer && s.writer[k] == r)
      && forall step :: Inert(s', step, r)
    decreases |more|
  {
    hide Protocol.Inv, Service.Next, NotMetered, LostClaim, Inert;
    var s, s' := Run(Initial, steps), Run(Run(Initial, steps), more);
    ReachableInv(steps);
    if more == [] {
      NothingMetered(s.tables.ledger, r);
    } else {
      var front := more[..|more| - 1];
      FencedForEver(steps, front, r);
      RunKeepsInv(s, front);
      LostStep(Run(s, front), more[|more| - 1], r);
      MeteringComposes(s.tables.ledger, Run(s, front).tables.ledger, s'.tables.ledger, r);
    }
    RunKeepsInv(s, more);
    forall step ensures Inert(s', step, r) {
      LostStep(s', step, r);
    }
  }
}
