/** What every transaction visibly does: when it is granted, and what changes in rows, totals and maps when it is.
    Nothing here mentions how a transaction computes it. */
module Effects {
  import opened Wrappers
  import opened Sums
  import opened Schema
  import opened Ledgers
  import opened Evidence
  import opened Transactions
  import opened Conservation
  import opened Bookkeeping
  import opened Accounting

  // -------------------------------------------------------------- vocabulary

  /** The calls that the rollups of an account and month add up to. */
  function Used(l: Ledger, project: Name, account: Name, month: Name): int {
    Sum(l.rollups, RollupIn(project, account, month))
  }

  ghost predicate RowBecomes(l: Ledger, l': Ledger, q: nat, row: Reservation) {
    q < |l.reservations| && l'.reservations == l.reservations[q := row]
  }

  /** The reservation is settled, one event says so, and the rollup of its month counts one more. */
  ghost predicate Charged(l: Ledger, l': Ledger, q: nat, meter: MeterKey) {
    q < |l.reservations| &&
    var r := l.reservations[q];
    && RowBecomes(l, l', q, r.(phase := Settled)) && l'.counters == l.counters
    && l'.events == l.events + [Event(r.project, meter, r.id.account, r.createdAt, Some(q))]
    && forall p: Name, a: Name, m: Name ::
         Used(l', p, a, m) == Used(l, p, a, m) + if p == r.project && a == r.id.account && m == r.month then 1 else 0
  }

  /** The reservation is released, and every window gets back exactly what its charges still counted there. */
  ghost predicate Refunded(l: Ledger, l': Ledger, q: nat) {
    q < |l.reservations| &&
    var r := l.reservations[q];
    && |l'.reservations| == |l.reservations|
    && RowBecomes(l, l', q, r.(phase := Released, charges := l'.reservations[q].charges))
    && |l'.reservations[q].charges| == |r.charges|
    && (forall j :: 0 <= j < |r.charges| ==> l'.reservations[q].charges[j] == r.charges[j].(refunded := true))
    && (forall w: Window, money: bool :: Amount(l'.counters, w, money) == Amount(l.counters, w, money) - OwedBy(r, w, money))
    && l'.events == l.events && l'.rollups == l.rollups
  }

  /** The reservation is released and nothing is given back. */
  ghost predicate Freed(l: Ledger, l': Ledger, q: nat) {
    q < |l.reservations| && l' == l.(reservations := l.reservations[q := l.reservations[q].(phase := Released)])
  }

  /** No claim but the one under `k` is touched. */
  ghost predicate OnlyClaim(t: Tables, t': Tables, k: Key) {
    forall j :: j != k ==> (j in t'.claims <==> j in t.claims) && (j in t.claims ==> t'.claims[j] == t.claims[j])
  }

  ghost predicate ClaimEnds(t: Tables, t': Tables, k: Key) { k !in t'.claims && OnlyClaim(t, t', k) }

  /** The caller's claim is gone if it had one; no other claim is touched. */
  ghost predicate OwnClaimEnds(t: Tables, t': Tables, a: Attempt) {
    if a.key.Some? && OwnsClaim(t, KeyOf(a), a.request) then ClaimEnds(t, t', KeyOf(a)) else t'.claims == t.claims
  }

  /** The caller's claim is gone if it was never dispatched; no other claim is touched. */
  ghost predicate OwnPendingClaimEnds(t: Tables, t': Tables, a: Attempt) {
    if a.key.Some? && OwnsClaim(t, KeyOf(a), a.request) && !t.claims[KeyOf(a)].dispatched
    then ClaimEnds(t, t', KeyOf(a)) else t'.claims == t.claims
  }

  ghost predicate HistorySame(t: Tables, t': Tables) {
    t'.records == t.records && t'.audits == t.audits && t'.lastSent == t.lastSent
  }

  /** The caller's reservation as it names it. */
  ghost predicate Named(t: Tables, a: Attempt, q: nat, month: Name) {
    q < |t.ledger.reservations| && t.ledger.reservations[q].project == a.project && t.ledger.reservations[q].month == month
  }

  /** The caller may end its dispatched action: it sent no key, or its dispatched claim stands. */
  ghost predicate MayEnd(t: Tables, a: Attempt) {
    a.key.None?
    || (KeyOf(a) in t.claims && t.claims[KeyOf(a)].owner == a.request && t.claims[KeyOf(a)].dispatched)
  }

  // -------------------------------------------------- the ledger changes behind them

  lemma {:induction false} RefundRefunds(l: Ledger, q: nat)
    requires Books(l) && q < |l.reservations|
    ensures var after := RefundAndRelease(l, l.reservations[q].project, q);
            after.Some? && Refunded(l, after.value, q)
  {
    RefundConserves(l, q);
    RefundedRow(l, q);
  }

  lemma {:induction false} SettleCharges(l: Ledger, q: nat, meter: MeterKey)
    requires Books(l) && UsageExact(l) && q < |l.reservations| && l.reservations[q].phase == Dispatched
    requires meter == ActionMeter(l.reservations[q].creator) || meter == RecoveryMeter(q)
    ensures var r := l.reservations[q];
            var l' := SettleRow(l, r.project, meter, r.id.account, q, r.month);
            Charged(l, l', q, meter) && UsageExact(l')
  {
    hide Conservation.Conserved;
    var r := l.reservations[q];
    DispatchedUnmetered(l, q, meter);
    var l' := SettleRow(l, r.project, meter, r.id.account, q, r.month);
    assert l' == Play(l, SettleBy(q, meter));
    PlayKeepsUsage(l, SettleBy(q, meter));
    forall p: Name, c: Name, m: Name
      ensures Used(l', p, c, m) == Used(l, p, c, m) + if p == r.project && c == r.id.account && m == r.month then 1 else 0
    {
      AddToRollupAdds(l.rollups, r.project, r.id.account, r.month, p, c, m);
    }
  }

  // ---------------------------------------------------------------- acquire

  /** Something stored under the key names another request identity. */
  ghost predicate OtherIdentity(t: Tables, k: Key, id: Identity) {
    if k in t.records then
      !(t.records[k].connection == id.connection && t.records[k].action == id.action && t.records[k].hash == id.hash)
    else if exists i :: 0 <= i < |t.audits| && t.audits[i].key == k && t.audits[i].resolution.ProviderOutcomeKnown? then
      exists i :: 0 <= i < |t.audits| && t.audits[i].key == k && t.audits[i].resolution.ProviderOutcomeKnown? && t.audits[i].id != id
    else k in t.claims && t.claims[k].id != id
  }

  /** No record, no reconciled outcome, and no claim that still counts: another's claim counts while its lease
      runs, for ever once it was dispatched, and always against another identity. */
  ghost predicate KeyIsOpen(t: Tables, k: Key, id: Identity, now: Instant) {
    && k !in t.records
    && (forall i :: 0 <= i < |t.audits| ==> !(t.audits[i].key == k && t.audits[i].resolution.ProviderOutcomeKnown?))
    && (k in t.claims ==> t.claims[k].id == id && t.claims[k].leasedUntil <= now.ms && !t.claims[k].dispatched)
  }

  lemma {:induction false} AcquireLaw(t: Tables, a: Attempt, disabled: bool, now: Instant)
    ensures var (t', reply) := Acquire(t, a, disabled, now);
      && (reply == Acquired <==> !disabled && (a.key.Some? ==> KeyIsOpen(t, KeyOf(a), a.id, now)))
      && (reply == Acquired && a.key.Some? ==>
            && KeyOf(a) in t'.claims && t'.claims[KeyOf(a)] == Claim(a.request, a.id, now.ms + a.leaseMs, false)
            && OnlyClaim(t, t', KeyOf(a)) && HistorySame(t, t') && t'.ledger == t.ledger)
      && (reply != Acquired || a.key.None? ==> t' == t)
      && (reply == Failed(ProjectDisabled) <==> disabled)
      && (reply == Failed(IdempotencyConflict) <==> !disabled && a.key.Some? && OtherIdentity(t, KeyOf(a), a.id))
      && (forall output :: reply == Cached(output) <==>
            !disabled && a.key.Some? && KeyOf(a) in t.records && !OtherIdentity(t, KeyOf(a), a.id)
            && t.records[KeyOf(a)].output == output)
      && (reply == Failed(AlreadyCompleted) <==>
            !disabled && a.key.Some? && KeyOf(a) !in t.records && !OtherIdentity(t, KeyOf(a), a.id)
            && exists i :: 0 <= i < |t.audits| && t.audits[i].key == KeyOf(a) && t.audits[i].resolution.ProviderOutcomeKnown?)
      && (reply in {Acquired, Failed(ProjectDisabled), Failed(IdempotencyConflict), Failed(AlreadyCompleted),
                    Failed(IdempotencyInProgress)} || reply.Cached?)
  {
  }

  // ------------------------------------------------------------ bind and mark

  ghost predicate Serves(r: Reservation, a: Attempt) {
    r.id == a.id && r.key == a.key && (r.phase == Pending || r.phase == Dispatched)
    && (r.request == None || r.request == Some(a.request))
  }

  /** A reservation serves one request: binding is idempotent for it and refused to every other. */
  lemma {:induction false} BindLaw(t: Tables, a: Attempt, q: nat, month: Name)
    ensures var (t', reply) := Bind(t, a, q, month);
      && (reply == Done <==> a.key.None? || (Named(t, a, q, month) && Serves(t.ledger.reservations[q], a)))
      && (reply == Done && a.key.Some? ==>
            t' == t.(ledger := t.ledger.(reservations :=
              t.ledger.reservations[q := t.ledger.reservations[q].(request := Some(a.request))])))
      && (reply != Done ==> reply == Failed(ReservationInvalid))
      && (reply != Done || a.key.None? ==> t' == t)
  {
    if Named(t, a, q, month) && t.ledger.reservations[q].request == Some(a.request) {
      var r := t.ledger.reservations[q];
      assert r.(request := Some(a.request)) == r;
      assert t.ledger.reservations[q := r] == t.ledger.reservations;
    }
  }

  /** The fence lets a pending reservation through while both it and the caller's claim are live, and only once. */
  lemma {:induction false} MarkLaw(t: Tables, a: Attempt, q: nat, month: Name, revision: Revision, now: Instant)
    ensures var (t', reply) := Mark(t, a, q, month, revision, now);
      && (reply == Done <==>
            Named(t, a, q, month) &&
            var r := t.ledger.reservations[q];
            || (r.phase == Dispatched && (a.key.Some? ==> KeyOf(a) in t.claims && t.claims[KeyOf(a)].owner == a.request))
            || (&& r.phase == Pending && now.ms < r.expiresAt && revision == Unchanged
                && (a.key.Some? ==>
                      KeyOf(a) in t.claims &&
                      var c := t.claims[KeyOf(a)];
                      c.owner == a.request && now.ms < c.leasedUntil && !c.dispatched)))
      && (reply == Done && t.ledger.reservations[q].phase == Pending ==>
            && RowBecomes(t.ledger, t'.ledger, q,
                 t.ledger.reservations[q].(phase := Dispatched, expiresAt := now.ms + 24 * 60 * 60 * 1000))
            && t'.ledger == t.ledger.(reservations := t'.ledger.reservations)
            && HistorySame(t, t')
            && (a.key.None? ==> t'.claims == t.claims)
            && (a.key.Some? ==> OnlyClaim(t, t', KeyOf(a)) && KeyOf(a) in t'.claims
                                && t'.claims[KeyOf(a)] == t.claims[KeyOf(a)].(dispatched := true)))
      && (reply != Done || t.ledger.reservations[q].phase == Dispatched ==> t' == t)
      && (reply == Failed(ConnectionNotFound) ==> revision == Missing)
      && (reply == Failed(ConnectionChanged) ==> revision == Changed)
  {
  }

  // --------------------------------------------------------------- releases

  lemma {:induction false} ReleasePendingLaw(t: Tables, a: Attempt)
    ensures var (t', reply) := ReleasePending(t, a);
      reply == Done && OwnPendingClaimEnds(t, t', a) && HistorySame(t, t') && t'.ledger == t.ledger
  {
  }

  /** An answered failure gives its quota back but not its charges, and keeps the fence of its dispatched claim. */
  lemma {:induction false} ReleaseQuotaLaw(t: Tables, a: Attempt, q: nat, month: Name)
    ensures var (t', reply) := ReleaseQuota(t, a, q, month);
      && reply == Done && HistorySame(t, t') && OwnPendingClaimEnds(t, t', a)
      && if Named(t, a, q, month) && Active(t.ledger.reservations[q])
         then Freed(t.ledger, t'.ledger, q) else t'.ledger == t.ledger
  {
  }

  /** A call that was never dispatched gives everything back. */
  lemma {:induction false} ReleaseNotDispatchedLaw(t: Tables, a: Attempt, q: nat, month: Name)
    requires Books(t.ledger)
    ensures var (t', reply) := ReleaseNotDispatched(t, a, q, month);
      && reply == Done && HistorySame(t, t')
      && if Named(t, a, q, month) && Active(t.ledger.reservations[q])
         then Refunded(t.ledger, t'.ledger, q) && OwnClaimEnds(t, t', a)
         else t'.ledger == t.ledger && OwnPendingClaimEnds(t, t', a)
  {
    hide Bookkeeping.Books, Refunded, Ledgers.RefundAndRelease;
    if Named(t, a, q, month) {
      RefundRefunds(t.ledger, q);
    }
  }

  // --------------------------------------------------------------- finishes

  lemma {:induction false} FinishNotDispatchedLaw(t: Tables, a: Attempt, q: nat, month: Name)
    requires Books(t.ledger)
    ensures var (t', reply) := FinishNotDispatched(t, a, q, month);
      && (reply == Done <==> Named(t, a, q, month) && t.ledger.reservations[q].phase == Dispatched && MayEnd(t, a))
      && (reply == Done ==> Refunded(t.ledger, t'.ledger, q) && OwnClaimEnds(t, t', a) && HistorySame(t, t'))
      && (reply != Done ==> t' == t)
  {
    if Named(t, a, q, month) {
      hide Bookkeeping.Books, Refunded, Ledgers.RefundAndRelease;
      RefundRefunds(t.ledger, q);
    }
  }

  /** The caller already succeeded: its reservation is settled and the record of its key is its own. */
  ghost predicate Succeeded(t: Tables, a: Attempt, q: nat) {
    && q < |t.ledger.reservations| && t.ledger.reservations[q].phase == Settled
    && a.key.Some? && KeyOf(a) in t.records && RecordMatches(t.records[KeyOf(a)], a.id)
  }

  /** A successful finish settles the reservation with exactly one event, counts it in the month, keeps the output
      under the key and ends the claim; a settled one is not charged again, and a repeat changes nothing. */
  lemma {:induction false} FinishLaw(t: Tables, a: Attempt, q: nat, month: Name, output: Name)
    requires Books(t.ledger) && UsageExact(t.ledger) && Owns(t.ledger, a, q)
    ensures var (t', reply) := Finish(t, a, q, month, Some(output));
      && (reply == Done <==>
            && Named(t, a, q, month)
            && ((MayEnd(t, a) && t.ledger.reservations[q].phase in {Dispatched, Settled}) || Succeeded(t, a, q)))
      && (reply != Done ==> t' == t)
      && (reply == Done && !MayEnd(t, a) ==> t' == t)
      && (reply == Done && MayEnd(t, a) ==>
            && (if t.ledger.reservations[q].phase == Dispatched
                then Charged(t.ledger, t'.ledger, q, ActionMeter(a.request)) else t'.ledger == t.ledger)
            && OwnClaimEnds(t, t', a) && t'.audits == t.audits && t'.lastSent == t.lastSent
            && (a.key.None? ==> t'.records == t.records)
            && (a.key.Some? ==>
                  && KeyOf(a) in t'.records && KeyOf(a) !in t'.claims
                  && (KeyOf(a) !in t.records ==>
                        t'.records[KeyOf(a)] == Record(a.id.connection, a.id.action, a.id.hash, output))
                  && (KeyOf(a) in t.records ==> t'.records[KeyOf(a)] == t.records[KeyOf(a)])
                  && forall j :: j != KeyOf(a) ==> (j in t'.records <==> j in t.records)
                                                    && (j in t.records ==> t'.records[j] == t.records[j])))
      && (reply == Done ==>
            t'.ledger.reservations[q].phase == Settled && Sum(t'.ledger.events, FromReservation(q)) == 1)
  {
    hide Charged, Bookkeeping.Books, Bookkeeping.UsageExact, Ledgers.SettleRow;
    if Named(t, a, q, month) {
      if t.ledger.reservations[q].phase == Dispatched {
        SettleCharges(t.ledger, q, ActionMeter(a.request));
        ChargedIsSettled(t.ledger, SettleRow(t.ledger, a.project, ActionMeter(a.request), a.id.account, q, t.ledger.reservations[q].month), q, ActionMeter(a.request));
      } else {
        SettledHasOne(t.ledger, q);
      }
    }
  }

  lemma {:induction false} SettledHasOne(l: Ledger, q: nat)
    requires UsageExact(l) && q < |l.reservations|
    ensures l.reservations[q].phase == Settled ==> Sum(l.events, FromReservation(q)) == 1
  {
  }

  lemma {:induction false} ChargedIsSettled(l: Ledger, l': Ledger, q: nat, meter: MeterKey)
    requires UsageExact(l') && Charged(l, l', q, meter)
    ensures q < |l'.reservations| && l'.reservations[q].phase == Settled && Sum(l'.events, FromReservation(q)) == 1
  {
  }

  /** A failed finish only checks the fence: the dispatched claim and the reservation stay for recovery or operators. */
  lemma {:induction false} FinishErrorLaw(t: Tables, a: Attempt, q: nat, month: Name)
    ensures var (t', reply) := Finish(t, a, q, month, None);
      && t' == t
      && (reply == Done <==>
            Named(t, a, q, month) && (MayEnd(t, a) || t.ledger.reservations[q].phase == Released || Succeeded(t, a, q)))
  {
  }

  lemma {:induction false} FinishReadFailureLaw(t: Tables, a: Attempt, q: nat, month: Name)
    requires Books(t.ledger) && UsageExact(t.ledger) && Owns(t.ledger, a, q)
    ensures var (t', reply) := FinishReadFailure(t, a, q, month);
      && (reply == Done <==> Named(t, a, q, month) && MayEnd(t, a) && t.ledger.reservations[q].phase != Pending)
      && (reply != Done ==> t' == t)
      && (reply == Done ==>
            && OwnClaimEnds(t, t', a) && HistorySame(t, t')
            && if t.ledger.reservations[q].phase == Dispatched
               then Charged(t.ledger, t'.ledger, q, ActionMeter(a.request)) else t'.ledger == t.ledger)
  {
    hide Charged, Bookkeeping.Books, Bookkeeping.UsageExact, Ledgers.SettleRow;
    if Named(t, a, q, month) && t.ledger.reservations[q].phase == Dispatched {
      SettleCharges(t.ledger, q, ActionMeter(a.request));
    }
  }

  /** An active reservation of this very attempt's identity that no other request has bound. */
  ghost predicate Abandoned(r: Reservation, a: Attempt) {
    && r.project == a.project && a.key.Some? && r.key == a.key && r.id == a.id
    && (r.phase == Pending || r.phase == Dispatched) && (r.request == None || r.request == Some(a.request))
  }

  /** The timeout looks at the newest such reservation, if there is one. */
  lemma {:induction false} TimeoutPickLaw(t: Tables, a: Attempt, pick: Option<nat>)
    ensures var rows := t.ledger.reservations;
      IsLatestCandidate(t, a, pick) <==>
        if pick.None? then forall q :: 0 <= q < |rows| ==> !Abandoned(rows[q], a)
        else
          && pick.value < |rows| && Abandoned(rows[pick.value], a)
          && forall q :: 0 <= q < |rows| && Abandoned(rows[q], a) ==> rows[q].createdAt.ms <= rows[pick.value].createdAt.ms
  {
    assert forall q: nat :: TimeoutCandidate(t, a, q) <==> q < |t.ledger.reservations| && Abandoned(t.ledger.reservations[q], a);
  }

  /** A timed-out read ends its claim. Its reservation is charged exactly when it was dispatched under that claim
      and the evidence does not prove nondispatch; otherwise it is refunded. */
  lemma {:induction false} FinishReadTimeoutLaw(t: Tables, a: Attempt, outcome: Outcome, pick: Option<nat>)
    requires Books(t.ledger) && UsageExact(t.ledger) && IsLatestCandidate(t, a, pick)
    requires pick.Some? && t.ledger.reservations[pick.value].phase == Dispatched ==> Owns(t.ledger, a, pick.value)
    ensures var (t', reply) := FinishReadTimeout(t, a, outcome, pick);
      && reply == Done && HistorySame(t, t') && OwnClaimEnds(t, t', a)
      && (if a.key.None? || !OwnsClaim(t, KeyOf(a), a.request) || pick.None? then t'.ledger == t.ledger
          else if t.ledger.reservations[pick.value].phase == Dispatched && t.claims[KeyOf(a)].dispatched
                  && outcome != NotDispatched
          then Charged(t.ledger, t'.ledger, pick.value, ActionMeter(a.request))
          else Refunded(t.ledger, t'.ledger, pick.value))
  {
    hide Charged, Refunded, Bookkeeping.Books, Bookkeeping.UsageExact, Ledgers.SettleRow, Ledgers.RefundAndRelease;
    if pick.Some? {
      RefundRefunds(t.ledger, pick.value);
      if t.ledger.reservations[pick.value].phase == Dispatched {
        SettleCharges(t.ledger, pick.value, ActionMeter(a.request));
      }
    }
  }
}
