/** What an operator's command visibly does: when it is accepted, and its effect by resolution and phase. */
module Reconciliations {
  import opened Wrappers
  import opened Sums
  import opened Schema
  import opened Ledgers
  import opened Evidence
  import opened Transactions
  import opened Conservation
  import opened Bookkeeping
  import opened Accounting
  import opened Effects

  /** The row was reserved under the key. */
  ghost predicate UnderKey(r: Reservation, k: Key) { r.project == k.project && r.key == Some(k.text) }

  /** The row is the claim's own: same key, same identity, bound to the claim's owner. */
  ghost predicate Bound(r: Reservation, k: Key, c: Claim) {
    UnderKey(r, k) && r.id == c.id && r.request == Some(c.owner)
  }

  /** Every active reservation of the key among the first `n` is the claim's own. */
  ghost predicate AllAccounted(rows: seq<Reservation>, k: Key, c: Claim, n: nat)
    requires n <= |rows|
  {
    forall i :: 0 <= i < n && UnderKey(rows[i], k) && (rows[i].phase == Pending || rows[i].phase == Dispatched) ==> Bound(rows[i], k, c)
  }

  ghost predicate AtMostOneBound(rows: seq<Reservation>, k: Key, c: Claim, n: nat)
    requires n <= |rows|
  {
    forall i, j :: 0 <= i < j < n ==> !(Bound(rows[i], k, c) && Bound(rows[j], k, c))
  }

  lemma {:induction false} LoadFrom(rows: seq<Reservation>, k: Key, c: Claim, n: nat, found: Option<nat>)
    requires n <= |rows| && (found.Some? ==> n <= found.value < |rows|)
    ensures var load := LoadReservation(rows, k, c, n, found);
      && (load.Loaded? <==>
            && AllAccounted(rows, k, c, n) && AtMostOneBound(rows, k, c, n)
            && (found.Some? ==> forall i :: 0 <= i < n ==> !Bound(rows[i], k, c)))
      && (load.Loaded? ==>
            && (forall i :: 0 <= i < n && Bound(rows[i], k, c) ==> load.exact == Some(i))
            && ((forall i :: 0 <= i < n ==> !Bound(rows[i], k, c)) ==> load.exact == found))
    decreases n
  {
    if n > 0 {
      var r := rows[n - 1];
      LoadFrom(rows, k, c, n - 1, found);
      LoadFrom(rows, k, c, n - 1, Some(n - 1));
    }
  }

  /** The search accepts the key's reservations exactly when each active one, and at most one of all, is the
      claim's own, and then it finds that one. */
  lemma {:induction false} LoadLaw(rows: seq<Reservation>, k: Key, c: Claim)
    ensures var load := LoadReservation(rows, k, c, |rows|, None);
      && (load.Loaded? <==> AllAccounted(rows, k, c, |rows|) && AtMostOneBound(rows, k, c, |rows|))
      && (load.Loaded? ==>
            && (forall i :: 0 <= i < |rows| && Bound(rows[i], k, c) ==> load.exact == Some(i))
            && ((forall i :: 0 <= i < |rows| ==> !Bound(rows[i], k, c)) ==> load.exact == None))
  {
    LoadFrom(rows, k, c, |rows|, None);
  }

  /** The operator looked at this claim: it is dispatched, its lease is over, nothing was recorded or reconciled as
      known under its key, and the key's reservations are accounted for. */
  ghost predicate Open(t: Tables, cmd: Command, now: Instant) {
    && cmd.key in t.claims
    && var c := t.claims[cmd.key];
    && c.id.account == cmd.account && c.owner == cmd.request && c.dispatched && c.leasedUntil <= now.ms
    && cmd.key !in t.records
    && (forall i :: 0 <= i < |t.audits| ==> !(t.audits[i].key == cmd.key && t.audits[i].resolution.ProviderOutcomeKnown?))
    && AllAccounted(t.ledger.reservations, cmd.key, c, |t.ledger.reservations|)
    && AtMostOneBound(t.ledger.reservations, cmd.key, c, |t.ledger.reservations|)
  }

  /** The phases that a resolution may meet: success needs a dispatched or settled reservation, anything else one
      that was not settled. */
  ghost predicate Fits(phase: Phase, resolution: Resolution) {
    if resolution == ProviderOutcomeKnown(true) then phase == Dispatched || phase == Settled else phase != Settled
  }

  /** The claim's own reservation, if it has one. */
  ghost predicate OwnRow(t: Tables, cmd: Command, q: nat)
    requires cmd.key in t.claims
  {
    q < |t.ledger.reservations| && Bound(t.ledger.reservations[q], cmd.key, t.claims[cmd.key])
  }

  ghost predicate NoOwnRow(t: Tables, cmd: Command)
    requires cmd.key in t.claims
  {
    forall q :: 0 <= q < |t.ledger.reservations| ==> !OwnRow(t, cmd, q)
  }

  lemma {:induction false} OpenLaw(t: Tables, cmd: Command, now: Instant)
    ensures Refusal(t, cmd, now).None? <==> Open(t, cmd, now)
    ensures Open(t, cmd, now) ==>
      && (forall q: nat :: OwnRow(t, cmd, q) ==> ExactReservation(t, cmd) == Some(q))
      && (NoOwnRow(t, cmd) ==> ExactReservation(t, cmd) == None)
  {
    hide AllAccounted, AtMostOneBound, Transactions.LoadReservation;
    if cmd.key in t.claims {
      LoadLaw(t.ledger.reservations, cmd.key, t.claims[cmd.key]);
      if NoOwnRow(t, cmd) {
        forall i | 0 <= i < |t.ledger.reservations| ensures !Bound(t.ledger.reservations[i], cmd.key, t.claims[cmd.key]) {
          assert !OwnRow(t, cmd, i);
        }
      }
    }
  }

  /** Refused commands change nothing. An accepted one is audited, and only a proof of nondispatch ends the claim. */
  lemma {:induction false} ReconcileLaw(t: Tables, cmd: Command, now: Instant)
    requires Books(t.ledger)
    ensures var (t', reply) := Reconcile(t, cmd, now);
      && (reply == Done <==>
            Open(t, cmd, now) && forall q: nat :: OwnRow(t, cmd, q) ==> Fits(t.ledger.reservations[q].phase, cmd.resolution))
      && (reply != Done ==> t' == t && reply.Failed?)
      && (reply == Done ==>
            && t'.audits == t.audits + [Audit(cmd.key, t.claims[cmd.key].owner, t.claims[cmd.key].id, cmd.resolution)]
            && t'.records == t.records && t'.lastSent == t.lastSent
            && if cmd.resolution.ProvenNotDispatched? then ClaimEnds(t, t', cmd.key) else t'.claims == t.claims)
  {
    hide Bookkeeping.Books, Transactions.Refusal, Open, Transactions.Resolve;
    OpenLaw(t, cmd, now);
    if Open(t, cmd, now) {
      assert cmd.key in t.claims by { OpenHasClaim(t, cmd, now); }
      ResolveLaw(t, cmd, now);
    }
  }

  lemma {:induction false} OpenHasClaim(t: Tables, cmd: Command, now: Instant)
    requires Open(t, cmd, now)
    ensures cmd.key in t.claims
  {
  }

  lemma {:induction false} ResolveLaw(t: Tables, cmd: Command, now: Instant)
    requires Books(t.ledger) && cmd.key in t.claims
    requires forall q: nat :: OwnRow(t, cmd, q) ==> ExactReservation(t, cmd) == Some(q)
    requires NoOwnRow(t, cmd) ==> ExactReservation(t, cmd) == None
    ensures Resolve(t.ledger, cmd.key, t.claims[cmd.key], cmd.resolution, ExactReservation(t, cmd), now).Some?
            <==> forall q: nat :: OwnRow(t, cmd, q) ==> Fits(t.ledger.reservations[q].phase, cmd.resolution)
  {
    hide Bookkeeping.Books, Ledgers.RefundAndRelease, Ledgers.WriteEvent, ExactReservation;
    if q: nat :| OwnRow(t, cmd, q) {
      RefundRefunds(t.ledger, q);
      assert Resolve(t.ledger, cmd.key, t.claims[cmd.key], cmd.resolution, Some(q), now).Some?
             <==> Fits(t.ledger.reservations[q].phase, cmd.resolution);
    }
  }

  /** The effect on the claim's own reservation: proof of nondispatch refunds it, a known failure frees it with its
      charges kept, a known success charges it once if it was still dispatched. */
  lemma {:induction false} ReconcileRowLaw(t: Tables, cmd: Command, now: Instant, q: nat)
    requires Books(t.ledger) && UsageExact(t.ledger) && Reconcile(t, cmd, now).1 == Done
    requires cmd.key in t.claims && OwnRow(t, cmd, q)
    ensures var l, l' := t.ledger, Reconcile(t, cmd, now).0.ledger;
      match cmd.resolution
      case ProvenNotDispatched => Refunded(l, l', q)
      case ProviderOutcomeKnown(succeeded) =>
        if !succeeded then (if Active(l.reservations[q]) then Freed(l, l', q) else l' == l)
        else if l.reservations[q].phase == Dispatched then Charged(l, l', q, ActionMeter(t.claims[cmd.key].owner))
        else l'.reservations == l.reservations && l'.counters == l.counters
  {
    hide Bookkeeping.Books, Bookkeeping.UsageExact, Charged, Refunded, Ledgers.RefundAndRelease, Ledgers.SettleRow, Ledgers.WriteEvent;
    hide Transactions.Refusal, Open;
    OpenLaw(t, cmd, now);
    RefundRefunds(t.ledger, q);
    if t.ledger.reservations[q].phase == Dispatched {
      BoundToCreator(t.ledger, q);
      SettleCharges(t.ledger, q, ActionMeter(t.claims[cmd.key].owner));
    }
  }

  lemma {:induction false} BoundToCreator(l: Ledger, q: nat)
    requires Books(l) && q < |l.reservations| && l.reservations[q].request.Some?
    ensures l.reservations[q].request == Some(l.reservations[q].creator)
  {
  }

  /** Without a reservation of its own, only a known success touches the ledger: one usage event in the current
      month, unless the request was metered before. */
  lemma {:induction false} ReconcileLooseLaw(t: Tables, cmd: Command, now: Instant)
    requires Reconcile(t, cmd, now).1 == Done && cmd.key in t.claims && NoOwnRow(t, cmd)
    ensures var l, l', c := t.ledger, Reconcile(t, cmd, now).0.ledger, t.claims[cmd.key];
      if cmd.resolution != ProviderOutcomeKnown(true) || Metered(l, cmd.key.project, ActionMeter(c.owner)) then l' == l
      else
        && l'.reservations == l.reservations && l'.counters == l.counters
        && l'.events == l.events + [Event(cmd.key.project, ActionMeter(c.owner), c.id.account, now, None)]
        && forall p: Name, a: Name, m: Name ::
             Used(l', p, a, m) == Used(l, p, a, m) + if p == cmd.key.project && a == c.id.account && m == now.month then 1 else 0
  {
    hide Transactions.Refusal, Open, Ledgers.AddToRollup, Ledgers.Metered, Sums.Sum;
    OpenLaw(t, cmd, now);
    var c := t.claims[cmd.key];
    forall p: Name, a: Name, m: Name
      ensures Sum(AddToRollup(t.ledger.rollups, cmd.key.project, c.id.account, now.month), RollupIn(p, a, m))
           == Used(t.ledger, p, a, m) + if p == cmd.key.project && a == c.id.account && m == now.month then 1 else 0
    {
      AddToRollupAdds(t.ledger.rollups, cmd.key.project, c.id.account, now.month, p, a, m);
    }
  }
}
