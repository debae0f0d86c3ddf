/** The store as the service uses it: each method opens a transaction, updates the tables step by step and
    commits or rolls back. Every method is proved to do what the function of the same name says. */
module Store {
  import opened Wrappers
  import opened Sums
  import opened Schema
  import opened Ledgers
  import opened Evidence
  import opened Transactions

  /** The private copy a transaction works on; dropping it rolls back. */
  class Transaction {
    var claims: map<Key, Claim>
    var records: map<Key, Record>
    var audits: seq<Audit>
    var lastSent: map<Pace, int>
    var reservations: seq<Reservation>
    var counters: map<Window, Counter>
    var events: seq<Event>
    var rollups: seq<Rollup>

    function Books(): Ledger
      reads this
    {
      Ledger(reservations, counters, events, rollups)
    }

    function View(): Tables
      reads this
    {
      Tables(claims, records, audits, lastSent, Books())
    }

    constructor (t: Tables)
      ensures View() == t
    {
      claims, records, audits, lastSent := t.claims, t.records, t.audits, t.lastSent;
      reservations, counters, events, rollups :=
        t.ledger.reservations, t.ledger.counters, t.ledger.events, t.ledger.rollups;
    }

    method DeleteClaim(k: Key)
      modifies this`claims
      ensures View() == DropClaim(old(View()), k)
    {
      claims := map j | j in claims && j != k :: claims[j];
    }

    method DeleteOwnClaim(a: Attempt)
      modifies this`claims
      ensures View() == DropOwnClaim(old(View()), a)
    {
      if a.key.Some? && OwnsClaim(View(), KeyOf(a), a.request) {
        DeleteClaim(KeyOf(a));
      }
    }

    method DeleteOwnPendingClaim(a: Attempt)
      modifies this`claims
      ensures View() == DropOwnPendingClaim(old(View()), a)
    {
      if a.key.Some? && OwnsClaim(View(), KeyOf(a), a.request) && !claims[KeyOf(a)].dispatched {
        DeleteClaim(KeyOf(a));
      }
    }

    method SetRow(q: nat, row: Reservation)
      requires q < |reservations|
      modifies this`reservations
      ensures reservations == old(reservations)[q := row]
    {
      reservations := reservations[q := row];
    }

    /** Takes each unrefunded charge of a reservation off its counter, marks it, and releases the reservation. */
    method RefundAndReleaseRow(project: Name, q: nat) returns (ok: bool)
      modifies this`reservations, this`counters
      ensures ok == RefundAndRelease(old(Books()), project, q).Some?
      ensures ok ==> Books() == RefundAndRelease(old(Books()), project, q).value
    {
      if q >= |reservations| || reservations[q].project != project {
        return false;
      }
      var r := reservations[q];
      var marked := r.charges;
      var i := 0;
      while i < |r.charges|
        invariant i <= |r.charges| == |marked| && reservations == old(reservations)
        invariant RefundCounters(old(counters), r, 0) == RefundCounters(counters, r, i)
        invariant forall j :: 0 <= j < i ==> marked[j] == r.charges[j].(refunded := true)
        invariant forall j :: i <= j < |marked| ==> marked[j] == r.charges[j]
      {
        var c := r.charges[i];
        if !c.refunded {
          var w := WindowOf(project, r.id.account, c.target);
          if w !in counters {
            return false;
          }
          counters := counters[w := Counter(AtLeastZero(counters[w].count - c.quantity), AtLeastZero(counters[w].spend - c.spend))];
        }
        marked := marked[i := c.(refunded := true)];
        i := i + 1;
      }
      assert marked == MarkRefunded(r.charges);
      SetRow(q, r.(phase := Released, charges := marked));
      ok := true;
    }

    /** The usage event and its rollup, unless the metering key is already there. */
    method InsertEvent(e: Event, month: Name)
      modifies this`events, this`rollups
      ensures Books() == WriteEvent(old(Books()), e, month)
    {
      if !Metered(Books(), e.project, e.meter) {
        events := events + [e];
        var i := 0;
        while i < |rollups| && !RollupFor(rollups[i], e.project, e.account, month)
          invariant i <= |rollups|
          invariant forall j :: 0 <= j < i ==> !RollupFor(rollups[j], e.project, e.account, month)
        {
          i := i + 1;
        }
        if i == |rollups| {
          rollups := rollups + [Rollup(e.project, e.account, month, 1)];
        } else {
          rollups := rollups[i := rollups[i].(quantity := rollups[i].quantity + 1)];
        }
      }
    }

    method Charge(project: Name, meter: MeterKey, account: Name, q: nat, month: Name)
      requires q < |reservations|
      modifies this`events, this`rollups, this`reservations
      ensures Books() == SettleRow(old(Books()), project, meter, account, q, month)
    {
      InsertEvent(Event(project, meter, account, reservations[q].createdAt, Some(q)), month);
      SetRow(q, reservations[q].(phase := Settled));
    }

    /** Releases every lapsed pending reservation of a month. */
    method ExpireMonth(project: Name, month: Name, now: Instant) returns (ok: bool)
      modifies this`reservations, this`counters
      ensures ok == ExpirePending(old(Books()), project, month, now, |old(reservations)|).Some?
      ensures ok ==> Books() == ExpirePending(old(Books()), project, month, now, |old(reservations)|).value
    {
      var selected := reservations;
      var n := 0;
      while n < |selected|
        invariant n <= |selected|
        invariant ExpirePending(old(Books()), project, month, now, n) == Some(Books())
      {
        if Expired(selected[n], project, month, now) && selected[n].phase == Pending {
          var released := RefundAndReleaseRow(project, n);
          if !released {
            ExpireFails(old(Books()), project, month, now, n + 1, |selected|);
            return false;
          }
        }
        n := n + 1;
      }
      ok := true;
    }

    /** Charges and settles every lapsed dispatched reservation of a month. */
    method RecoverMonth(project: Name, month: Name, now: Instant)
      modifies this`events, this`rollups, this`reservations
      ensures Books() == RecoverDispatched(old(Books()), project, month, now, |old(reservations)|)
    {
      var selected := reservations;
      var n := 0;
      while n < |selected|
        invariant n <= |selected| && |reservations| == |selected|
        invariant RecoverDispatched(old(Books()), project, month, now, n) == Books()
      {
        if Expired(selected[n], project, month, now) && selected[n].phase == Dispatched {
          Charge(project, RecoveryMeter(n), selected[n].id.account, n, month);
        }
        n := n + 1;
      }
    }

    /** Cleans up every month in turn. */
    method Sweep(project: Name, months: seq<Name>, now: Instant) returns (ok: bool)
      modifies this`events, this`rollups, this`reservations, this`counters
      ensures ok == SweepMonths(old(Books()), project, months, now).Some?
      ensures ok ==> Books() == SweepMonths(old(Books()), project, months, now).value
    {
      var i := 0;
      while i < |months|
        invariant i <= |months|
        invariant SweepMonths(old(Books()), project, months[..i], now) == Some(Books())
      {
        assert months[..i + 1][..i] == months[..i];
        var expired := ExpireMonth(project, months[i], now);
        if !expired {
          SweepFails(old(Books()), project, months, now, i + 1);
          return false;
        }
        RecoverMonth(project, months[i], now);
        i := i + 1;
      }
      assert months[..i] == months;
      ok := true;
    }

    /** Claims the LinkedIn windows in turn; a full window fails the whole claim. */
    method ClaimLinkedIn(project: Name, account: Name, actionClass: Name, limits: seq<Limit>)
      returns (claimed: Result<seq<Charge>>)
      modifies this`counters
      ensures match ClaimWindows(old(counters), project, account, actionClass, limits, |limits|)
        case Ok(after) => claimed == Ok(after.1) && counters == after.0
        case Err(code) => claimed == Err(code)
    {
      var charges: seq<Charge> := [];
      var n := 0;
      while n < |limits|
        invariant n <= |limits|
        invariant ClaimWindows(old(counters), project, account, actionClass, limits, n) == Ok((counters, charges))
      {
        var limit := limits[n];
        if limit.cap > 0 {
          var target := LinkedInSlot(actionClass, limit.kind, limit.slot);
          var w := WindowOf(project, account, target);
          if w in counters && counters[w].count + 1 > limit.cap {
            ClaimFails(old(counters), project, account, actionClass, limits, n + 1, LinkedInCapExceeded(limit.kind));
            return Err(LinkedInCapExceeded(limit.kind));
          }
          var was := if w in counters then counters[w] else Counter(0, 0);
          counters := counters[w := Counter(was.count + 1, was.spend)];
          charges := charges + [Schema.Charge(target, 1, 0, false)];
        }
        n := n + 1;
      }
      claimed := Ok(charges);
    }
  }

  lemma {:induction false} ExpireFails(l: Ledger, project: Name, month: Name, now: Instant, n: nat, m: nat)
    requires n <= m <= |l.reservations| && ExpirePending(l, project, month, now, n).None?
    ensures ExpirePending(l, project, month, now, m).None?
    decreases m
  {
    if n < m {
      ExpireFails(l, project, month, now, n, m - 1);
    }
  }

  lemma {:induction false} SweepFails(l: Ledger, project: Name, months: seq<Name>, now: Instant, i: nat)
    requires i <= |months| && SweepMonths(l, project, months[..i], now).None?
    ensures SweepMonths(l, project, months, now).None?
    decreases |months|
  {
    if i < |months| {
      assert months[..|months| - 1][..i] == months[..i];
      SweepFails(l, project, months[..|months| - 1], now, i);
    } else {
      assert months[..i] == months;
    }
  }

  lemma {:induction false} ClaimFails(
    counters: map<Window, Counter>, project: Name, account: Name, actionClass: Name, limits: seq<Limit>, n: nat, code: Code)
    requires n <= |limits| && ClaimWindows(counters, project, account, actionClass, limits, n) == Err(code)
    ensures ClaimWindows(counters, project, account, actionClass, limits, |limits|) == Err(code)
    decreases |limits| - n
  {
    if n < |limits| {
      ClaimFails(counters, project, account, actionClass, limits, n + 1, code);
    }
  }

  /** The repository: what is committed. */
  class PgStore {
    var tables: Tables

    constructor ()
      ensures tables == EmptyTables
    {
      tables := EmptyTables;
    }

    method Acquire(a: Attempt, disabled: bool, now: Instant) returns (reply: Reply)
      modifies this
      ensures (tables, reply) == Transactions.Acquire(old(tables), a, disabled, now)
    {
      var tx := new Transaction(tables);
      if disabled {
        return Failed(ProjectDisabled);
      }
      if a.key.None? {
        return Acquired;
      }
      var k := KeyOf(a);
      if k in tx.records {
        return if RecordMatches(tx.records[k], a.id) then Cached(tx.records[k].output) else Failed(IdempotencyConflict);
      }
      var fenced, sameIdentity := TerminalAudits(tx.audits, k, a.id);
      if fenced {
        return Failed(if sameIdentity then AlreadyCompleted else IdempotencyConflict);
      }
      if k in tx.claims && !Reclaimable(tx.claims[k], a, now) {
        return Failed(if tx.claims[k].id == a.id then IdempotencyInProgress else IdempotencyConflict);
      }
      tx.claims := tx.claims[k := Claim(a.request, a.id, now.ms + a.leaseMs, false)];
      tables := tx.View();
      reply := Acquired;
    }

    method Bind(a: Attempt, q: nat, month: Name) returns (reply: Reply)
      modifies this
      ensures (tables, reply) == Transactions.Bind(old(tables), a, q, month)
    {
      if a.key.None? {
        return Done;
      }
      var tx := new Transaction(tables);
      if !Finds(tx.View(), a, q, month) {
        return Failed(ReservationInvalid);
      }
      var r := tx.reservations[q];
      if r.id != a.id || r.key != a.key || !Active(r) {
        return Failed(ReservationInvalid);
      }
      if r.request.Some? {
        return if r.request == Some(a.request) then Done else Failed(ReservationInvalid);
      }
      tx.SetRow(q, r.(request := Some(a.request)));
      tables := tx.View();
      reply := Done;
    }

    method MarkDispatched(a: Attempt, q: nat, month: Name, revision: Revision, now: Instant) returns (reply: Reply)
      modifies this
      ensures (tables, reply) == Mark(old(tables), a, q, month, revision, now)
    {
      var tx := new Transaction(tables);
      if !Finds(tx.View(), a, q, month) {
        return Failed(ReservationInvalid);
      }
      var r := tx.reservations[q];
      if r.phase == Dispatched {
        var owned := a.key.None? || OwnsClaim(tx.View(), KeyOf(a), a.request);
        return if owned then Done else Failed(IdempotencyInProgress);
      }
      if r.phase != Pending || r.expiresAt <= now.ms {
        return Failed(ReservationInvalid);
      }
      if revision == Missing {
        return Failed(ConnectionNotFound);
      }
      if revision == Changed {
        return Failed(ConnectionChanged);
      }
      if a.key.Some? {
        if !Dispatchable(tx.View(), a, now) {
          return Failed(IdempotencyInProgress);
        }
        tx.claims := tx.claims[KeyOf(a) := tx.claims[KeyOf(a)].(dispatched := true)];
      }
      tx.SetRow(q, r.(phase := Dispatched, expiresAt := now.ms + DAY_MS));
      tables := tx.View();
      reply := Done;
    }

    method ReleasePending(a: Attempt) returns (reply: Reply)
      modifies this
      ensures (tables, reply) == Transactions.ReleasePending(old(tables), a)
    {
      var tx := new Transaction(tables);
      tx.DeleteOwnPendingClaim(a);
      tables := tx.View();
      reply := Done;
    }

    method ReleaseReservation(a: Attempt, q: nat, month: Name, allowDispatched: bool, clearClaim: bool, refund: bool)
      returns (reply: Reply)
      modifies this
      ensures (tables, reply) == Transactions.ReleaseReservation(old(tables), a, q, month, allowDispatched, clearClaim, refund)
    {
      var tx := new Transaction(tables);
      var open := Finds(tx.View(), a, q, month)
        && (tx.reservations[q].phase == Pending || (allowDispatched && tx.reservations[q].phase == Dispatched));
      if open {
        if refund {
          var refunded := tx.RefundAndReleaseRow(a.project, q);
          if !refunded {
            return Failed(ReservationInvalid);
          }
        } else {
          tx.SetRow(q, tx.reservations[q].(phase := Released));
        }
      }
      if clearClaim && open {
        tx.DeleteOwnClaim(a);
      } else {
        tx.DeleteOwnPendingClaim(a);
      }
      tables := tx.View();
      reply := Done;
    }

    method FinishNotDispatched(a: Attempt, q: nat, month: Name) returns (reply: Reply)
      modifies this
      ensures (tables, reply) == Transactions.FinishNotDispatched(old(tables), a, q, month)
    {
      var tx := new Transaction(tables);
      if !Finds(tx.View(), a, q, month) || tx.reservations[q].phase != Dispatched {
        return Failed(ReservationInvalid);
      }
      if FencedOut(tx.View(), a) {
        return Failed(IdempotencyInProgress);
      }
      var refunded := tx.RefundAndReleaseRow(a.project, q);
      if !refunded {
        return Failed(ReservationInvalid);
      }
      tx.DeleteOwnClaim(a);
      tables := tx.View();
      reply := Done;
    }

    method Finish(a: Attempt, q: nat, month: Name, output: Option<Name>) returns (reply: Reply)
      modifies this
      ensures (tables, reply) == Transactions.Finish(old(tables), a, q, month, output)
    {
      var tx := new Transaction(tables);
      if !Finds(tx.View(), a, q, month) {
        return Failed(ReservationInvalid);
      }
      var phase := tx.reservations[q].phase;
      if output.Some? && phase == Released {
        return Failed(ReservationInvalid);
      }
      if FencedOut(tx.View(), a) {
        if phase == Settled && KeyOf(a) in tx.records && RecordMatches(tx.records[KeyOf(a)], a.id) {
          return Done;
        }
        if !(phase == Released && output.None?) {
          return Failed(IdempotencyInProgress);
        }
      }
      if output.None? {
        return Done;
      }
      if phase == Dispatched {
        tx.Charge(a.project, ActionMeter(a.request), a.id.account, q, month);
      } else if phase != Settled {
        return Failed(ReservationInvalid);
      }
      if a.key.Some? && KeyOf(a) !in tx.records {
        tx.records := tx.records[KeyOf(a) := Record(a.id.connection, a.id.action, a.id.hash, output.value)];
      }
      tx.DeleteOwnClaim(a);
      tables := tx.View();
      reply := Done;
    }

    method FinishReadFailure(a: Attempt, q: nat, month: Name) returns (reply: Reply)
      modifies this
      ensures (tables, reply) == Transactions.FinishReadFailure(old(tables), a, q, month)
    {
      var tx := new Transaction(tables);
      if !Finds(tx.View(), a, q, month) {
        return Failed(ReservationInvalid);
      }
      if FencedOut(tx.View(), a) {
        return Failed(IdempotencyInProgress);
      }
      if tx.reservations[q].phase == Dispatched {
        tx.Charge(a.project, ActionMeter(a.request), a.id.account, q, month);
      } else if tx.reservations[q].phase == Pending {
        return Failed(ReservationInvalid);
      }
      tx.DeleteOwnClaim(a);
      tables := tx.View();
      reply := Done;
    }

    method FinishReadTimeout(a: Attempt, outcome: Outcome, pick: Option<nat>) returns (reply: Reply)
      requires IsLatestCandidate(tables, a, pick)
      modifies this
      ensures (tables, reply) == Transactions.FinishReadTimeout(old(tables), a, outcome, pick)
    {
      if a.key.None? {
        return Done;
      }
      var tx := new Transaction(tables);
      if !OwnsClaim(tx.View(), KeyOf(a), a.request) {
        return Done;
      }
      if pick.Some? {
        var q := pick.value;
        if tx.reservations[q].phase == Dispatched && tx.claims[KeyOf(a)].dispatched && outcome != NotDispatched {
          tx.Charge(a.project, ActionMeter(a.request), a.id.account, q, tx.reservations[q].month);
        } else {
          var refunded := tx.RefundAndReleaseRow(a.project, q);
          if !refunded {
            return Failed(ReservationInvalid);
          }
        }
      }
      tx.DeleteOwnClaim(a);
      tables := tx.View();
      reply := Done;
    }

    method Reserve(a: Attempt, readOnly: bool, p: Policy, now: Instant) returns (reply: Reply)
      modifies this
      ensures (tables, reply) == Transactions.Reserve(old(tables), a, readOnly, p, now)
    {
      var tx := new Transaction(tables);
      var months := MonthsToLock(tx.reservations, a.project, now);
      var swept := tx.Sweep(a.project, months, now);
      if !swept {
        return Failed(ReservationInvalid);
      }
      var cleaned := tx.View();
      var projected := Projected(tx.Books(), a.project, now.month, now);
      if projected.None? {
        if p.e.hard > 0 {
          tables := cleaned;
          return Failed(UsageLimitExceeded);
        }
        return Failed(Unavailable);
      }
      if p.e.hard > 0 && projected.value > p.e.hard {
        tables := cleaned;
        return Failed(UsageLimitExceeded);
      }
      var charges: seq<Charge> := [];
      match p.routing {
        case Unrouted =>
        case Rejected(code) => return Failed(code);
        case Paced(plan) =>
          var pace := Pace(a.project, a.id.account, plan.actionClass);
          if TooFast(tx.View(), pace, plan.spacingSeconds, now) {
            return Failed(LinkedInTooFast);
          }
          var claimed := tx.ClaimLinkedIn(a.project, a.id.account, plan.actionClass, plan.limits);
          if claimed.Err? {
            return Failed(claimed.code);
          }
          charges := claimed.value;
          tx.lastSent := tx.lastSent[pace := now.ms];
      }
      if !readOnly {
        var sent := ClaimSend(tx.counters, SendWindow(a.project, a.id.account, now.day), p.e, p.cost);
        if sent.Err? {
          return Failed(sent.code);
        }
        tx.counters := sent.value;
        charges := charges + [Charge(SendDay(now.day), 1, p.cost, false)];
      }
      var q := |tx.reservations|;
      tx.reservations := tx.reservations + [NewReservation(a, p, now, charges)];
      tables := tx.View();
      reply := Reserved(q, now.month);
    }

    method Reconcile(cmd: Command, now: Instant) returns (reply: Reply)
      modifies this
      ensures (tables, reply) == Transactions.Reconcile(old(tables), cmd, now)
    {
      var tx := new Transaction(tables);
      var refusal := Refusal(tx.View(), cmd, now);
      if refusal.Some? {
        return Failed(refusal.value);
      }
      var c := tx.claims[cmd.key];
      var exact := ExactReservation(tx.View(), cmd);
      if cmd.resolution.ProvenNotDispatched? {
        if exact.Some? {
          if tx.reservations[exact.value].phase == Settled {
            return Failed(ReservationStateConflict);
          }
          var refunded := tx.RefundAndReleaseRow(cmd.key.project, exact.value);
          if !refunded {
            return Failed(ReservationStateConflict);
          }
        }
      } else if exact.None? {
        if cmd.resolution.succeeded {
          tx.InsertEvent(Event(cmd.key.project, ActionMeter(c.owner), c.id.account, now, None), now.month);
        }
      } else {
        var q := exact.value;
        var r := tx.reservations[q];
        if cmd.resolution.succeeded {
          if r.phase == Pending || r.phase == Released {
            return Failed(ReservationStateConflict);
          }
          if r.phase == Dispatched {
            tx.Charge(cmd.key.project, ActionMeter(c.owner), c.id.account, q, r.month);
          } else {
            tx.InsertEvent(Event(cmd.key.project, ActionMeter(c.owner), c.id.account, r.createdAt, Some(q)), r.month);
          }
        } else if r.phase == Settled {
          return Failed(ReservationStateConflict);
        } else if r.phase != Released {
          tx.SetRow(q, r.(phase := Released));
        }
      }
      tx.audits := tx.audits + [Audit(cmd.key, c.owner, c.id, cmd.resolution)];
      if cmd.resolution.ProvenNotDispatched? {
        tx.DeleteClaim(cmd.key);
      }
      tables := tx.View();
      reply := Done;
    }
  }

  /** Whether the key has terminal audits, and whether they all name this identity. */
  method TerminalAudits(audits: seq<Audit>, k: Key, id: Identity) returns (some: bool, allMatch: bool)
    ensures some <==> exists i :: 0 <= i < |audits| && TerminalFor(audits[i], k)
    ensures allMatch <==> forall i :: 0 <= i < |audits| && TerminalFor(audits[i], k) ==> audits[i].id == id
  {
    some, allMatch := false, true;
    for n := 0 to |audits|
      invariant some <==> exists i :: 0 <= i < n && TerminalFor(audits[i], k)
      invariant allMatch <==> forall i :: 0 <= i < n && TerminalFor(audits[i], k) ==> audits[i].id == id
    {
      if TerminalFor(audits[n], k) {
        some, allMatch := true, allMatch && audits[n].id == id;
      }
    }
  }

  /** The months an admission locks, in order. */
  method MonthsToLock(rows: seq<Reservation>, project: Name, now: Instant) returns (months: seq<Name>)
    ensures months == QuotaMonths(rows, project, now)
  {
    months := [now.month];
    for n := 0 to |rows|
      invariant months == QuotaMonths(rows[..n], project, now)
    {
      assert rows[..n + 1][..n] == rows[..n];
      if Expired(rows[n], project, rows[n].month, now) {
        months := InsertMonth(months, rows[n].month);
      }
    }
    assert rows[..|rows|] == rows;
  }
}
