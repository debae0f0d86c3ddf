/** A concrete run in which usage is charged twice for one reservation and a hard limit is passed:
    a worker disappears after dispatch, its reservation is recovered, and an operator then records that the
    provider succeeded. The recovery and the operator write under different metering keys. */
module Overcharge {
  import opened Wrappers
  import opened Sums
  import opened Schema
  import opened Ledgers
  import opened Evidence
  import opened Transactions
  import opened Bookkeeping
  import opened Accounting
  import opened Service

  const Who := Identity(1, 1, 1, 1, 1)
  const Lost := Attempt(10, 1, Some(7), Who, 30_000)
  const Later := Attempt(11, 1, None, Who, 30_000)
  const Slot := Key(1, 7)
  const Start := Instant(0, 5, 50)
  const TwoDays := Instant(200_000_000, 5, 52)

  /** A hard limit of one call, no send or spend cap, no LinkedIn pacing. */
  const OneCall := Policy(Entitlements(1, 0, 0), 0, 60_000, Unrouted)

  const Early := Env(false, Unchanged, OneCall, Start)
  const Late := Env(false, Unchanged, OneCall, TwoDays)

  const SentWindow := SendWindow(1, 1, 50)
  const SentCharge := Charge(SendDay(50), 1, 0, false)
  const Held := Claim(10, Who, 30_000, false)
  const Row := Reservation(10, 1, 5, Who, Some(7), None, Pending, 60_000, Start, [SentCharge])
  const Dispatch := Row.(request := Some(10), phase := Dispatched, expiresAt := DAY_MS)

  const AfterAcquire := EmptyTables.(claims := map[Slot := Held])
  const AfterReserve :=
    AfterAcquire.(ledger := Ledger([Row], map[SentWindow := Counter(1, 0)], [], []))
  const AfterBind :=
    AfterAcquire.(ledger := Ledger([Row.(request := Some(10))], map[SentWindow := Counter(1, 0)], [], []))
  const AfterMark :=
    Tables(map[Slot := Held.(dispatched := true)], map[], [], map[],
           Ledger([Dispatch], map[SentWindow := Counter(1, 0)], [], []))

  const Recovered := Event(1, RecoveryMeter(0), 1, Start, Some(0))
  const Reported := Event(1, ActionMeter(10), 1, Start, Some(0))

  const AfterRecovery :=
    AfterMark.(ledger := Ledger([Dispatch.(phase := Settled)], map[SentWindow := Counter(1, 0)], [Recovered], [Rollup(1, 1, 5, 1)]))

  lemma Reserves()
    ensures Reserve(AfterAcquire, Lost, false, OneCall, Start) == (AfterReserve, Reserved(0, 5))
  {
    var months := QuotaMonths([], 1, Start);
    assert months == [5];
    assert months[..0] == [];
    assert SweepMonths(EmptyLedger, 1, [], Start) == Some(EmptyLedger);
    assert SweepMonths(EmptyLedger, 1, months, Start) == Some(EmptyLedger);
    assert Sum<Rollup>([], UsedIn(1, 5)) == 0 && Sum<Reservation>([], LiveIn(1, 5, Start)) == 0;
    assert Projected(EmptyLedger, 1, 5, Start) == Some(1);
    var counters := map[SentWindow := Counter(1, 0)];
    assert ClaimSend(map[], SentWindow, OneCall.e, 0) == Ok(map[][SentWindow := Counter(1, 0)]);
    assert map[][SentWindow := Counter(1, 0)] == counters;
    assert [] + [SentCharge] == [SentCharge];
    assert ClaimCounters(AfterAcquire, Lost, false, OneCall, Start) == Ok((counters, [SentCharge]));
    assert NewReservation(Lost, OneCall, Start, [SentCharge]) == Row;
    assert [] + [Row] == [Row];
    assert Admit(AfterAcquire, Lost, false, OneCall, Start) == Ok(AfterReserve);
  }

  lemma Marks()
    ensures Bind(AfterReserve, Lost, 0, 5) == (AfterBind, Done)
    ensures Mark(AfterBind, Lost, 0, 5, Unchanged, Start) == (AfterMark, Done)
  {
    var bound := Row.(request := Some(10));
    assert [Row][0 := bound] == [bound];
    assert [bound][0 := Dispatch] == [Dispatch];
    assert map[Slot := Held][Slot := Held.(dispatched := true)] == map[Slot := Held.(dispatched := true)];
  }

  lemma Recovers()
    ensures Reserve(AfterMark, Later, true, OneCall, TwoDays) == (AfterRecovery, Failed(UsageLimitExceeded))
  {
    LapsedMonths();
    SweepSettles();
    AllUsed();
    hide QuotaMonths, SweepMonths, Projected;
    assert SweepMonths(AfterMark.ledger, 1, QuotaMonths([Dispatch], 1, TwoDays), TwoDays) == Some(AfterRecovery.ledger);
  }

  lemma LapsedMonths()
    ensures QuotaMonths([Dispatch], 1, TwoDays) == [5]
  {
    assert [Dispatch][..0] == [];
    assert QuotaMonths([], 1, TwoDays) == [5];
  }

  lemma SweepSettles()
    ensures SweepMonths(AfterMark.ledger, 1, [5], TwoDays) == Some(AfterRecovery.ledger)
  {
    var l := AfterMark.ledger;
    assert [5][..0] == [];
    assert SweepMonths(l, 1, [], TwoDays) == Some(l);
    assert ExpirePending(l, 1, 5, TwoDays, 0) == Some(l);
    assert ExpirePending(l, 1, 5, TwoDays, 1) == Some(l);
    assert RecoverDispatched(l, 1, 5, TwoDays, 0) == l;
    assert FindRollup([], 1, 1, 5) == 0;
    assert RecoverDispatched(l, 1, 5, TwoDays, 1) == AfterRecovery.ledger;
  }

  lemma AllUsed()
    ensures Projected(AfterRecovery.ledger, 1, 5, TwoDays) == Some(2)
  {
    var l := AfterRecovery.ledger;
    assert l.rollups[..0] == [] && l.reservations[..0] == [];
    assert Sum(l.rollups, UsedIn(1, 5)) == 1;
    assert Sum(l.reservations, LiveIn(1, 5, TwoDays)) == 0;
  }

  const Report := Command(Slot, 1, 10, ProviderOutcomeKnown(true))

  lemma ReportsTwice()
    ensures var (t, reply) := Reconcile(AfterRecovery, Report, TwoDays);
      reply == Done && t.ledger.events == [Recovered, Reported] && t.ledger.rollups == [Rollup(1, 1, 5, 2)]
      && t.ledger.reservations == AfterRecovery.ledger.reservations
  {
    var rows := AfterRecovery.ledger.reservations;
    var c := AfterRecovery.claims[Slot];
    assert ExactFor(rows[0], Slot, c);
    assert LoadReservation(rows, Slot, c, 0, Some(0)) == Loaded(Some(0));
    assert LoadReservation(rows, Slot, c, 1, None) == Loaded(Some(0));
    assert !Tombstoned(AfterRecovery, Slot);
    assert Refusal(AfterRecovery, Report, TwoDays) == None;
    assert !Metered(AfterRecovery.ledger, 1, ActionMeter(10));
    assert FindRollup([Rollup(1, 1, 5, 1)], 1, 1, 5) == 0;
    assert [Rollup(1, 1, 5, 1)][0 := Rollup(1, 1, 5, 2)] == [Rollup(1, 1, 5, 2)];
    assert [Recovered] + [Reported] == [Recovered, Reported];
  }

  // -------------------------------------------------------------------- the run

  lemma {:induction false} RunMore(s: State, steps: seq<Step>, step: Step)
    ensures Run(s, steps + [step]) == Next(Run(s, steps), step)
  {
    assert (steps + [step])[..|steps|] == steps;
  }

  /** One reliable transaction of a run that has written no record. */
  lemma {:induction false} Commits(
    steps: seq<Step>, s: State, r: Name, env: Env, c: Call, t': Tables, reply: Reply) returns (more: seq<Step>, s': State)
    requires Run(Initial, steps) == s && s.writer == map[] && r in s.requests && !s.requests[r].cancelled
    requires CallOf(s.requests[r], env) == Some(c) && Executable(s.tables, c) && Exec(s.tables, c) == (t', reply)
    requires t'.records == map[]
    ensures more == steps + [Transact(r, env, Reliable)] && Run(Initial, more) == s'
    ensures s' == State(t', s.requests[r := After(s.requests[r], reply)], map[])
  {
    hide Transactions.Exec;
    more := steps + [Transact(r, env, Reliable)];
    RunMore(Initial, steps, Transact(r, env, Reliable));
    s' := State(t', s.requests[r := After(s.requests[r], reply)], map[]);
  }

  /** A new request, prepared as far as its reservation. */
  lemma {:induction false} Arrives(steps: seq<Step>, s: State, a: Attempt, readOnly: bool) returns (more: seq<Step>, s': State)
    requires Run(Initial, steps) == s && a.request !in s.requests
    ensures more == steps + [Arrive(a, readOnly)] && Run(Initial, more) == s'
    ensures s' == s.(requests := s.requests[a.request := Request(a, readOnly, Acquiring, None, NotDispatched, [], false, false, None)])
  {
    hide Transactions.Exec;
    more := steps + [Arrive(a, readOnly)];
    RunMore(Initial, steps, Arrive(a, readOnly));
    s' := Run(Initial, more);
  }

  lemma {:induction false} Prepares(steps: seq<Step>, s: State, r: Name) returns (more: seq<Step>, s': State)
    requires Run(Initial, steps) == s && r in s.requests && s.requests[r].pc == Preparing && !s.requests[r].cancelled
    ensures more == steps + [Prepare(r, true)] && Run(Initial, more) == s'
    ensures s' == s.(requests := s.requests[r := s.requests[r].(pc := Reserving)])
  {
    hide Transactions.Exec;
    more := steps + [Prepare(r, true)];
    RunMore(Initial, steps, Prepare(r, true));
    s' := Run(Initial, more);
  }

  lemma {:induction false} Admits() returns (steps: seq<Step>, s: State)
    ensures Run(Initial, steps) == s && s.tables == AfterReserve && s.writer == map[] && 11 !in s.requests
    ensures 10 in s.requests && s.requests[10] == Request(Lost, false, Binding, Some(Quota(0, 5)), NotDispatched, [], false, false, None)
    ensures forall i :: 0 <= i < |steps| && steps[i].Transact? ==> steps[i].env.policy == OneCall
  {
    hide Service.Next, Transactions.Reserve;
    assert Acquire(EmptyTables, Lost, false, Start) == (AfterAcquire, Acquired);
    Reserves();
    steps, s := Arrives([], Initial, Lost, false);
    steps, s := Commits(steps, s, 10, Early, AcquireCall(Lost, false, Start), AfterAcquire, Acquired);
    steps, s := Prepares(steps, s, 10);
    steps, s := Commits(steps, s, 10, Early, ReserveCall(Lost, false, OneCall, Start), AfterReserve, Reserved(0, 5));
  }

  lemma {:induction false} Dispatches() returns (steps: seq<Step>, s: State)
    ensures Run(Initial, steps) == s && s.tables == AfterMark && s.writer == map[] && 11 !in s.requests
    ensures forall i :: 0 <= i < |steps| && steps[i].Transact? ==> steps[i].env.policy == OneCall
  {
    hide Service.Next, Service.Run, Transactions.Bind, Transactions.Mark;
    Marks();
    steps, s := Admits();
    steps, s := Commits(steps, s, 10, Early, BindCall(Lost, 0, 5), AfterBind, Done);
    steps, s := Commits(steps, s, 10, Early, MarkCall(Lost, 0, 5, Unchanged, Start), AfterMark, Done);
  }

  lemma {:induction false} Abandons() returns (steps: seq<Step>)
    ensures Run(Initial, steps).tables == AfterRecovery
    ensures forall i :: 0 <= i < |steps| && steps[i].Transact? ==> steps[i].env.policy == OneCall
  {
    hide Service.Next, Service.Run, Transactions.Reserve;
    var s;
    Recovers();
    steps, s := Dispatches();
    steps, s := Arrives(steps, s, Later, true);
    steps, s := Commits(steps, s, 11, Late, AcquireCall(Later, false, TwoDays), AfterMark, Acquired);
    steps, s := Prepares(steps, s, 11);
    steps, s := Commits(steps, s, 11, Late, ReserveCall(Later, true, OneCall, TwoDays), AfterRecovery, Failed(UsageLimitExceeded));
  }

  /** With a hard limit of one call, a run commits two calls, both charged to the one reservation. */
  lemma {:induction false} ChargedTwice() returns (steps: seq<Step>)
    ensures forall i :: 0 <= i < |steps| && steps[i].Transact? ==> steps[i].env.policy.e.hard == 1
    ensures var l := Run(Initial, steps).tables.ledger;
      && !UsageExact(l) && Committed(l, 1, 5) == 2
      && |l.reservations| == 1 && |l.events| == 2 && l.events[0].source == l.events[1].source == Some(0)
  {
    steps := Abandons();
    ReportsTwice();
    RunMore(Initial, steps, Operate(Report, TwoDays));
    steps := steps + [Operate(Report, TwoDays)];
    var l := Run(Initial, steps).tables.ledger;
    assert l.events == [Recovered, Reported];
    assert [Recovered, Reported][..1] == [Recovered] && [Recovered][..0] == [];
    assert Sum([Recovered], FromReservation(0)) == 1;
    assert Sum(l.events, FromReservation(0)) == 2;
    assert l.rollups[..0] == [] && l.reservations[..0] == [];
    assert Sum(l.rollups, UsedIn(1, 5)) == 2;
    assert Sum(l.reservations, ActiveIn(1, 5)) == 0;
  }
}
