/** The whole way of an undisturbed request from its arrival to its recorded success. */
module HappyPath {
  import opened Wrappers
  import opened Sums
  import opened Schema
  import opened Ledgers
  import opened Evidence
  import opened Transactions
  import opened Conservation
  import opened Bookkeeping
  import opened Accounting
  import opened Effects
  import opened Admissions
  import opened Service
  import opened Protocol
  import opened Preservation
  import opened Guarantees
  import opened Durability
  import opened Driving

  ghost predicate Sound(s: State) { Inv(s) && UsageExact(s.tables.ledger) }

  lemma {:induction false} StepKeepsSound(s: State, step: Step)
    requires Sound(s) && !step.Operate?
    ensures Sound(Next(s, step))
  {
    hide Transactions.Exec, Bookkeeping.UsageExact, Bookkeeping.Books, Protocol.Inv;
    StepKeepsInv(s, step);
    StepKeepsUsageIff(s, step);
    if Enabled(s, step) && CallIn(s, step).Some? {
      RollbackIsFair(s, step);
    }
  }

  /** Everything the request needs: its key is open, its project has quota, its route and caps have room, its
      connection is unchanged, and the leases it asks for last. */
  ghost predicate Welcome(s: State, a: Attempt, readOnly: bool, env: Env)
    requires Books(s.tables.ledger)
  {
    var cleaned := s.tables.(ledger := SweptLedger(s.tables, a.project, env.now));
    && a.request !in s.requests && !env.disabled && env.revision == Unchanged
    && a.leaseMs > 0 && env.policy.leaseMs > 0
    && (a.key.Some? ==> KeyIsOpen(s.tables, KeyOf(a), a.id, env.now))
    && HasQuota(cleaned.ledger, a, env.policy.e.hard, env.now) && RouteOpen(cleaned, a, env.policy.routing, env.now)
    && (readOnly || SendOpen(cleaned.ledger.counters, a, env.policy, env.now))
  }

  /** The request as far as it has come. */
  function Going(a: Attempt, readOnly: bool, pc: Pc, quota: Option<Quota>, outcome: Outcome, log: seq<Entry>): Request {
    Request(a, readOnly, pc, quota, outcome, log, false, false, None)
  }

  ghost predicate At(s: State, q: Request) {
    Sound(s) && q.a.request in s.requests && s.requests[q.a.request] == q && !q.cancelled
  }

  ghost predicate HoldsClaim(t: Tables, a: Attempt, now: Instant, dispatched: bool) {
    a.key.Some? ==>
      && KeyOf(a) in t.claims && t.claims[KeyOf(a)] == Claim(a.request, a.id, now.ms + a.leaseMs, dispatched)
      && KeyOf(a) !in t.records
  }

  lemma {:induction false} Arrives(s: State, a: Attempt, readOnly: bool)
    requires Sound(s) && a.request !in s.requests
    ensures var s' := Next(s, Arrive(a, readOnly));
      At(s', Going(a, readOnly, Acquiring, None, NotDispatched, [])) && s'.tables == s.tables
  {
    hide Sound;
    StepKeepsSound(s, Arrive(a, readOnly));
  }

  lemma {:induction false} Acquires(s: State, a: Attempt, readOnly: bool, env: Env)
    requires At(s, Going(a, readOnly, Acquiring, None, NotDispatched, [])) && !env.disabled
    requires a.key.Some? ==> KeyIsOpen(s.tables, KeyOf(a), a.id, env.now)
    ensures var s' := Do(s, a.request, env);
      && At(s', Going(a, readOnly, Preparing, None, NotDispatched, []))
      && HoldsClaim(s'.tables, a, env.now, false)
      && s'.tables.ledger == s.tables.ledger && s'.tables.lastSent == s.tables.lastSent
  {
    hide Sound, Transactions.Acquire, Transactions.Exec;
    DoIs(s, a.request, env);
    AcquireIsExec(s.tables, a, env.disabled, env.now);
    AcquireLaw(s.tables, a, env.disabled, env.now);
    StepKeepsSound(s, Transact(a.request, env, Reliable));
  }

  lemma {:induction false} Prepares(s: State, a: Attempt, readOnly: bool)
    requires At(s, Going(a, readOnly, Preparing, None, NotDispatched, []))
    ensures var s' := Next(s, Prepare(a.request, true));
      At(s', Going(a, readOnly, Reserving, None, NotDispatched, [])) && s'.tables == s.tables
  {
    hide Sound;
    StepKeepsSound(s, Prepare(a.request, true));
  }

  /** The reservation of the request, bound or not, dispatched or not. */
  ghost predicate HoldsRow(t: Tables, a: Attempt, q: nat, month: Name, phase: Phase, bound: bool, expiresAt: int) {
    Named(t, a, q, month) &&
    var r := t.ledger.reservations[q];
    && r.creator == a.request && r.id == a.id && r.key == a.key && r.phase == phase && r.expiresAt == expiresAt
    && r.request == if bound then Some(a.request) else None
  }

  lemma {:induction false} SoundBooks(s: State)
    requires Sound(s)
    ensures Books(s.tables.ledger)
  {
  }

  lemma {:induction false} Reserves(s: State, a: Attempt, readOnly: bool, env: Env)
    requires At(s, Going(a, readOnly, Reserving, None, NotDispatched, [])) && HoldsClaim(s.tables, a, env.now, false)
    requires Books(s.tables.ledger)
    requires Reserve(s.tables, a, readOnly, env.policy, env.now).1.Reserved?
    ensures var s', n := Do(s, a.request, env), |s.tables.ledger.reservations|;
      && At(s', Going(a, readOnly, Binding, Some(Quota(n, env.now.month)), NotDispatched, []))
      && HoldsClaim(s'.tables, a, env.now, false)
      && HoldsRow(s'.tables, a, n, env.now.month, Pending, false, env.now.ms + env.policy.leaseMs)
  {
    hide Sound, Transactions.Reserve, Transactions.Exec, Bookkeeping.Books;
    DoIs(s, a.request, env);
    RefusedReserveKeepsClaims(s.tables, a, readOnly, env.policy, env.now);
    AdmittedLaw(s.tables, a, readOnly, env.policy, env.now);
    SweepLaw(s.tables.ledger, a.project, env.now);
    StepKeepsSound(s, Transact(a.request, env, Reliable));
  }

  lemma {:induction false} Binds(s: State, a: Attempt, readOnly: bool, env: Env, q: nat, month: Name, expiresAt: int)
    requires At(s, Going(a, readOnly, Binding, Some(Quota(q, month)), NotDispatched, []))
    requires HoldsClaim(s.tables, a, env.now, false) && HoldsRow(s.tables, a, q, month, Pending, false, expiresAt)
    ensures var s' := Do(s, a.request, env);
      && At(s', Going(a, readOnly, Marking, Some(Quota(q, month)), NotDispatched, []))
      && HoldsClaim(s'.tables, a, env.now, false) && HoldsRow(s'.tables, a, q, month, Pending, a.key.Some?, expiresAt)
  {
    hide Sound, Transactions.Bind, Transactions.Exec;
    FenceCalls(s.requests[a.request], env);
    ExecIs(s.tables, a, q, month, Unchanged, env.now, None);
    DoIs(s, a.request, env);
    BindLaw(s.tables, a, q, month);
    StepKeepsSound(s, Transact(a.request, env, Reliable));
  }

  lemma {:induction false} Marks(s: State, a: Attempt, readOnly: bool, env: Env, q: nat, month: Name, expiresAt: int)
    requires At(s, Going(a, readOnly, Marking, Some(Quota(q, month)), NotDispatched, []))
    requires HoldsClaim(s.tables, a, env.now, false) && HoldsRow(s.tables, a, q, month, Pending, a.key.Some?, expiresAt)
    requires env.revision == Unchanged && env.now.ms < expiresAt && a.leaseMs > 0
    ensures var s' := Do(s, a.request, env);
      && At(s', Going(a, readOnly, Ready(0), Some(Quota(q, month)), NotDispatched, []))
      && HoldsClaim(s'.tables, a, env.now, true)
      && HoldsRow(s'.tables, a, q, month, Dispatched, a.key.Some?, env.now.ms + DAY_MS)
  {
    hide Sound, Transactions.Mark, Transactions.Exec;
    FenceCalls(s.requests[a.request], env);
    ExecIs(s.tables, a, q, month, env.revision, env.now, None);
    DoIs(s, a.request, env);
    MarkLaw(s.tables, a, q, month, env.revision, env.now);
    StepKeepsSound(s, Transact(a.request, env, Reliable));
  }

  lemma {:induction false} Runs(s: State, a: Attempt, readOnly: bool, quota: Option<Quota>, output: Name)
    requires At(s, Going(a, readOnly, Ready(0), quota, NotDispatched, []))
    ensures var s' := Next(Next(s, EnterRunner(a.request)), RunnerReturns(a.request, Answer(output, true)));
      && At(s', Going(a, readOnly, FinishingOutput(output), quota, ResponseReceived, [Answered(output)]))
      && s'.tables == s.tables
  {
    hide Sound, Service.Next, At;
    Enters(s, a, readOnly, quota);
    Returns(Next(s, EnterRunner(a.request)), a, readOnly, quota, output);
  }

  lemma {:induction false} Enters(s: State, a: Attempt, readOnly: bool, quota: Option<Quota>)
    requires At(s, Going(a, readOnly, Ready(0), quota, NotDispatched, []))
    ensures var s' := Next(s, EnterRunner(a.request));
      At(s', Going(a, readOnly, Running(0, NotDispatched), quota, Unknown, [InFlight])) && s'.tables == s.tables
  {
    hide Sound;
    StepKeepsSound(s, EnterRunner(a.request));
    assert [] + [InFlight] == [InFlight];
  }

  lemma {:induction false} Returns(s: State, a: Attempt, readOnly: bool, quota: Option<Quota>, output: Name)
    requires At(s, Going(a, readOnly, Running(0, NotDispatched), quota, Unknown, [InFlight]))
    ensures var s' := Next(s, RunnerReturns(a.request, Answer(output, true)));
      && At(s', Going(a, readOnly, FinishingOutput(output), quota, ResponseReceived, [Answered(output)]))
      && s'.tables == s.tables
  {
    hide Sound;
    StepKeepsSound(s, RunnerReturns(a.request, Answer(output, true)));
    assert [InFlight][..0] + [Answered(output)] == [Answered(output)];
  }

  lemma {:induction false} Finishes(s: State, a: Attempt, readOnly: bool, env: Env, q: nat, month: Name, output: Name, now: Instant, expiresAt: int)
    requires At(s, Going(a, readOnly, FinishingOutput(output), Some(Quota(q, month)), ResponseReceived, [Answered(output)]))
    requires HoldsClaim(s.tables, a, now, true) && HoldsRow(s.tables, a, q, month, Dispatched, a.key.Some?, expiresAt)
    ensures var s', t := Do(s, a.request, env), Do(s, a.request, env).tables;
      && At(s', Going(a, readOnly, Stopped, Some(Quota(q, month)), ResponseReceived, [Answered(output)]))
      && q < |t.ledger.reservations| && t.ledger.reservations[q].phase == Settled && t.ledger.reservations[q].creator == a.request
      && Charged(s.tables.ledger, t.ledger, q, ActionMeter(a.request))
      && (a.key.Some? ==>
            && KeyOf(a) in t.records && KeyOf(a) !in t.claims
            && t.records[KeyOf(a)] == Record(a.id.connection, a.id.action, a.id.hash, output))
  {
    hide Transactions.Finish, Transactions.Exec, Protocol.Inv, Bookkeeping.Books, Bookkeeping.UsageExact;
    SoundBooks(s);
    FenceCalls(s.requests[a.request], env);
    ExecIs(s.tables, a, q, month, Unchanged, env.now, Some(output));
    DoIs(s, a.request, env);
    FinishLaw(s.tables, a, q, month, output);
    StepKeepsSound(s, Transact(a.request, env, Reliable));
    hide Sound;
  }

  /** The steps of one undisturbed request. */
  function Journey(a: Attempt, readOnly: bool, env: Env, output: Name): seq<Step> {
    var next := Transact(a.request, env, Reliable);
    [Arrive(a, readOnly), next, Prepare(a.request, true), next, next, next,
     EnterRunner(a.request), RunnerReturns(a.request, Answer(output, true)), next]
  }

  lemma {:induction false} RunNine(s: State, j: seq<Step>)
    requires |j| == 9
    ensures Run(s, j) == Next(Next(Next(Next(Next(Next(Next(Next(Next(s, j[0]), j[1]), j[2]), j[3]), j[4]), j[5]), j[6]), j[7]), j[8])
  {
    hide Service.Next;
    assert j[..9] == j;
    RunNext(s, j, 8); RunNext(s, j, 7); RunNext(s, j, 6); RunNext(s, j, 5); RunNext(s, j, 4);
    RunNext(s, j, 3); RunNext(s, j, 2); RunNext(s, j, 1); RunNext(s, j, 0);
    assert j[..0] == [];
  }

  /** From any reachable state, a welcome request that runs undisturbed succeeds: its answer is recorded under its
      key, its reservation settled and charged once, its claim gone, and it entered the runner once. */
  lemma {:induction false} WelcomeRequestSucceeds(s: State, a: Attempt, readOnly: bool, env: Env, output: Name)
    requires Sound(s) && Books(s.tables.ledger) && Welcome(s, a, readOnly, env)
    ensures var s', n := Run(s, Journey(a, readOnly, env, output)), |s.tables.ledger.reservations|;
      && a.request in s'.requests && s'.requests[a.request].pc == Stopped && s'.requests[a.request].log == [Answered(output)]
      && n < |s'.tables.ledger.reservations| && s'.tables.ledger.reservations[n].creator == a.request
      && s'.tables.ledger.reservations[n].phase == Settled && Sum(s'.tables.ledger.events, FromReservation(n)) == 1
      && (a.key.Some? ==>
            && KeyOf(a) in s'.tables.records && KeyOf(a) !in s'.tables.claims
            && s'.tables.records[KeyOf(a)] == Record(a.id.connection, a.id.action, a.id.hash, output))
  {
    hide Service.Next, Protocol.Inv, Bookkeeping.Books, Bookkeeping.UsageExact, HoldsRow, HoldsClaim, Charged;
    var j := Journey(a, readOnly, env, output);
    RunNine(s, j);
    var n, month, leased := |s.tables.ledger.reservations|, env.now.month, env.now.ms + env.policy.leaseMs;
    Arrives(s, a, readOnly);
    var s1 := Next(s, j[0]);
    Acquires(s1, a, readOnly, env);
    var s2 := Do(s1, a.request, env);
    Prepares(s2, a, readOnly);
    var s3 := Next(s2, j[2]);
    SoundBooks(s3);
    WelcomeIsAdmitted(s, s3, a, readOnly, env);
    Reserves(s3, a, readOnly, env);
    var s4 := Do(s3, a.request, env);
    Binds(s4, a, readOnly, env, n, month, leased);
    var s5 := Do(s4, a.request, env);
    Marks(s5, a, readOnly, env, n, month, leased);
    var s6 := Do(s5, a.request, env);
    Runs(s6, a, readOnly, Some(Quota(n, month)), output);
    var s8 := Next(Next(s6, j[6]), j[7]);
    Finishes(s8, a, readOnly, env, n, month, output, env.now, env.now.ms + DAY_MS);
    SettledHasOne(Do(s8, a.request, env).tables.ledger, n);
  }

  lemma {:induction false} WelcomeIsAdmitted(s: State, s3: State, a: Attempt, readOnly: bool, env: Env)
    requires Books(s.tables.ledger) && Welcome(s, a, readOnly, env)
    requires s3.tables.ledger == s.tables.ledger && s3.tables.lastSent == s.tables.lastSent
    ensures Reserve(s3.tables, a, readOnly, env.policy, env.now).1.Reserved?
  {
    hide Transactions.Reserve, Bookkeeping.Books, HasQuota, SendOpen;
    AdmissionLaw(s3.tables, a, readOnly, env.policy, env.now);
  }
}
