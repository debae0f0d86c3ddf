/** The invariant of the whole protocol: what holds of the tables and of every request in every reachable state. */
module Protocol {
  import opened Wrappers
  import opened Schema
  import opened Ledgers
  import opened Evidence
  import opened Transactions
  import opened Conservation
  import opened Bookkeeping
  import opened Accounting
  import opened Isolation
  import opened Service

  // -------------------------------------------------------------- vocabulary

  /** An operator recorded proof that the request was never dispatched. */
  predicate Proven(t: Tables, r: Name) {
    exists i :: 0 <= i < |t.audits| && t.audits[i].request == r && t.audits[i].resolution.ProvenNotDispatched?
  }

  predicate BeforeReserve(pc: Pc) { pc.Acquiring? || pc.Preparing? || pc.Reserving? }

  /** The dispatch fence was passed. */
  predicate PastMark(pc: Pc) {
    pc.Ready? || pc.Running? || pc.FinishingOutput? || pc.FinishingError? || pc.FinishingNotDispatched?
    || pc.ReleasingQuota? || pc.FinishingReadFailure?
  }

  predicate NeedsQuota(pc: Pc) { PastMark(pc) || pc.Binding? || pc.Marking? || pc.ReleasingReservation? }

  /** The request's dispatched claim still stands, or an operator removed it with proof. */
  predicate Fenced(t: Tables, q: Request) {
    q.a.key.Some? && (HoldsDispatched(t, KeyOf(q.a), q.a.request) || Proven(t, q.a.request))
  }

  predicate Wrote(writer: map<Key, Name>, q: Request) {
    q.a.key.Some? && KeyOf(q.a) in writer && writer[KeyOf(q.a)] == q.a.request
  }

  // -------------------------------------------------------- one request's share

  /** The runner log agrees with the program counter and the evidence. */
  ghost predicate Logged(q: Request) {
    && q.outcome == Worst(q.log)
    && |q.log| <= Attempts(q.readOnly)
    && (!PastMark(q.pc) && q.pc != Stopped ==> q.log == [])
    && (q.pc.Ready? ==> |q.log| == q.pc.index && q.pc.index < Attempts(q.readOnly))
    && (q.pc.Running? ==>
          && |q.log| == q.pc.index + 1
          && q.log[q.pc.index] == InFlight && q.pc.prior == Worst(q.log[..q.pc.index]))
    && (q.pc.FinishingNotDispatched? ==> q.outcome == NotDispatched)
    && (q.pc.FinishingReadFailure? ==> q.readOnly)
    && (q.pc.FinishingOutput? ==> q.log != [] && q.log[|q.log| - 1] == Answered(q.pc.output))
  }

  /** The request's reservation is in a phase that fits its program counter. */
  ghost predicate Linked(t: Tables, q: Request) {
    var rows := t.ledger.reservations;
    && (NeedsQuota(q.pc) ==> q.quota.Some?)
    && (q.quota.Some? ==>
          q.quota.value.id < |rows| && rows[q.quota.value.id].creator == q.a.request
          && rows[q.quota.value.id].month == q.quota.value.month)
    && (BeforeReserve(q.pc) ==> forall i :: 0 <= i < |rows| ==> rows[i].creator != q.a.request)
    && (q.log != [] ==> forall i :: 0 <= i < |rows| && rows[i].creator == q.a.request ==> rows[i].phase != Pending)
    && (q.quota.Some? ==> PhaseFits(t, q, rows[q.quota.value.id]))
  }

  ghost predicate PhaseFits(t: Tables, q: Request, row: Reservation) {
    && (q.pc.Marking? && q.a.key.Some? ==> row.request == Some(q.a.request))
    && (q.pc.Binding? || q.pc.Marking? ==> row.phase == Pending || row.phase == Released)
    && (PastMark(q.pc) ==> row.phase != Pending)
    && (PastMark(q.pc) && !q.cancelled && HasRefund(row) ==> Proven(t, q.a.request))
  }

  /** A keyed request past the fence keeps its claim; an unproven mutation keeps its claim or wrote the record. */
  ghost predicate FenceKept(t: Tables, writer: map<Key, Name>, q: Request) {
    && (q.a.key.Some? && PastMark(q.pc) && !(q.readOnly && q.cancelled) ==> Fenced(t, q))
    && (q.a.key.Some? && !q.readOnly && q.outcome != NotDispatched ==> Fenced(t, q) || Wrote(writer, q))
    && (q.cached.Some? ==>
          && q.a.key.Some? && KeyOf(q.a) in t.records
          && RecordMatches(t.records[KeyOf(q.a)], q.a.id) && t.records[KeyOf(q.a)].output == q.cached.value)
  }

  ghost predicate RequestOk(t: Tables, writer: map<Key, Name>, r: Name, q: Request) {
    q.a.request == r && Logged(q) && Linked(t, q) && FenceKept(t, writer, q)
  }

  // ----------------------------------------------------------- rows and their requests

  ghost predicate RowsBacked(t: Tables, requests: map<Name, Request>) {
    forall i :: 0 <= i < |t.ledger.reservations| ==>
      var row := t.ledger.reservations[i];
      && row.creator in requests
      && row.project == requests[row.creator].a.project
      && row.id == requests[row.creator].a.id
      && row.key == requests[row.creator].a.key
  }

  ghost predicate ClaimsBacked(t: Tables, requests: map<Name, Request>) {
    forall k :: k in t.claims ==>
      var c := t.claims[k];
      && k !in t.records
      && c.owner in requests && requests[c.owner].pc != Acquiring
      && requests[c.owner].a.key == Some(k.text) && requests[c.owner].a.project == k.project
      && requests[c.owner].a.id == c.id
  }

  /** Until its claim is dispatched a request's reservation is not. */
  ghost predicate PendingTogether(t: Tables) {
    var rows := t.ledger.reservations;
    forall k, i :: (k in t.claims && !t.claims[k].dispatched && 0 <= i < |rows| && rows[i].creator == t.claims[k].owner) ==>
      rows[i].phase == Pending || rows[i].phase == Released
  }

  /** Every completed record was written by one request, from its own answer. */
  ghost predicate RecordsBacked(t: Tables, requests: map<Name, Request>, writer: map<Key, Name>) {
    && (forall k :: k in writer ==> k in t.records)
    && forall k :: k in t.records ==>
         && k in writer && writer[k] in requests
         && var w := requests[writer[k]];
            && w.pc == Stopped && w.a.key == Some(k.text) && w.a.project == k.project
            && RecordMatches(t.records[k], w.a.id)
            && w.log != [] && w.log[|w.log| - 1] == Answered(t.records[k].output)
  }

  /** A refunded reservation belongs to a request whose evidence is nondispatch, or an operator proved it. */
  ghost predicate RefundsBacked(t: Tables, requests: map<Name, Request>) {
    forall i :: 0 <= i < |t.ledger.reservations| && HasRefund(t.ledger.reservations[i]) ==>
      var c := t.ledger.reservations[i].creator;
      c in requests && (requests[c].outcome == NotDispatched || Proven(t, c))
  }

  ghost predicate Inv(s: State) {
    && Books(s.tables.ledger)
    && (forall r :: r in s.requests ==> RequestOk(s.tables, s.writer, r, s.requests[r]))
    && RowsBacked(s.tables, s.requests)
    && ClaimsBacked(s.tables, s.requests)
    && PendingTogether(s.tables)
    && RecordsBacked(s.tables, s.requests, s.writer)
    && RefundsBacked(s.tables, s.requests)
  }

  // --------------------------------------------------------------- bystanders

  ghost predicate WriterGrows(writer: map<Key, Name>, writer': map<Key, Name>) {
    forall k :: k in writer ==> k in writer' && writer'[k] == writer[k]
  }

  lemma {:induction false} ProvenStays(t: Tables, t': Tables, r: Name)
    requires HistoryKept(t, t') && Proven(t, r)
    ensures Proven(t', r)
  {
    var i :| 0 <= i < |t.audits| && t.audits[i].request == r && t.audits[i].resolution.ProvenNotDispatched?;
    assert t'.audits[i] == t.audits[i];
  }

  lemma {:induction false} FencedStays(t: Tables, t': Tables, q: Request, actor: Name)
    requires Spares(t, t', actor) && q.a.request != actor && Fenced(t, q)
    ensures Fenced(t', q)
  {
    if Proven(t, q.a.request) {
      ProvenStays(t, t', q.a.request);
    }
  }

  /** A transaction of one request leaves every other request's share of the invariant alone. */
  lemma {:induction false} BystanderLinked(t: Tables, t': Tables, q: Request, actor: Name)
    requires Spares(t, t', actor) && q.a.request != actor && Linked(t, q)
    ensures Linked(t', q)
  {
    var rows, rows' := t.ledger.reservations, t'.ledger.reservations;
    forall i | 0 <= i < |rows'| && rows'[i].creator == q.a.request
      ensures i < |rows| && rows[i].creator == q.a.request && RowDrifts(rows[i], rows'[i])
    {
    }
    if q.quota.Some? && Proven(t, q.a.request) {
      ProvenStays(t, t', q.a.request);
    }
  }

  lemma {:induction false} BystanderOk(t: Tables, t': Tables, writer: map<Key, Name>, writer': map<Key, Name>, r: Name, q: Request, actor: Name)
    requires Spares(t, t', actor) && WriterGrows(writer, writer') && r != actor
    requires RequestOk(t, writer, r, q)
    ensures RequestOk(t', writer', r, q)
  {
    BystanderLinked(t, t', q, actor);
    if Fenced(t, q) {
      FencedStays(t, t', q, actor);
    }
  }

  // ------------------------------------------------------------ what the actor passes

  /** The service passes each transaction only what its request owns. */
  lemma {:induction false} CallIsOwned(s: State, step: Step)
    requires Inv(s) && Enabled(s, step) && CallIn(s, step).Some?
    ensures Owned(s.tables.ledger, CallIn(s, step).value)
    ensures !step.Operate? ==> ActorOf(s.tables, CallIn(s, step).value) == step.request
  {
    hide Logged, FenceKept, ClaimsBacked, RecordsBacked, RefundsBacked, PendingTogether, Bookkeeping.Books, Transactions.Exec;
    if step.Transact? {
      var q := s.requests[step.request];
      assert RequestOk(s.tables, s.writer, step.request, q);
      if q.quota.Some? {
        assert Owns(s.tables.ledger, q.a, q.quota.value.id);
      }
    }
  }

  lemma {:induction false} NothingHappens(t: Tables, actor: Name)
    ensures LedgerGrows(t.ledger, t.ledger) && Spares(t, t, actor)
  {
  }

  /** The request a step acts for. */
  function ActorIn(s: State, step: Step): Name {
    if step.Arrive? then step.a.request
    else if step.Operate? then ActorOf(s.tables, ReconcileCall(step.cmd, step.now))
    else step.request
  }

  /** Every step keeps the books, spares bystanders and only grows the ledger. */
  lemma {:induction false} StepSpares(s: State, step: Step)
    requires Inv(s) && Enabled(s, step)
    ensures Books(TablesAfter(s, step).ledger)
    ensures LedgerGrows(s.tables.ledger, TablesAfter(s, step).ledger)
    ensures Spares(s.tables, TablesAfter(s, step), ActorIn(s, step))
  {
    hide Transactions.Exec, Accounting.Owned, Bookkeeping.Books, Bookkeeping.LedgerGrows, Isolation.Spares;
    NothingHappens(s.tables, ActorIn(s, step));
    if CallIn(s, step).Some? {
      CallIsOwned(s, step);
      ExecKeepsBooks(s.tables, CallIn(s, step).value);
      ExecSpares(s.tables, CallIn(s, step).value);
    }
  }

  // ------------------------------------------------------------------ refunds

  lemma {:induction false} MoveRefunds(l: Ledger, moves: seq<Move>, i: nat)
    requires LegalAll(l, moves) && |moves| <= 1 && i < |l.reservations| && !HasRefund(l.reservations[i])
    requires i < |PlayAll(l, moves).reservations| && HasRefund(PlayAll(l, moves).reservations[i])
    ensures moves == [RefundRelease(i)]
  {
    assert moves != [];
    assert moves[1..] == [];
    if moves[0].RefundRelease? && RefundAndRelease(l, l.reservations[moves[0].q].project, moves[0].q).Some? {
      RefundedRow(l, moves[0].q);
    }
  }

  lemma {:induction false} ReserveRefunds(t: Tables, a: Attempt, readOnly: bool, p: Policy, now: Instant, i: nat)
    requires Books(t.ledger) && Owned(t.ledger, ReserveCall(a, readOnly, p, now))
    requires i < |t.ledger.reservations| && !HasRefund(t.ledger.reservations[i])
    requires var rows' := Reserve(t, a, readOnly, p, now).0.ledger.reservations; i < |rows'| && HasRefund(rows'[i])
    ensures t.ledger.reservations[i].phase == Pending
  {
    var moves, swept := ReserveMoves(t, a, readOnly, p, now);
    assert RowDrifts(t.ledger.reservations[i], swept.reservations[i]);
  }

  /** The transaction asks for its own reservation's charges back. */
  predicate AsksRefund(c: Call) {
    c.ReleaseNotDispatchedCall? || c.FinishNotDispatchedCall? || c.FinishReadTimeoutCall?
  }

  /** A transaction refunds only pending rows, rows of the request that asked for it, or an operator's. */
  lemma {:induction false} RefundCause(t: Tables, c: Call, t': Tables, i: nat)
    requires Books(t.ledger) && Owned(t.ledger, c) && Executable(t, c) && t' == Exec(t, c).0
    requires i < |t.ledger.reservations| && !HasRefund(t.ledger.reservations[i])
    requires i < |t'.ledger.reservations| && HasRefund(t'.ledger.reservations[i])
    ensures var row := t.ledger.reservations[i];
      || row.phase == Pending
      || (row.creator == ActorOf(t, c) && AsksRefund(c))
      || (row.creator == ActorOf(t, c) && c.ReconcileCall? && Proven(t', row.creator))
  {
    if c.ReserveCall? {
      ReserveRefunds(t, c.a, c.readOnly, c.policy, c.now, i);
    } else if c.ReconcileCall? {
      var moves := ReconcileMoves(t, c.cmd, c.now);
      MoveRefunds(t.ledger, moves, i);
      assert t'.audits[|t.audits|].request == t.claims[c.cmd.key].owner;
    } else {
      var moves := RequestMoves(t, c);
      MoveRefunds(t.ledger, moves, i);
    }
  }

  // ---------------------------------------------------------------- the actor's log

  lemma {:induction false} AfterLogged(q: Request, reply: Reply)
    requires Logged(q) && !q.pc.Ready? && !q.pc.Running?
    ensures Logged(After(q, reply)) && Logged(q.(pc := Stopped))
  {
  }

  lemma {:induction false} EnterLogged(q: Request)
    requires Logged(q) && q.pc.Ready?
    ensures Logged(q.(pc := Running(q.pc.index, q.outcome), outcome := Unknown, log := q.log + [InFlight]))
  {
    WorstAppend(q.log, InFlight);
    assert (q.log + [InFlight])[..q.pc.index] == q.log;
  }

  lemma {:induction false} RunnerLogged(q: Request, result: RunnerResult)
    requires Logged(q) && q.pc.Running?
    ensures Logged(AfterRunner(q, result))
  {
    var e := if result.Answer? then Answered(result.output) else Refused(result.outcome);
    WorstAppend(q.log[..q.pc.index], e);
  }

  // ------------------------------------------------------------ the actor's reservation

  lemma {:induction false} ReservedRow(t: Tables, a: Attempt, readOnly: bool, p: Policy, now: Instant)
    requires Books(t.ledger) && Owned(t.ledger, ReserveCall(a, readOnly, p, now))
    requires Reserve(t, a, readOnly, p, now).1.Reserved?
    ensures var (t', reply) := Reserve(t, a, readOnly, p, now);
      && reply.reservation == |t.ledger.reservations| && |t'.ledger.reservations| == |t.ledger.reservations| + 1
      && var row := t'.ledger.reservations[reply.reservation];
         row.creator == a.request && row.month == reply.month && row.phase == Pending
  {
    hide Transactions.Reserve;
    var moves, swept := ReserveMoves(t, a, readOnly, p, now);
  }

  lemma {:induction false} MarkedRow(t: Tables, a: Attempt, q: nat, month: Name, revision: Revision, now: Instant)
    requires Mark(t, a, q, month, revision, now).1 == Done && q < |t.ledger.reservations|
    requires t.ledger.reservations[q].phase != Dispatched
    ensures var t' := Mark(t, a, q, month, revision, now).0;
      && |t'.ledger.reservations| == |t.ledger.reservations| && t'.ledger.reservations[q].phase == Dispatched
      && (a.key.Some? ==> HoldsDispatched(t', KeyOf(a), a.request))
  {
  }

  lemma {:induction false} BoundRow(t: Tables, a: Attempt, q: nat, month: Name)
    requires Bind(t, a, q, month).1 == Done && q < |t.ledger.reservations|
    ensures var rows' := Bind(t, a, q, month).0.ledger.reservations;
      && |rows'| == |t.ledger.reservations|
      && (a.key.Some? ==> rows'[q].request == Some(a.request)) && rows'[q].phase == t.ledger.reservations[q].phase
  {
  }

  lemma {:induction false} SameCount(t: Tables, c: Call)
    requires Books(t.ledger) && Owned(t.ledger, c) && Executable(t, c) && !c.ReserveCall? && !c.ReconcileCall?
    ensures |Exec(t, c).0.ledger.reservations| == |t.ledger.reservations|
  {
    var moves := RequestMoves(t, c);
    PlayAllKeepsBooks(t.ledger, moves);
    ShortCount(t.ledger, moves);
  }

  lemma {:induction false} ShortCount(l: Ledger, moves: seq<Move>)
    requires LegalAll(l, moves) && |moves| <= 1 && (|moves| == 1 ==> !moves[0].Insert?)
    ensures |PlayAll(l, moves).reservations| == |l.reservations|
  {
    if moves != [] {
      assert moves[1..] == [];
    }
  }

  /** Carries the reservation link over a transaction; only the fit of the phase is left to show. */
  lemma {:induction false} LinkCarries(t: Tables, t': Tables, q: Request, q': Request)
    requires Linked(t, q) && LedgerGrows(t.ledger, t'.ledger)
    requires q' == q.(pc := q'.pc, cached := q'.cached)
    requires q.log != [] ==> |t'.ledger.reservations| == |t.ledger.reservations|
    requires !BeforeReserve(q'.pc) && (NeedsQuota(q'.pc) ==> q.quota.Some?)
    requires q.quota.Some? && q.quota.value.id < |t'.ledger.reservations| ==>
      PhaseFits(t', q', t'.ledger.reservations[q.quota.value.id])
    ensures Linked(t', q')
  {
    var rows, rows' := t.ledger.reservations, t'.ledger.reservations;
    forall i | 0 <= i < |rows| ensures RowGrows(rows[i], rows'[i]) {}
  }

  // ------------------------------------------------------- the actor after its transaction

  /** Once stopped, or at a program counter before the fence, only the log and the record matter. */
  lemma {:induction false} QuietOk(t: Tables, t': Tables, writer: map<Key, Name>, writer': map<Key, Name>, q: Request, q': Request)
    requires RequestOk(t, writer, q.a.request, q) && LedgerGrows(t.ledger, t'.ledger) && HistoryKept(t, t')
    requires q' == q.(pc := q'.pc) && Logged(q')
    requires q'.pc.Stopped? || q'.pc.ReleasingClaim? || (q'.pc.ReleasingReservation? && q.quota.Some?)
    requires q.log != [] ==> |t'.ledger.reservations| == |t.ledger.reservations|
    requires q.a.key.Some? && !q.readOnly && q.outcome != NotDispatched ==> Fenced(t', q) || Wrote(writer', q)
    ensures RequestOk(t', writer', q.a.request, q')
  {
    LinkCarries(t, t', q, q');
  }

  lemma {:induction false} AcquireOk(t: Tables, writer: map<Key, Name>, q: Request, env: Env, reply: Reply)
    requires RequestOk(t, writer, q.a.request, q) && q.pc.Acquiring?
    requires reply == Acquire(t, q.a, env.disabled, env.now).1 || reply.Failed?
    ensures var t' := Acquire(t, q.a, env.disabled, env.now).0; RequestOk(t', writer, q.a.request, After(q, reply))
    ensures reply.Failed? ==> RequestOk(t, writer, q.a.request, After(q, reply))
  {
    AfterLogged(q, reply);
  }

  lemma {:induction false} ReserveOk(t: Tables, writer: map<Key, Name>, q: Request, env: Env)
    requires RequestOk(t, writer, q.a.request, q) && q.pc.Reserving? && Books(t.ledger)
    requires Reserve(t, q.a, q.readOnly, env.policy, env.now).1.Reserved?
    requires HistoryKept(t, Reserve(t, q.a, q.readOnly, env.policy, env.now).0)
    ensures var (t', reply) := Reserve(t, q.a, q.readOnly, env.policy, env.now);
      RequestOk(t', writer, q.a.request, After(q, reply))
  {
    var (t', reply) := Reserve(t, q.a, q.readOnly, env.policy, env.now);
    AfterLogged(q, reply);
    ReservedRow(t, q.a, q.readOnly, env.policy, env.now);
  }

  lemma {:induction false} BindOk(t: Tables, writer: map<Key, Name>, q: Request)
    requires RequestOk(t, writer, q.a.request, q) && q.pc.Binding?
    requires Bind(t, q.a, q.quota.value.id, q.quota.value.month).1 == Done
    requires LedgerGrows(t.ledger, Bind(t, q.a, q.quota.value.id, q.quota.value.month).0.ledger)
    ensures RequestOk(Bind(t, q.a, q.quota.value.id, q.quota.value.month).0, writer, q.a.request, After(q, Done))
  {
    AfterLogged(q, Done);
    BoundRow(t, q.a, q.quota.value.id, q.quota.value.month);
    LinkCarries(t, Bind(t, q.a, q.quota.value.id, q.quota.value.month).0, q, After(q, Done));
  }

  lemma {:induction false} MarkOk(t: Tables, writer: map<Key, Name>, q: Request, env: Env)
    requires RequestOk(t, writer, q.a.request, q) && q.pc.Marking? && !q.cancelled
    requires Mark(t, q.a, q.quota.value.id, q.quota.value.month, env.revision, env.now).1 == Done
    requires var t' := Mark(t, q.a, q.quota.value.id, q.quota.value.month, env.revision, env.now).0;
      LedgerGrows(t.ledger, t'.ledger) && Books(t'.ledger)
    ensures var t' := Mark(t, q.a, q.quota.value.id, q.quota.value.month, env.revision, env.now).0;
      RequestOk(t', writer, q.a.request, After(q, Done))
  {
    var t' := Mark(t, q.a, q.quota.value.id, q.quota.value.month, env.revision, env.now).0;
    AfterLogged(q, Done);
    MarkedRow(t, q.a, q.quota.value.id, q.quota.value.month, env.revision, env.now);
    LinkCarries(t, t', q, After(q, Done));
  }

  lemma {:induction false} ReleaseQuotaKeepsFence(t: Tables, q: Request, id: nat, month: Name)
    requires Fenced(t, q)
    ensures Fenced(ReleaseQuota(t, q.a, id, month).0, q)
  {
    var t' := ReleaseQuota(t, q.a, id, month).0;
    assert t'.audits == t.audits;
    if Proven(t, q.a.request) {
      ProvenStays(t, t', q.a.request);
    }
  }

  lemma {:induction false} ReleaseQuotaRow(t: Tables, q: Request, id: nat, month: Name)
    requires id < |t.ledger.reservations|
    ensures var t' := ReleaseQuota(t, q.a, id, month).0;
      && |t'.ledger.reservations| == |t.ledger.reservations|
      && (t'.ledger.reservations[id] == t.ledger.reservations[id]
          || t'.ledger.reservations[id] == t.ledger.reservations[id].(phase := Released))
      && t'.audits == t.audits && t'.records == t.records
  {
  }

  lemma {:induction false} ReleaseQuotaOk(t: Tables, writer: map<Key, Name>, q: Request)
    requires RequestOk(t, writer, q.a.request, q) && q.pc.ReleasingQuota? && !q.cancelled
    requires LedgerGrows(t.ledger, ReleaseQuota(t, q.a, q.quota.value.id, q.quota.value.month).0.ledger)
    ensures RequestOk(ReleaseQuota(t, q.a, q.quota.value.id, q.quota.value.month).0, writer, q.a.request, After(q, Done))
  {
    var t' := ReleaseQuota(t, q.a, q.quota.value.id, q.quota.value.month).0;
    AfterLogged(q, Done);
    ReleaseQuotaRow(t, q, q.quota.value.id, q.quota.value.month);
    if q.a.key.Some? {
      ReleaseQuotaKeepsFence(t, q, q.quota.value.id, q.quota.value.month);
    }
    if Proven(t, q.a.request) {
      ProvenStays(t, t', q.a.request);
    }
    LinkCarries(t, t', q, After(q, Done));
  }

  /** A finish with output leaves the fence, or replaces it by the record. */
  lemma {:induction false} FinishFence(t: Tables, q: Request, id: nat, month: Name, output: Name)
    requires Fenced(t, q) && (KeyOf(q.a) in t.claims ==> KeyOf(q.a) !in t.records)
    ensures var t' := Finish(t, q.a, id, month, Some(output)).0;
      Fenced(t', q) || (KeyOf(q.a) !in t.records && KeyOf(q.a) in t'.records)
  {
    var t' := Finish(t, q.a, id, month, Some(output)).0;
    assert t'.audits == t.audits;
    if Proven(t, q.a.request) {
      ProvenStays(t, t', q.a.request);
    }
  }
}
