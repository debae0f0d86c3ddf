/** Every transaction of the action store as a function from tables to tables.
    A reply of Failed stands for a rollback unless the function says otherwise. */
module Transactions {
  import opened Wrappers
  import opened Sums
  import opened Schema
  import opened Ledgers
  import opened Evidence

  datatype Code =
    | ProjectDisabled | IdempotencyConflict | IdempotencyInProgress | AlreadyCompleted
    | ReservationInvalid | ConnectionNotFound | ConnectionChanged
    | UsageLimitExceeded | Unavailable | SendCapExceeded | SpendCapExceeded
    | MissingSubaccount | ConnectionRestricted | LinkedInTooFast | LinkedInCapExceeded(kind: WindowKind)
    | ClaimNotFound | RequestMismatch | ReservationMismatch | ClaimNotDispatched | ClaimLive
    | ReservationIdentityUnknown | ReservationConflict | ReservationStateConflict | StorageUnavailable

  datatype Reply =
    | Acquired
    | Cached(output: Name)
    | Reserved(reservation: nat, month: Name)
    | Done
    | Failed(code: Code)

  const DAY_MS := 86_400_000
  const I64_MAX := 0x7fff_ffff_ffff_ffff

  // ---------------------------------------------------------------- claims

  function KeyOf(a: Attempt): Key
    requires a.key.Some?
  {
    Key(a.project, a.key.value)
  }

  function Acquire(t: Tables, a: Attempt, disabled: bool, now: Instant): (Tables, Reply) {
    if disabled then (t, Failed(ProjectDisabled))
    else if a.key.None? then (t, Acquired)
    else
      var k := KeyOf(a);
      if k in t.records then
        (t, if RecordMatches(t.records[k], a.id) then Cached(t.records[k].output) else Failed(IdempotencyConflict))
      else if Tombstoned(t, k) then
        var sameIdentity := forall i :: 0 <= i < |t.audits| && TerminalFor(t.audits[i], k) ==> t.audits[i].id == a.id;
        (t, Failed(if sameIdentity then AlreadyCompleted else IdempotencyConflict))
      else if k in t.claims && !Reclaimable(t.claims[k], a, now) then
        (t, Failed(if t.claims[k].id == a.id then IdempotencyInProgress else IdempotencyConflict))
      else
        (t.(claims := t.claims[k := Claim(a.request, a.id, now.ms + a.leaseMs, false)]), Acquired)
  }

  /** The WHERE clause of the upsert: same identity, lapsed lease, never dispatched. */
  predicate Reclaimable(c: Claim, a: Attempt, now: Instant) {
    c.id == a.id && c.leasedUntil <= now.ms && !c.dispatched
  }

  function DropClaim(t: Tables, k: Key): Tables {
    t.(claims := map j | j in t.claims && j != k :: t.claims[j])
  }

  /** DELETE ... WHERE request_id = the caller. */
  function DropOwnClaim(t: Tables, a: Attempt): Tables {
    if a.key.Some? && OwnsClaim(t, KeyOf(a), a.request) then DropClaim(t, KeyOf(a)) else t
  }

  /** DELETE ... WHERE request_id = the caller AND dispatched_at IS NULL. */
  function DropOwnPendingClaim(t: Tables, a: Attempt): Tables {
    if a.key.Some? && OwnsClaim(t, KeyOf(a), a.request) && !t.claims[KeyOf(a)].dispatched
    then DropClaim(t, KeyOf(a)) else t
  }

  function ReleasePending(t: Tables, a: Attempt): (Tables, Reply) {
    (DropOwnPendingClaim(t, a), Done)
  }

  // ---------------------------------------------------------- reservations

  /** WHERE id = q AND project_id = the caller's AND month = the month the caller reserved in. */
  predicate Finds(t: Tables, a: Attempt, q: nat, month: Name) {
    var rows := t.ledger.reservations;
    q < |rows| && rows[q].project == a.project && rows[q].month == month
  }

  function Bind(t: Tables, a: Attempt, q: nat, month: Name): (Tables, Reply) {
    if a.key.None? then (t, Done)
    else if !Finds(t, a, q, month) then (t, Failed(ReservationInvalid))
    else
      var r := t.ledger.reservations[q];
      if r.id != a.id || r.key != a.key || !Active(r) then (t, Failed(ReservationInvalid))
      else if r.request.Some? then (t, if r.request == Some(a.request) then Done else Failed(ReservationInvalid))
      else (t.(ledger := BindRow(t.ledger, q, a.request)), Done)
  }

  /** What re-reading the connection row inside the dispatch fence found. */
  datatype Revision = Unchanged | Missing | Changed

  function Mark(t: Tables, a: Attempt, q: nat, month: Name, revision: Revision, now: Instant): (Tables, Reply) {
    if !Finds(t, a, q, month) then (t, Failed(ReservationInvalid))
    else
      var r := t.ledger.reservations[q];
      if r.phase == Dispatched then
        (t, if a.key.None? || OwnsClaim(t, KeyOf(a), a.request) then Done else Failed(IdempotencyInProgress))
      else if r.phase != Pending || r.expiresAt <= now.ms then (t, Failed(ReservationInvalid))
      else if revision == Missing then (t, Failed(ConnectionNotFound))
      else if revision == Changed then (t, Failed(ConnectionChanged))
      else if a.key.Some? && !Dispatchable(t, a, now) then (t, Failed(IdempotencyInProgress))
      else
        var claims :=
          if a.key.None? then t.claims else t.claims[KeyOf(a) := t.claims[KeyOf(a)].(dispatched := true)];
        (t.(claims := claims, ledger := DispatchRow(t.ledger, q, now.ms + DAY_MS)), Done)
  }

  predicate Dispatchable(t: Tables, a: Attempt, now: Instant)
    requires a.key.Some?
  {
    var k := KeyOf(a);
    OwnsClaim(t, k, a.request) && now.ms < t.claims[k].leasedUntil && !t.claims[k].dispatched
  }

  function ReleaseReservation(
    t: Tables, a: Attempt, q: nat, month: Name, allowDispatched: bool, clearClaim: bool, refund: bool): (Tables, Reply)
  {
    var open := Finds(t, a, q, month)
      && (t.ledger.reservations[q].phase == Pending || (allowDispatched && t.ledger.reservations[q].phase == Dispatched));
    var released :=
      if !open then Some(t.ledger)
      else if refund then RefundAndRelease(t.ledger, a.project, q)
      else Some(SetPhase(t.ledger, q, Released));
    if released.None? then (t, Failed(ReservationInvalid))
    else
      var t1 := t.(ledger := released.value);
      (if clearClaim && open then DropOwnClaim(t1, a) else DropOwnPendingClaim(t1, a), Done)
  }

  function ReleaseQuota(t: Tables, a: Attempt, q: nat, month: Name): (Tables, Reply) {
    ReleaseReservation(t, a, q, month, true, false, false)
  }

  function ReleaseNotDispatched(t: Tables, a: Attempt, q: nat, month: Name): (Tables, Reply) {
    ReleaseReservation(t, a, q, month, true, true, true)
  }

  // -------------------------------------------------------------- finishes

  predicate FencedOut(t: Tables, a: Attempt) {
    a.key.Some? && !HoldsDispatched(t, KeyOf(a), a.request)
  }

  /** Charge a dispatched reservation to its request and settle it. */
  function Settle(t: Tables, a: Attempt, q: nat): Tables
    requires q < |t.ledger.reservations|
  {
    t.(ledger := SettleRow(t.ledger, a.project, ActionMeter(a.request), a.id.account, q, t.ledger.reservations[q].month))
  }

  function FinishNotDispatched(t: Tables, a: Attempt, q: nat, month: Name): (Tables, Reply) {
    if !Finds(t, a, q, month) || t.ledger.reservations[q].phase != Dispatched then (t, Failed(ReservationInvalid))
    else if FencedOut(t, a) then (t, Failed(IdempotencyInProgress))
    else
      var released := RefundAndRelease(t.ledger, a.project, q);
      if released.None? then (t, Failed(ReservationInvalid)) else (DropOwnClaim(t.(ledger := released.value), a), Done)
  }

  /** `output` is the validated provider output, or None when the action failed. */
  function Finish(t: Tables, a: Attempt, q: nat, month: Name, output: Option<Name>): (Tables, Reply) {
    if !Finds(t, a, q, month) then (t, Failed(ReservationInvalid))
    else
      var phase := t.ledger.reservations[q].phase;
      if output.Some? && phase == Released then (t, Failed(ReservationInvalid))
      else if FencedOut(t, a) && phase == Settled && KeyOf(a) in t.records && RecordMatches(t.records[KeyOf(a)], a.id) then
        (t, Done)
      else if FencedOut(t, a) && !(phase == Released && output.None?) then (t, Failed(IdempotencyInProgress))
      else if output.None? then (t, Done)
      else if phase == Pending then (t, Failed(ReservationInvalid))
      else
        var settled := if phase == Dispatched then Settle(t, a, q) else t;
        (DropOwnClaim(if a.key.None? then settled else AddRecord(settled, KeyOf(a), a.id, output.value), a), Done)
  }

  /** INSERT ... ON CONFLICT DO NOTHING. */
  function AddRecord(t: Tables, k: Key, id: Identity, output: Name): Tables {
    if k in t.records then t
    else t.(records := t.records[k := Record(id.connection, id.action, id.hash, output)])
  }

  function FinishReadFailure(t: Tables, a: Attempt, q: nat, month: Name): (Tables, Reply) {
    if !Finds(t, a, q, month) then (t, Failed(ReservationInvalid))
    else if FencedOut(t, a) then (t, Failed(IdempotencyInProgress))
    else if t.ledger.reservations[q].phase == Pending then (t, Failed(ReservationInvalid))
    else (DropOwnClaim(if t.ledger.reservations[q].phase == Dispatched then Settle(t, a, q) else t, a), Done)
  }

  /** The rows finish_read_timeout may pick: active, same identity, bound to the request or to nobody. */
  predicate TimeoutCandidate(t: Tables, a: Attempt, q: nat) {
    q < |t.ledger.reservations| &&
    var r := t.ledger.reservations[q];
    r.project == a.project && a.key.Some? && r.key == a.key && r.id == a.id && Active(r)
    && (r.request == Some(a.request) || r.request == None)
  }

  /** ORDER BY created_at DESC LIMIT 1: ties may go either way, so the picked row is an input. */
  predicate IsLatestCandidate(t: Tables, a: Attempt, pick: Option<nat>) {
    var rows := t.ledger.reservations;
    if pick.None? then forall q :: 0 <= q < |rows| ==> !TimeoutCandidate(t, a, q)
    else
      TimeoutCandidate(t, a, pick.value)
      && forall q :: 0 <= q < |rows| && TimeoutCandidate(t, a, q) ==>
           rows[q].createdAt.ms <= rows[pick.value].createdAt.ms
  }

  function FinishReadTimeout(t: Tables, a: Attempt, outcome: Outcome, pick: Option<nat>): (Tables, Reply)
    requires IsLatestCandidate(t, a, pick)
  {
    if a.key.None? || !OwnsClaim(t, KeyOf(a), a.request) then (t, Done)
    else if pick.None? then (DropOwnClaim(t, a), Done)
    else
      var q := pick.value;
      if t.ledger.reservations[q].phase == Dispatched && t.claims[KeyOf(a)].dispatched && outcome != NotDispatched then
        (DropOwnClaim(Settle(t, a, q), a), Done)
      else
        var released := RefundAndRelease(t.ledger, a.project, q);
        if released.None? then (t, Failed(ReservationInvalid)) else (DropOwnClaim(t.(ledger := released.value), a), Done)
  }

  // ------------------------------------------------------- admission policy

  datatype Entitlements = Entitlements(hard: nat, sendCap: nat, spendCap: nat)

  predicate Expired(r: Reservation, project: Name, month: Name, now: Instant) {
    r.project == project && r.month == month && Active(r) && r.expiresAt <= now.ms
  }

  function InsertMonth(months: seq<Name>, month: Name): seq<Name> {
    if months == [] || month < months[0] then [month] + months
    else if month == months[0] then months
    else [months[0]] + InsertMonth(months[1..], month)
  }

  /** The current month and every month with a lapsed active reservation, sorted without repeats. */
  function QuotaMonths(rows: seq<Reservation>, project: Name, now: Instant): seq<Name> {
    if rows == [] then [now.month]
    else
      var last := rows[|rows| - 1];
      var months := QuotaMonths(rows[..|rows| - 1], project, now);
      if Expired(last, project, last.month, now) then InsertMonth(months, last.month) else months
  }

  /** expire_pending_quota for the rows below `n`. */
  function ExpirePending(l: Ledger, project: Name, month: Name, now: Instant, n: nat): Option<Ledger>
    requires n <= |l.reservations|
  {
    if n == 0 then Some(l)
    else
      var before := ExpirePending(l, project, month, now, n - 1);
      if before.Some? && Expired(l.reservations[n - 1], project, month, now) && l.reservations[n - 1].phase == Pending
      then RefundAndRelease(before.value, project, n - 1)
      else before
  }

  /** recover_expired_dispatched_quota for the rows below `n`. */
  function RecoverDispatched(l: Ledger, project: Name, month: Name, now: Instant, n: nat): (after: Ledger)
    requires n <= |l.reservations|
    ensures |after.reservations| == |l.reservations|
  {
    if n == 0 then l
    else
      var before := RecoverDispatched(l, project, month, now, n - 1);
      var r := l.reservations[n - 1];
      if Expired(r, project, month, now) && r.phase == Dispatched
      then SettleRow(before, project, RecoveryMeter(n - 1), r.id.account, n - 1, month)
      else before
  }

  function SweepMonth(l: Ledger, project: Name, month: Name, now: Instant): Option<Ledger> {
    var expired := ExpirePending(l, project, month, now, |l.reservations|);
    if expired.None? then None
    else Some(RecoverDispatched(expired.value, project, month, now, |expired.value.reservations|))
  }

  function SweepMonths(l: Ledger, project: Name, months: seq<Name>, now: Instant): Option<Ledger> {
    if months == [] then Some(l)
    else
      var before := SweepMonths(l, project, months[..|months| - 1], now);
      if before.None? then None else SweepMonth(before.value, project, months[|months| - 1], now)
  }

  function UsedIn(project: Name, month: Name): Rollup -> int {
    (r: Rollup) => if r.project == project && r.month == month then r.quantity else 0
  }

  function LiveIn(project: Name, month: Name, now: Instant): Reservation -> int {
    (r: Reservation) => if r.project == project && r.month == month && Active(r) && now.ms < r.expiresAt then 1 else 0
  }

  function CheckedAdd(x: int, y: int): Option<int> {
    if -I64_MAX - 1 <= x + y <= I64_MAX then Some(x + y) else None
  }

  /** Completed usage plus unexpired reservations plus the one asked for; None on i64 overflow. */
  function Projected(l: Ledger, project: Name, month: Name, now: Instant): Option<int> {
    var total := CheckedAdd(Sum(l.rollups, UsedIn(project, month)), Sum(l.reservations, LiveIn(project, month, now)));
    if total.None? then None else CheckedAdd(total.value, 1)
  }

  /** claim_send: count one more send today unless a cap forbids it. */
  function ClaimSend(counters: map<Window, Counter>, w: Window, e: Entitlements, cost: nat): Result<map<Window, Counter>> {
    var was := if w in counters then counters[w] else Counter(0, 0);
    if (e.sendCap == 0 || was.count + 1 <= e.sendCap) && (e.spendCap == 0 || was.spend + cost <= e.spendCap)
    then Ok(counters[w := Counter(was.count + 1, was.spend + cost)])
    else Err(if e.sendCap > 0 && was.count >= e.sendCap then SendCapExceeded else SpendCapExceeded)
  }

  /** One LinkedIn window with its ceiling; a ceiling of zero or less leaves the window unused. */
  datatype Limit = Limit(kind: WindowKind, slot: Name, cap: int)

  datatype LinkedInPlan = LinkedInPlan(actionClass: Name, spacingSeconds: int, limits: seq<Limit>)

  /** What the policy decided about the provider account before counters are touched. */
  datatype Routing = Unrouted | Rejected(code: Code) | Paced(plan: LinkedInPlan)

  datatype Result<+T> = Ok(value: T) | Err(code: Code)

  /** claim_linkedin's loop over the windows below `n`; the second part lists the charge rows to insert. */
  function ClaimWindows(
    counters: map<Window, Counter>, project: Name, account: Name, actionClass: Name, limits: seq<Limit>, n: nat)
    : Result<(map<Window, Counter>, seq<Charge>)>
    requires n <= |limits|
  {
    if n == 0 then Ok((counters, []))
    else
      var before := ClaimWindows(counters, project, account, actionClass, limits, n - 1);
      if before.Err? then before
      else
        var limit := limits[n - 1];
        if limit.cap <= 0 then before
        else
          var target := LinkedInSlot(actionClass, limit.kind, limit.slot);
          var w := WindowOf(project, account, target);
          var (claimed, charges) := before.value;
          if w in claimed && claimed[w].count + 1 > limit.cap then Err(LinkedInCapExceeded(limit.kind))
          else
            var was := if w in claimed then claimed[w] else Counter(0, 0);
            Ok((claimed[w := Counter(was.count + 1, was.spend)], charges + [Charge(target, 1, 0, false)]))
  }

  /** EXTRACT(EPOCH ..)::bigint rounds to the nearest second. */
  function ElapsedSeconds(since: int, now: int): int { (now - since + 500) / 1000 }

  predicate TooFast(t: Tables, pace: Pace, spacing: int, now: Instant) {
    0 < spacing && pace in t.lastSent && ElapsedSeconds(t.lastSent[pace], now.ms) < spacing
  }

  /** Everything reserve reads from outside the tables. */
  datatype Policy = Policy(e: Entitlements, cost: nat, leaseMs: int, routing: Routing)

  function Reserve(t: Tables, a: Attempt, readOnly: bool, p: Policy, now: Instant): (Tables, Reply) {
    var swept := SweepMonths(t.ledger, a.project, QuotaMonths(t.ledger.reservations, a.project, now), now);
    if swept.None? then (t, Failed(ReservationInvalid))
    else
      var cleaned := t.(ledger := swept.value);
      var projected := Projected(swept.value, a.project, now.month, now);
      if projected.None? then
        if p.e.hard > 0 then (cleaned, Failed(UsageLimitExceeded)) else (t, Failed(Unavailable))
      else if p.e.hard > 0 && projected.value > p.e.hard then
        // Recovery stays durable even though admission is denied.
        (cleaned, Failed(UsageLimitExceeded))
      else
        var admitted := Admit(cleaned, a, readOnly, p, now);
        if admitted.Err? then (t, Failed(admitted.code))
        else (admitted.value, Reserved(|swept.value.reservations|, now.month))
  }

  /** claim_linkedin, when the policy asks for it: the new counters and the charge rows to insert. */
  function ClaimPlan(t: Tables, a: Attempt, routing: Routing, now: Instant): Result<(map<Window, Counter>, seq<Charge>)> {
    match routing
    case Unrouted => Ok((t.ledger.counters, []))
    case Rejected(code) => Err(code)
    case Paced(plan) =>
      if TooFast(t, Pace(a.project, a.id.account, plan.actionClass), plan.spacingSeconds, now) then Err(LinkedInTooFast)
      else ClaimWindows(t.ledger.counters, a.project, a.id.account, plan.actionClass, plan.limits, |plan.limits|)
  }

  /** Every counter an admission claims, with the charge rows to insert for them. */
  function ClaimCounters(t: Tables, a: Attempt, readOnly: bool, p: Policy, now: Instant)
    : Result<(map<Window, Counter>, seq<Charge>)>
  {
    var planned := ClaimPlan(t, a, p.routing, now);
    if planned.Err? || readOnly then planned
    else
      var sent := ClaimSend(planned.value.0, SendWindow(a.project, a.id.account, now.day), p.e, p.cost);
      if sent.Err? then Err(sent.code)
      else Ok((sent.value, planned.value.1 + [Charge(SendDay(now.day), 1, p.cost, false)]))
  }

  /** Charge the windows and insert the pending reservation; an Err rolls everything back. */
  function Admit(t: Tables, a: Attempt, readOnly: bool, p: Policy, now: Instant): Result<Tables> {
    var claimed := ClaimCounters(t, a, readOnly, p, now);
    if claimed.Err? then Err(claimed.code)
    else
      var lastSent :=
        if p.routing.Paced? then t.lastSent[Pace(a.project, a.id.account, p.routing.plan.actionClass) := now.ms]
        else t.lastSent;
      Ok(t.(lastSent := lastSent, ledger := t.ledger.(
        counters := claimed.value.0,
        reservations := t.ledger.reservations + [NewReservation(a, p, now, claimed.value.1)])))
  }

  function NewReservation(a: Attempt, p: Policy, now: Instant, charges: seq<Charge>): Reservation {
    Reservation(a.request, a.project, now.month, a.id, a.key, None, Pending, now.ms + p.leaseMs, now, charges)
  }

  // ------------------------------------------------------------- operators

  /** An operator's command; the scope names the request the operator looked at. */
  datatype Command = Command(key: Key, account: Name, request: Name, resolution: Resolution)

  datatype Load = Loaded(exact: Option<nat>) | LoadFailed(code: Code)

  predicate BelongsTo(r: Reservation, k: Key) {
    r.project == k.project && r.key == Some(k.text)
  }

  predicate ExactFor(r: Reservation, k: Key, c: Claim) {
    BelongsTo(r, k) && r.id == c.id && r.request == Some(c.owner)
  }

  /** load_reservation over the rows below `n`, newest first, with the exact match found so far. */
  function LoadReservation(rows: seq<Reservation>, k: Key, c: Claim, n: nat, found: Option<nat>): Load
    requires n <= |rows|
  {
    if n == 0 then Loaded(found)
    else
      var r := rows[n - 1];
      if !BelongsTo(r, k) then LoadReservation(rows, k, c, n - 1, found)
      else if r.request.None? then
        if Active(r) then LoadFailed(ReservationIdentityUnknown) else LoadReservation(rows, k, c, n - 1, found)
      else if !ExactFor(r, k, c) then
        if Active(r) then LoadFailed(ReservationMismatch) else LoadReservation(rows, k, c, n - 1, found)
      else if found.Some? then LoadFailed(ReservationConflict)
      else LoadReservation(rows, k, c, n - 1, Some(n - 1))
  }

  lemma LoadInRange(rows: seq<Reservation>, k: Key, c: Claim, n: nat, found: Option<nat>)
    requires n <= |rows|
    requires found.Some? ==> found.value < |rows| && ExactFor(rows[found.value], k, c)
    ensures var load := LoadReservation(rows, k, c, n, found);
            load.Loaded? && load.exact.Some? ==> load.exact.value < |rows| && ExactFor(rows[load.exact.value], k, c)
  {
  }

  /** Why an operator's command is refused before its resolution is looked at, or None. */
  function Refusal(t: Tables, cmd: Command, now: Instant): Option<Code> {
    if cmd.key !in t.claims || t.claims[cmd.key].id.account != cmd.account then Some(ClaimNotFound)
    else
      var c := t.claims[cmd.key];
      if c.owner != cmd.request then Some(RequestMismatch)
      else if cmd.key in t.records then
        Some(if RecordMatches(t.records[cmd.key], c.id) then AlreadyCompleted else ReservationMismatch)
      else if Tombstoned(t, cmd.key) then Some(AlreadyCompleted)
      else if !c.dispatched then Some(ClaimNotDispatched)
      else if c.leasedUntil > now.ms then Some(ClaimLive)
      else
        var load := LoadReservation(t.ledger.reservations, cmd.key, c, |t.ledger.reservations|, None);
        if load.LoadFailed? then Some(load.code) else None
  }

  /** The claim's own reservation, when the command is not refused. */
  function ExactReservation(t: Tables, cmd: Command): (exact: Option<nat>)
    requires cmd.key in t.claims
    ensures exact.Some? ==>
      exact.value < |t.ledger.reservations|
      && ExactFor(t.ledger.reservations[exact.value], cmd.key, t.claims[cmd.key])
  {
    LoadInRange(t.ledger.reservations, cmd.key, t.claims[cmd.key], |t.ledger.reservations|, None);
    var load := LoadReservation(t.ledger.reservations, cmd.key, t.claims[cmd.key], |t.ledger.reservations|, None);
    if load.Loaded? then load.exact else None
  }

  /** The reservation and usage effects of a resolution; None when the reservation's state forbids it. */
  function Resolve(l: Ledger, k: Key, c: Claim, resolution: Resolution, exact: Option<nat>, now: Instant): Option<Ledger>
    requires exact.Some? ==> exact.value < |l.reservations|
  {
    match resolution
    case ProvenNotDispatched =>
      if exact.None? then Some(l)
      else if l.reservations[exact.value].phase == Settled then None
      else RefundAndRelease(l, k.project, exact.value)
    case ProviderOutcomeKnown(succeeded) =>
      if exact.None? then
        if succeeded
        then Some(WriteEvent(l, Event(k.project, ActionMeter(c.owner), c.id.account, now, None), now.month))
        else Some(l)
      else
        var q := exact.value;
        var r := l.reservations[q];
        match r.phase
        case Pending => if succeeded then None else Some(SetPhase(l, q, Released))
        case Released => if succeeded then None else Some(l)
        case Dispatched =>
          if succeeded
          then Some(SettleRow(l, k.project, ActionMeter(c.owner), c.id.account, q, r.month))
          else Some(SetPhase(l, q, Released))
        case Settled =>
          if succeeded
          then Some(ChargeUsage(l, k.project, ActionMeter(c.owner), c.id.account, q, r.month))
          else None
  }

  function Reconcile(t: Tables, cmd: Command, now: Instant): (Tables, Reply) {
    var refusal := Refusal(t, cmd, now);
    if refusal.Some? then (t, Failed(refusal.value))
    else
      var c := t.claims[cmd.key];
      var resolved := Resolve(t.ledger, cmd.key, c, cmd.resolution, ExactReservation(t, cmd), now);
      if resolved.None? then (t, Failed(ReservationStateConflict))
      else
        var audited := t.(ledger := resolved.value, audits := t.audits + [Audit(cmd.key, c.owner, c.id, cmd.resolution)]);
        (if cmd.resolution.ProvenNotDispatched? then DropClaim(audited, cmd.key) else audited, Done)
  }

  // ----------------------------------------------------------------- calls

  /** One transaction with all its inputs. */
  datatype Call =
    | AcquireCall(a: Attempt, disabled: bool, now: Instant)
    | ReserveCall(a: Attempt, readOnly: bool, policy: Policy, now: Instant)
    | BindCall(a: Attempt, q: nat, month: Name)
    | MarkCall(a: Attempt, q: nat, month: Name, revision: Revision, now: Instant)
    | ReleasePendingCall(a: Attempt)
    | ReleaseQuotaCall(a: Attempt, q: nat, month: Name)
    | ReleaseNotDispatchedCall(a: Attempt, q: nat, month: Name)
    | FinishNotDispatchedCall(a: Attempt, q: nat, month: Name)
    | FinishCall(a: Attempt, q: nat, month: Name, output: Option<Name>)
    | FinishReadFailureCall(a: Attempt, q: nat, month: Name)
    | FinishReadTimeoutCall(a: Attempt, outcome: Outcome, pick: Option<nat>)
    | ReconcileCall(cmd: Command, now: Instant)

  predicate Executable(t: Tables, c: Call) {
    c.FinishReadTimeoutCall? ==> IsLatestCandidate(t, c.a, c.pick)
  }

  function Exec(t: Tables, c: Call): (Tables, Reply)
    requires Executable(t, c)
  {
    match c
    case AcquireCall(a, disabled, now) => Acquire(t, a, disabled, now)
    case ReserveCall(a, readOnly, policy, now) => Reserve(t, a, readOnly, policy, now)
    case BindCall(a, q, month) => Bind(t, a, q, month)
    case MarkCall(a, q, month, revision, now) => Mark(t, a, q, month, revision, now)
    case ReleasePendingCall(a) => ReleasePending(t, a)
    case ReleaseQuotaCall(a, q, month) => ReleaseQuota(t, a, q, month)
    case ReleaseNotDispatchedCall(a, q, month) => ReleaseNotDispatched(t, a, q, month)
    case FinishNotDispatchedCall(a, q, month) => FinishNotDispatched(t, a, q, month)
    case FinishCall(a, q, month, output) => Finish(t, a, q, month, output)
    case FinishReadFailureCall(a, q, month) => FinishReadFailure(t, a, q, month)
    case FinishReadTimeoutCall(a, outcome, pick) => FinishReadTimeout(t, a, outcome, pick)
    case ReconcileCall(cmd, now) => Reconcile(t, cmd, now)
  }
}
