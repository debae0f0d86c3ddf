/** The tables that action execution shares between requests, and the values in their rows. */
module Schema {
  import opened Wrappers
  import opened Sums

  /** Identifiers are only ever compared for equality, so a natural number stands for each text. */
  type Name = nat

  /** A CHECK(quantity > 0) column. */
  type Positive = x: int | 0 < x witness 1

  /** now(): milliseconds, with the UTC month and day the database renders for it.
      Every transaction gets its own arbitrary instant. */
  datatype Instant = Instant(ms: int, month: Name, day: Name)

  /** What a request must repeat exactly to reuse an idempotency key. */
  datatype Identity = Identity(connection: Name, connector: Name, action: Name, account: Name, hash: Name)

  /** `key` is None when the caller sent no idempotency key. */
  datatype Attempt = Attempt(request: Name, project: Name, key: Option<Name>, id: Identity, leaseMs: int)

  datatype Key = Key(project: Name, text: Name)

  datatype Claim = Claim(owner: Name, id: Identity, leasedUntil: int, dispatched: bool)

  datatype Record = Record(connection: Name, action: Name, hash: Name, output: Name)

  datatype Resolution = ProvenNotDispatched | ProviderOutcomeKnown(succeeded: bool)

  datatype Audit = Audit(key: Key, request: Name, id: Identity, resolution: Resolution)

  datatype Phase = Pending | Dispatched | Settled | Released

  datatype WindowKind = Hour | Day | Week | Month

  /** The counter window a charge row names. */
  datatype Target = SendDay(day: Name) | LinkedInSlot(actionClass: Name, kind: WindowKind, slot: Name)

  datatype Charge = Charge(target: Target, quantity: Positive, spend: nat, refunded: bool)

  /** A usage reservation with the charge rows that reference it. Its id is its position in the table.
      `creator` is the request whose policy step inserted the row; it is not a column, only `request` is. */
  datatype Reservation = Reservation(
    creator: Name, project: Name, month: Name, id: Identity, key: Option<Name>, request: Option<Name>,
    phase: Phase, expiresAt: int, createdAt: Instant, charges: seq<Charge>)

  /** The row of action_send_caps or of linkedin_action_counters that a charge counts in. */
  datatype Window =
    | SendWindow(project: Name, account: Name, day: Name)
    | LinkedInWindow(project: Name, account: Name, actionClass: Name, kind: WindowKind, slot: Name)

  datatype Counter = Counter(count: int, spend: int)

  /** LinkedIn pacing: one last-sent time per project, account and class. */
  datatype Pace = Pace(project: Name, account: Name, actionClass: Name)

  /** usage_events.metering_event_key: `usage_action_<request>` or `quota_recovery:<reservation>`. */
  datatype MeterKey = ActionMeter(request: Name) | RecoveryMeter(reservation: nat)

  /** `source` is the reservation whose creation time dates the event. */
  datatype Event = Event(project: Name, meter: MeterKey, account: Name, occurredAt: Instant, source: Option<nat>)

  datatype Rollup = Rollup(project: Name, account: Name, month: Name, quantity: int)

  /** The accounting tables: reservations with their charges, counters, usage events and rollups. */
  datatype Ledger = Ledger(
    reservations: seq<Reservation>,
    counters: map<Window, Counter>,
    events: seq<Event>,
    rollups: seq<Rollup>)

  datatype Tables = Tables(
    claims: map<Key, Claim>,
    records: map<Key, Record>,
    audits: seq<Audit>,
    lastSent: map<Pace, int>,
    ledger: Ledger)

  const EmptyLedger := Ledger([], map[], [], [])
  const EmptyTables := Tables(map[], map[], [], map[], EmptyLedger)

  function WindowOf(project: Name, account: Name, target: Target): (w: Window) {
    match target
    case SendDay(day) => SendWindow(project, account, day)
    case LinkedInSlot(actionClass, kind, slot) => LinkedInWindow(project, account, actionClass, kind, slot)
  }

  predicate Active(r: Reservation) {
    r.phase == Pending || r.phase == Dispatched
  }

  predicate RecordMatches(r: Record, id: Identity) {
    r.connection == id.connection && r.action == id.action && r.hash == id.hash
  }

  /** A provider-outcome-known audit fences its key for ever. */
  predicate TerminalFor(audit: Audit, k: Key) {
    audit.key == k && audit.resolution.ProviderOutcomeKnown?
  }

  predicate Tombstoned(t: Tables, k: Key) {
    exists i :: 0 <= i < |t.audits| && TerminalFor(t.audits[i], k)
  }

  predicate OwnsClaim(t: Tables, k: Key, request: Name) {
    k in t.claims && t.claims[k].owner == request
  }

  predicate HoldsDispatched(t: Tables, k: Key, request: Name) {
    OwnsClaim(t, k, request) && t.claims[k].dispatched
  }
}
