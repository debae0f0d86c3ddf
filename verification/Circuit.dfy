/**
 * The generation-fenced circuit breaker: per-key state shared by any number of admissions,
 * each of which is later resolved, or dropped unresolved when its request is cancelled.
 */
module Circuits {
  import opened Wrappers

  const MaxFailures: nat := 0xFFFF_FFFF

  datatype State = State(generation: nat, failures: nat, openUntil: Option<int>, probe: bool)

  const Fresh := State(0, 0, None, false)

  datatype Admission = Admission(key: string, generation: nat, probe: bool)

  type States = map<string, State>

  function StateOf(states: States, key: string): State {
    if key in states then states[key] else Fresh
  }

  predicate Refuses(s: State, now: int) {
    s.probe || (s.openUntil.Some? && now < s.openUntil.value)
  }

  /** The state a resolved admission leaves behind when its generation is current. */
  function Settle(s: State, failed: bool, now: int, threshold: nat, cooldown: nat): State {
    if !failed then
      State(s.generation + 1, 0, None, false)
    else
      var failures := if s.failures < MaxFailures then s.failures + 1 else MaxFailures;
      if failures >= threshold then State(s.generation + 1, failures, Some(now + cooldown), false)
      else s.(failures := failures, probe := false)
  }

  predicate Current(states: States, a: Admission) {
    a.key in states && states[a.key].generation == a.generation
  }

  class Circuit {
    const threshold: nat
    const cooldown: nat
    var states: States

    constructor (threshold: nat, cooldown: nat)
      requires threshold <= MaxFailures
      ensures this.threshold == (if threshold == 0 then 1 else threshold) && this.cooldown == cooldown
      ensures states == map[]
    {
      this.threshold := if threshold == 0 then 1 else threshold;
      this.cooldown := cooldown;
      states := map[];
    }

    method Admit(key: string, now: int) returns (r: Option<Admission>)
      modifies this
      ensures (states, r) == Admitted(old(states), key, now)
    {
      if key !in states {
        states := states[key := Fresh];
      }
      if states[key].probe || (states[key].openUntil.Some? && now < states[key].openUntil.value) {
        assert states == states[key := StateOf(old(states), key)];
        return None;
      }
      var probe := states[key].openUntil.Some?;
      if probe {
        states := states[key := states[key].(probe := true)];
      }
      assert states == states[key := StateOf(old(states), key).(probe := probe)];
      r := Some(Admission(key, states[key].generation, probe));
    }

    method Resolve(a: Admission, failed: bool, now: int)
      modifies this
      ensures states == Resolved(old(states), a, failed, now, threshold, cooldown)
    {
      if a.key in states && states[a.key].generation == a.generation {
        var s := states[a.key];
        s := s.(probe := false);
        if failed {
          s := s.(failures := if s.failures < MaxFailures then s.failures + 1 else MaxFailures);
          if s.failures >= threshold {
            s := s.(openUntil := Some(now + cooldown));
            s := s.(generation := s.generation + 1);
          }
        } else {
          s := s.(failures := 0);
          s := s.(openUntil := None);
          s := s.(generation := s.generation + 1);
        }
        states := states[a.key := s];
      }
    }

    method Drop(a: Admission)
      modifies this
      ensures states == Dropped(old(states), a)
    {
      if a.probe && a.key in states && states[a.key].generation == a.generation {
        states := states[a.key := states[a.key].(probe := false)];
      }
    }
  }

  function Admitted(states: States, key: string, now: int): (States, Option<Admission>) {
    var s := StateOf(states, key);
    if Refuses(s, now) then (states[key := s], None)
    else
      (states[key := s.(probe := s.openUntil.Some?)], Some(Admission(key, s.generation, s.openUntil.Some?)))
  }

  function Resolved(states: States, a: Admission, failed: bool, now: int, threshold: nat, cooldown: nat): States {
    if Current(states, a) then states[a.key := Settle(states[a.key], failed, now, threshold, cooldown)] else states
  }

  function Dropped(states: States, a: Admission): States {
    if a.probe && Current(states, a) then states[a.key := states[a.key].(probe := false)] else states
  }

  // The circuit with every admission issued so far, known by its place in the order of issue. What an outcome
  // means is told from that order alone, not from generations: the outcome of an admission counts unless the key
  // had a decisive one since it was issued, and a counting success, or a counting failure that completes a streak
  // of `threshold`, is decisive.

  datatype World = World(
    threshold: nat,
    cooldown: nat,
    states: States,
    issued: seq<Admission>,
    live: set<nat>,
    counted: map<string, seq<bool>>,
    cleared: map<string, nat>,
    latest: map<string, int>)

  datatype Step =
    | Admit(key: string, now: int)
    | Resolve(ticket: nat, failed: bool, now: int)
    | Drop(ticket: nat)

  /** The outcomes that counted for a key, in order. */
  function CountedOf(w: World, key: string): seq<bool> {
    if key in w.counted then w.counted[key] else []
  }

  /** How many admissions, of any key, had been issued at the key's latest decisive outcome. */
  function ClearedOf(w: World, key: string): nat {
    if key in w.cleared then w.cleared[key] else 0
  }

  /** The admission was issued after its key's latest decisive outcome. */
  predicate Counts(w: World, ticket: nat) {
    ticket < |w.issued| && ticket >= ClearedOf(w, w.issued[ticket].key)
  }

  predicate Decisive(w: World, ticket: nat, failed: bool) {
    Counts(w, ticket) && (!failed || Streak(CountedOf(w, w.issued[ticket].key) + [true]) >= w.threshold)
  }

  /** An admission is resolved or dropped once, by the request that holds it. */
  predicate Enabled(w: World, step: Step) {
    step.Admit? || (step.ticket in w.live && step.ticket < |w.issued|)
  }

  function Next(w: World, step: Step): World
    requires Enabled(w, step)
  {
    match step
    case Admit(key, now) =>
      var (states, admitted) := Admitted(w.states, key, now);
      if admitted.None? then w.(states := states)
      else w.(states := states, issued := w.issued + [admitted.value], live := w.live + {|w.issued|})
    case Resolve(ticket, failed, now) =>
      var a := w.issued[ticket];
      var v := w.(states := Resolved(w.states, a, failed, now, w.threshold, w.cooldown), live := w.live - {ticket});
      if !Counts(w, ticket) then v
      else
        v.(counted := w.counted[a.key := CountedOf(w, a.key) + [failed]],
           cleared := if Decisive(w, ticket, failed) then w.cleared[a.key := |w.issued|] else w.cleared,
           latest := w.latest[a.key := now])
    case Drop(ticket) =>
      w.(states := Dropped(w.states, w.issued[ticket]), live := w.live - {ticket})
  }

  ghost predicate Run(worlds: seq<World>, steps: seq<Step>) {
    && |worlds| == |steps| + 1
    && forall i :: 0 <= i < |steps| ==> Enabled(worlds[i], steps[i]) && worlds[i + 1] == Next(worlds[i], steps[i])
  }

  predicate Initial(w: World) {
    1 <= w.threshold <= MaxFailures && w.states == map[] && w.issued == [] && w.live == {}
    && w.counted == map[] && w.cleared == map[] && w.latest == map[]
  }

  /** How many of the latest counted outcomes were transient failures in a row. */
  function Streak(outcomes: seq<bool>): (n: nat)
    ensures n <= |outcomes|
  {
    if outcomes == [] || !outcomes[|outcomes| - 1] then 0 else Streak(outcomes[..|outcomes| - 1]) + 1
  }

  /** A streak counts exactly the longest run of failures at the end. */
  lemma {:induction false} StreakIsSuffix(outcomes: seq<bool>, n: nat)
    requires n <= |outcomes|
    ensures n <= Streak(outcomes) <==> (forall i :: |outcomes| - n <= i < |outcomes| ==> outcomes[i])
    decreases |outcomes|
  {
    var last := |outcomes| - 1;
    if n > 0 {
      StreakIsSuffix(outcomes[..last], n - 1);
      assert forall i :: last - (n - 1) <= i < last ==> outcomes[i] == outcomes[..last][i];
    }
  }

  lemma StreakGrows(outcomes: seq<bool>, failed: bool)
    ensures Streak(outcomes + [failed]) == if failed then Streak(outcomes) + 1 else 0
  {
    assert (outcomes + [failed])[..|outcomes|] == outcomes;
  }

  function Min(a: nat, b: nat): nat { if a < b then a else b }

  /** A live probe that still counts. */
  predicate Probes(w: World, key: string, ticket: nat) {
    ticket in w.live && Counts(w, ticket) && w.issued[ticket].key == key && w.issued[ticket].probe
  }

  /** What the generation of a live admission says about its place in the order. */
  ghost predicate TicketInv(w: World, ticket: nat) {
    ticket < |w.issued| &&
    var a := w.issued[ticket];
    && a.key in w.states && a.generation <= w.states[a.key].generation
    && (a.generation == w.states[a.key].generation <==> Counts(w, ticket))
    && (Counts(w, ticket) ==> (a.probe <==> w.states[a.key].openUntil.Some?))
  }

  ghost predicate ProbeInv(w: World, key: string) {
    && (StateOf(w.states, key).probe <==> exists i :: Probes(w, key, i))
    && (forall i, j :: Probes(w, key, i) && Probes(w, key, j) ==> i == j)
  }

  ghost predicate KeyInv(w: World, key: string) {
    var s := StateOf(w.states, key);
    && ClearedOf(w, key) <= |w.issued|
    && (s.probe ==> s.openUntil.Some?)
    && (s.openUntil.Some? <==> s.failures >= w.threshold)
    && s.failures == Min(Streak(CountedOf(w, key)), MaxFailures)
    && (s.openUntil.Some? ==> key in w.latest && s.openUntil.value == w.latest[key] + w.cooldown)
  }

  ghost predicate Inv(w: World) {
    && 1 <= w.threshold <= MaxFailures
    && (forall i :: i in w.live ==> TicketInv(w, i))
    && (forall key :: KeyInv(w, key) && ProbeInv(w, key))
  }

  // ------------------------------------------------------------ preservation

  lemma OnlyOwnAdmitted(states: States, key: string, now: int)
    ensures var (states', r) := Admitted(states, key, now);
      && (forall k :: k != key ==> StateOf(states', k) == StateOf(states, k) && (k in states <==> k in states'))
      && key in states' && states'[key].generation == StateOf(states, key).generation
      && states'[key] == StateOf(states, key).(probe := states'[key].probe)
      && (r.Some? ==>
            && r.value == Admission(key, states'[key].generation, states'[key].openUntil.Some?)
            && !StateOf(states, key).probe && states'[key].probe == states'[key].openUntil.Some?)
      && (r.None? ==> states'[key] == StateOf(states, key))
  {
  }

  lemma AdmitKeeps(w: World, key: string, now: int)
    requires Inv(w)
    ensures Inv(Next(w, Admit(key, now)))
  {
    hide Streak, Admitted;
    var v := Next(w, Admit(key, now));
    OnlyOwnAdmitted(w.states, key, now);
    assert v.issued[..|w.issued|] == w.issued;
    forall i | i in v.live ensures TicketInv(v, i) {
      if i in w.live {
        assert TicketInv(w, i);
        assert v.issued[i] == w.issued[i];
        assert StateOf(v.states, w.issued[i].key).openUntil == StateOf(w.states, w.issued[i].key).openUntil;
      } else {
        assert KeyInv(w, key);
        assert i == |w.issued| && v.issued[i] == Admitted(w.states, key, now).1.value;
      }
    }
    forall k ensures KeyInv(v, k) && ProbeInv(v, k) {
      assert KeyInv(w, k) && ProbeInv(w, k);
      assert CountedOf(v, k) == CountedOf(w, k) && ClearedOf(v, k) == ClearedOf(w, k);
      AdmitKeepsProbe(w, key, now, k);
    }
  }

  lemma NoFutureTicket(w: World)
    requires Inv(w)
    ensures |w.issued| !in w.live
  {
    assert |w.issued| in w.live ==> TicketInv(w, |w.issued|);
  }

  lemma AdmitKeepsProbe(w: World, key: string, now: int, k: string)
    requires Inv(w)
    ensures ProbeInv(Next(w, Admit(key, now)), k)
  {
    hide Streak, Admitted;
    var v := Next(w, Admit(key, now));
    OnlyOwnAdmitted(w.states, key, now);
    assert KeyInv(w, k) && ProbeInv(w, k);
    var n := |w.issued|;
    var admitted := Admitted(w.states, key, now).1;
    assert admitted.Some? ==> v.issued[n] == admitted.value && v.live == w.live + {n};
    assert admitted.None? ==> v.issued == w.issued && v.live == w.live;
    assert n !in w.live by { NoFutureTicket(w); }
    forall i: nat ensures Probes(v, k, i) <==> Probes(w, k, i) || (i == n && n < |v.issued| && v.issued[n].probe && k == key) {
      assert i < n ==> v.issued[i] == w.issued[i] && (Counts(v, i) <==> Counts(w, i));
      assert i in w.live ==> TicketInv(w, i);
    }
    if k == key && n < |v.issued| && v.issued[n].probe {
      assert Probes(v, k, n);
    }
  }

  lemma ResolveKeepsTicket(w: World, ticket: nat, failed: bool, now: int, i: nat)
    requires Inv(w) && ticket in w.live && ticket < |w.issued| && i in w.live && i != ticket
    ensures TicketInv(Next(w, Resolve(ticket, failed, now)), i)
  {
    hide Streak;
    assert TicketInv(w, i) && TicketInv(w, ticket);
    var key := w.issued[ticket].key;
    assert KeyInv(w, key);
    StreakGrows(CountedOf(w, key), true);
  }

  lemma ResolveKeepsKey(w: World, ticket: nat, failed: bool, now: int, key: string)
    requires Inv(w) && ticket in w.live && ticket < |w.issued|
    ensures KeyInv(Next(w, Resolve(ticket, failed, now)), key)
  {
    hide Streak;
    assert TicketInv(w, ticket) && KeyInv(w, key);
    StreakGrows(CountedOf(w, key), failed);
  }

  lemma ResolveKeepsProbe(w: World, ticket: nat, failed: bool, now: int, key: string)
    requires Inv(w) && ticket in w.live && ticket < |w.issued|
    ensures ProbeInv(Next(w, Resolve(ticket, failed, now)), key)
  {
    hide Streak;
    var v := Next(w, Resolve(ticket, failed, now));
    assert TicketInv(w, ticket) && KeyInv(w, key) && ProbeInv(w, key);
    StreakGrows(CountedOf(w, key), true);
    forall i: nat | Probes(v, key, i) ensures Probes(w, key, i) && i != ticket && !(w.issued[ticket].key == key && Counts(w, ticket)) {
      assert TicketInv(w, i);
    }
    if StateOf(v.states, key).probe {
      var i :| Probes(w, key, i);
      assert TicketInv(w, i);
      assert Probes(v, key, i);
    }
  }

  lemma DropKeeps(w: World, ticket: nat)
    requires Inv(w) && ticket in w.live && ticket < |w.issued|
    ensures Inv(Next(w, Drop(ticket)))
  {
    hide Streak;
    var v := Next(w, Drop(ticket));
    assert TicketInv(w, ticket);
    forall i | i in v.live ensures TicketInv(v, i) {
      assert TicketInv(w, i);
    }
    forall key ensures KeyInv(v, key) && ProbeInv(v, key) {
      assert KeyInv(w, key) && ProbeInv(w, key);
      assert forall i: nat :: Probes(v, key, i) <==> Probes(w, key, i) && i != ticket;
      if Probes(w, key, ticket) {
        assert !StateOf(v.states, key).probe;
      } else if StateOf(v.states, key).probe {
        var i :| Probes(w, key, i);
        assert Probes(v, key, i);
      }
    }
  }

  lemma StepKeepsInv(w: World, step: Step)
    requires Inv(w) && Enabled(w, step)
    ensures Inv(Next(w, step))
  {
    hide KeyInv, TicketInv, ProbeInv, Streak;
    match step
    case Admit(key, now) => AdmitKeeps(w, key, now);
    case Resolve(ticket, failed, now) =>
      forall i | i in Next(w, step).live ensures TicketInv(Next(w, step), i) {
        ResolveKeepsTicket(w, ticket, failed, now, i);
      }
      forall key ensures KeyInv(Next(w, step), key) && ProbeInv(Next(w, step), key) {
        ResolveKeepsKey(w, ticket, failed, now, key);
        ResolveKeepsProbe(w, ticket, failed, now, key);
      }
    case Drop(ticket) => DropKeeps(w, ticket);
  }

  lemma {:induction false} RunKeepsInv(worlds: seq<World>, steps: seq<Step>)
    requires Run(worlds, steps) && Initial(worlds[0])
    ensures Inv(worlds[|steps|])
    decreases |steps|
  {
    if steps == [] {
      assert forall key :: KeyInv(worlds[0], key) && ProbeInv(worlds[0], key);
    } else {
      var n := |steps| - 1;
      RunKeepsInv(worlds[..n + 1], steps[..n]);
      StepKeepsInv(worlds[n], steps[n]);
    }
  }

  // -------------------------------------------------------------- guarantees

  /** Comparing generations decides exactly what the order of issue decides. */
  lemma GenerationIsIssueOrder(worlds: seq<World>, steps: seq<Step>, ticket: nat)
    requires Run(worlds, steps) && Initial(worlds[0])
    requires ticket in worlds[|steps|].live
    ensures var w := worlds[|steps|];
            ticket < |w.issued| && (Current(w.states, w.issued[ticket]) <==> Counts(w, ticket))
  {
    RunKeepsInv(worlds, steps);
    assert TicketInv(worlds[|steps|], ticket);
  }

  /** The probe flag is up exactly while one unresolved probe that counts is alive. */
  lemma ProbeExclusive(worlds: seq<World>, steps: seq<Step>, key: string)
    requires Run(worlds, steps) && Initial(worlds[0])
    ensures var w := worlds[|steps|];
            && (StateOf(w.states, key).probe <==> exists i :: Probes(w, key, i))
            && forall i, j :: Probes(w, key, i) && Probes(w, key, j) ==> i == j
  {
    RunKeepsInv(worlds, steps);
    assert ProbeInv(worlds[|steps|], key);
  }

  /** Open means that the last `threshold` outcomes that counted were all transient failures, and conversely;
      it cools down from the latest of them. */
  lemma OpenIffStreak(worlds: seq<World>, steps: seq<Step>, key: string)
    requires Run(worlds, steps) && Initial(worlds[0])
    ensures var w, s, outcomes := worlds[|steps|], StateOf(worlds[|steps|].states, key), CountedOf(worlds[|steps|], key);
            && (s.openUntil.Some? <==> s.failures >= w.threshold)
            && (s.openUntil.Some? <==>
                |outcomes| >= w.threshold && forall i :: |outcomes| - w.threshold <= i < |outcomes| ==> outcomes[i])
            && (s.openUntil.Some? ==> key in w.latest && s.openUntil.value == w.latest[key] + w.cooldown)
  {
    RunKeepsInv(worlds, steps);
    var w := worlds[|steps|];
    var outcomes := CountedOf(w, key);
    assert KeyInv(w, key);
    if |outcomes| >= w.threshold {
      StreakIsSuffix(outcomes, w.threshold);
    }
  }

  /**
   * A key refuses exactly while it cools down or its probe is alive: so with no live admission a
   * cooled-down circuit always admits, and no cancellation leaks the probe slot.
   */
  lemma RefusesOnlyForCause(worlds: seq<World>, steps: seq<Step>, key: string, now: int)
    requires Run(worlds, steps) && Initial(worlds[0])
    ensures var w, s := worlds[|steps|], StateOf(worlds[|steps|].states, key);
            Admitted(w.states, key, now).1 == None <==>
            (s.openUntil.Some? && now < s.openUntil.value) || exists i :: Probes(w, key, i)
  {
    RunKeepsInv(worlds, steps);
    assert ProbeInv(worlds[|steps|], key);
  }

  lemma StepGrows(w: World, step: Step, key: string)
    requires Inv(w) && Enabled(w, step)
    ensures w.issued <= Next(w, step).issued && ClearedOf(w, key) <= ClearedOf(Next(w, step), key)
  {
    hide Streak, ProbeInv, TicketInv;
    assert KeyInv(w, key);
  }

  /** The order of issue is never rewritten, and what is cleared stays cleared. */
  lemma {:induction false} OrderGrows(worlds: seq<World>, steps: seq<Step>, i: nat, key: string)
    requires Run(worlds, steps) && Initial(worlds[0]) && i <= |steps|
    ensures worlds[i].issued <= worlds[|steps|].issued && ClearedOf(worlds[i], key) <= ClearedOf(worlds[|steps|], key)
    decreases |steps| - i
  {
    hide Next, Inv, Enabled;
    if i < |steps| {
      RunKeepsInv(worlds[..i + 1], steps[..i]);
      StepGrows(worlds[i], steps[i], key);
      OrderGrows(worlds, steps, i + 1, key);
    }
  }

  /** An outcome that does not count now never will. */
  lemma StaleForEver(worlds: seq<World>, steps: seq<Step>, i: nat, ticket: nat)
    requires Run(worlds, steps) && Initial(worlds[0])
    requires i <= |steps| && ticket < |worlds[i].issued| && !Counts(worlds[i], ticket)
    ensures ticket < |worlds[|steps|].issued| && !Counts(worlds[|steps|], ticket)
  {
    OrderGrows(worlds, steps, i, worlds[i].issued[ticket].key);
  }

  /**
   * Once an admission of a key succeeds while it counts, or fails and opens the circuit, every other admission of
   * that key issued before is inert for ever: resolving or dropping it changes no state and no count.
   */
  lemma StaleIsInert(worlds: seq<World>, steps: seq<Step>, i: nat, ticket: nat, step: Step)
    requires Run(worlds, steps) && Initial(worlds[0])
    requires i < |steps| && steps[i].Resolve? && Counts(worlds[i], steps[i].ticket)
    requires var key := worlds[i].issued[steps[i].ticket].key;
             && (!steps[i].failed || StateOf(worlds[i + 1].states, key).openUntil.Some?)
             && ticket < |worlds[i].issued| && worlds[i].issued[ticket].key == key
    requires !step.Admit? && step.ticket == ticket && Enabled(worlds[|steps|], step)
    ensures var w, v := worlds[|steps|], Next(worlds[|steps|], step);
            v.states == w.states && v.counted == w.counted && v.cleared == w.cleared && v.latest == w.latest
  {
    hide Streak;
    var key := worlds[i].issued[ticket].key;
    RunKeepsInv(worlds[..i + 1], steps[..i]);
    RunKeepsInv(worlds[..i + 2], steps[..i + 1]);
    DecisiveClears(worlds[i], steps[i]);
    OrderGrows(worlds, steps, i, key);
    OrderGrows(worlds, steps, i + 1, key);
    GenerationIsIssueOrder(worlds, steps, ticket);
  }

  lemma DecisiveClears(w: World, step: Step)
    requires Inv(w) && Enabled(w, step) && step.Resolve? && Counts(w, step.ticket) && Inv(Next(w, step))
    requires !step.failed || StateOf(Next(w, step).states, w.issued[step.ticket].key).openUntil.Some?
    ensures ClearedOf(Next(w, step), w.issued[step.ticket].key) == |w.issued|
  {
    hide Streak;
    var key := w.issued[step.ticket].key;
    assert KeyInv(w, key) && KeyInv(Next(w, step), key);
  }

  /** The scenario of overlapping calls: of three admitted while closed, one succeeds, and the failures of the
      other two no longer open the circuit. */
  lemma LateFailuresDoNotOpen(key: string)
    ensures var w := World(2, 10, map[], [], {}, map[], map[], map[]);
      var w3 := Next(Next(Next(w, Admit(key, 0)), Admit(key, 0)), Admit(key, 0));
      var w6 := Next(Next(Next(w3, Resolve(0, false, 1)), Resolve(1, true, 1)), Resolve(2, true, 1));
      StateOf(w6.states, key).openUntil == None && Admitted(w6.states, key, 1).1.Some?
  {
  }
}
