/** Schema resolution: references followed and `allOf` parts merged, each reference expanded once. */
module Schemas {
  import opened References

  const PlainObject := Record(map["type" := Str("object")])

  function Merged(properties: map<string, Value>, required: seq<Value>): Value {
    var base := map["type" := Str("object"), "properties" := Record(properties)];
    Record(if required == [] then base else base["required" := List(required)])
  }

  function PropertiesOf(v: Value): map<string, Value> {
    var p := Field(v, "properties");
    if p.Record? then p.fields else map[]
  }

  function RequiredOf(v: Value): seq<Value> {
    var r := Field(v, "required");
    if r.List? then r.items else []
  }

  predicate IsAllOf(v: Value) { !IsRef(v) && Field(v, "allOf").List? }

  function Parts(v: Value): seq<Value>
    requires IsAllOf(v)
  {
    Field(v, "allOf").items
  }

  lemma PartsHoldNoMore(v: Value, i: nat)
    requires IsAllOf(v) && i < |Parts(v)|
    ensures RefsIn(Parts(v)[i]) <= RefsIn(v)
  {
    assert RefsIn(Parts(v)[i]) <= RefsIn(Field(v, "allOf"));
    assert RefsIn(Field(v, "allOf")) <= RefsIn(v);
  }

  datatype Fold = Fold(properties: map<string, Value>, required: seq<Value>, seen: set<string>)

  /**
   * `all` bounds the references that can still be met; each one is followed at most once, so the pair
   * (references not yet seen, size of the schema) decreases on every document, cyclic or not.
   */
  function Resolve(spec: Value, schema: Value, seen: set<string>, ghost all: set<string>): (r: (Value, set<string>))
    requires RefsIn(spec) <= all && RefsIn(schema) <= all
    ensures seen <= r.1 && !IsRef(r.0)
    decreases |all - seen|, schema, 1, 0
  {
    if IsRef(schema) then
      var reference := RefOf(schema);
      if reference in seen then (PlainObject, seen)
      else
        DerefHoldsNoMore(spec, reference);
        OwnRef(schema);
        Shrinks(all, seen, reference);
        Resolve(spec, Deref(spec, reference), seen + {reference}, all)
    else if IsAllOf(schema) then
      var f := ResolveParts(spec, schema, 0, Fold(map[], [], seen), all);
      (Merged(f.properties, f.required), f.seen)
    else (schema, seen)
  }

  /** The merge of one resolved part into what came before: later properties win. */
  function Absorb(f: Fold, part: Value, seen: set<string>): Fold {
    Fold(f.properties + PropertiesOf(part), f.required + RequiredOf(part), seen)
  }

  function ResolveParts(spec: Value, schema: Value, i: nat, f: Fold, ghost all: set<string>): (g: Fold)
    requires RefsIn(spec) <= all && RefsIn(schema) <= all && IsAllOf(schema) && i <= |Parts(schema)|
    ensures f.seen <= g.seen
    decreases |all - f.seen|, schema, 0, |Parts(schema)| - i
  {
    if i == |Parts(schema)| then f
    else
      PartsHoldNoMore(schema, i);
      var (part, seen) := Resolve(spec, Parts(schema)[i], f.seen, all);
      NoLarger(all, f.seen, seen);
      ResolveParts(spec, schema, i + 1, Absorb(f, part, seen), all)
  }

  /** The recursion with the visited set threaded through the loop over the parts. */
  method ResolveSchema(spec: Value, schema: Value, seen: set<string>, ghost all: set<string>)
      returns (resolved: Value, seen': set<string>)
    requires RefsIn(spec) <= all && RefsIn(schema) <= all
    ensures (resolved, seen') == Resolve(spec, schema, seen, all)
    decreases |all - seen|, schema
  {
    hide RefsIn, Deref, PropertiesOf, RequiredOf;
    if !schema.Record? {
      return schema, seen;
    }
    if IsRef(schema) {
      var reference := RefOf(schema);
      if reference in seen {
        return PlainObject, seen;
      }
      DerefHoldsNoMore(spec, reference);
      OwnRef(schema);
      Shrinks(all, seen, reference);
      var target := DerefPointer(spec, reference);
      resolved, seen' := ResolveSchema(spec, target, seen + {reference}, all);
      return;
    }
    if !Field(schema, "allOf").List? {
      return schema, seen;
    }
    var parts := Field(schema, "allOf").items;
    var f := Fold(map[], [], seen);
    var i := 0;
    while i < |parts|
      invariant i <= |parts| && seen <= f.seen
      invariant ResolveParts(spec, schema, 0, Fold(map[], [], seen), all) == ResolveParts(spec, schema, i, f, all)
    {
      PartsHoldNoMore(schema, i);
      NoLarger(all, seen, f.seen);
      var part, seen'' := ResolveSchema(spec, parts[i], f.seen, all);
      f := Absorb(f, part, seen'');
      i := i + 1;
    }
    resolved, seen' := Merged(f.properties, f.required), f.seen;
  }

  // What resolution gathers, stated over the graph of references.

  function Names(v: Value): set<string> { PropertiesOf(v).Keys }

  /** The property names a schema contributes itself, looking through `allOf` but not through references. */
  function OwnNames(v: Value): set<string> {
    if IsRef(v) then {}
    else if IsAllOf(v) then set i, n | 0 <= i < |Parts(v)| && n in OwnNames(Parts(v)[i]) :: n
    else Names(v)
  }

  /** The references it makes, likewise. */
  function OwnRefs(v: Value): set<string> {
    if IsRef(v) then {RefOf(v)}
    else if IsAllOf(v) then set i, r | 0 <= i < |Parts(v)| && r in OwnRefs(Parts(v)[i]) :: r
    else {}
  }

  /** A set of references that, beyond `seen`, holds whatever its targets refer to. */
  ghost predicate Closed(spec: Value, refs: set<string>, seen: set<string>) {
    forall r :: r in refs && r !in seen ==> OwnRefs(Deref(spec, r)) <= refs
  }

  ghost predicate NamedBy(spec: Value, refs: set<string>, n: string) {
    exists r :: r in refs && n in OwnNames(Deref(spec, r))
  }

  /** One call gathers its own names and those of every reference it newly expands, and expands no more than it must. */
  ghost predicate Gathers(spec: Value, names: set<string>, own: set<string>, refs: set<string>, seen: set<string>, seen': set<string>) {
    && seen <= seen' && refs <= seen'
    && Closed(spec, seen', seen)
    && (forall n :: n in names <==> n in own || NamedBy(spec, seen' - seen, n))
    && (forall c :: refs <= c && Closed(spec, c, {}) ==> seen' <= seen + c)
  }

  lemma {:induction false} ResolveGathers(spec: Value, schema: Value, seen: set<string>, all: set<string>)
    requires RefsIn(spec) <= all && RefsIn(schema) <= all
    ensures var (r, seen') := Resolve(spec, schema, seen, all);
            Gathers(spec, Names(r), OwnNames(schema), OwnRefs(schema), seen, seen')
    decreases |all - seen|, schema, 1, 0
  {
    hide RefsIn, Deref, Gathers, OwnNames, OwnRefs, Names, NamesFrom, RefsFrom;
    var (r, seen') := Resolve(spec, schema, seen, all);
    if IsRef(schema) {
      var reference := RefOf(schema);
      if reference in seen {
        SeenGathers(spec, schema, seen);
      } else {
        DerefHoldsNoMore(spec, reference);
        OwnRef(schema);
        Shrinks(all, seen, reference);
        ResolveGathers(spec, Deref(spec, reference), seen + {reference}, all);
        FollowGathers(spec, schema, Names(r), seen, seen');
      }
    } else if IsAllOf(schema) {
      PartsGather(spec, schema, 0, Fold(map[], [], seen), all);
      assert Fold(map[], [], seen).properties.Keys == {};
      MergedGathers(spec, schema, ResolveParts(spec, schema, 0, Fold(map[], [], seen), all), seen);
    } else {
      LeafGathers(spec, schema, seen);
    }
  }

  lemma SeenGathers(spec: Value, schema: Value, seen: set<string>)
    requires IsRef(schema) && RefOf(schema) in seen
    ensures Gathers(spec, Names(PlainObject), OwnNames(schema), OwnRefs(schema), seen, seen)
  {
  }

  lemma LeafGathers(spec: Value, schema: Value, seen: set<string>)
    requires !IsRef(schema) && !IsAllOf(schema)
    ensures Gathers(spec, Names(schema), OwnNames(schema), OwnRefs(schema), seen, seen)
  {
  }

  lemma FollowGathers(spec: Value, schema: Value, names: set<string>, seen: set<string>, seen': set<string>)
    requires IsRef(schema) && RefOf(schema) !in seen
    requires var target := Deref(spec, RefOf(schema));
             Gathers(spec, names, OwnNames(target), OwnRefs(target), seen + {RefOf(schema)}, seen')
    ensures Gathers(spec, names, OwnNames(schema), OwnRefs(schema), seen, seen')
  {
    var reference := RefOf(schema);
    var target := Deref(spec, reference);
    assert OwnNames(schema) == {} && OwnRefs(schema) == {reference};
    hide Deref, OwnNames, OwnRefs;
    forall n ensures n in names <==> NamedBy(spec, seen' - seen, n) {
      NamedByEither(spec, seen, seen + {reference}, seen', n);
      assert NamedBy(spec, seen + {reference} - seen, n) <==> n in OwnNames(target);
    }
  }

  lemma MergedGathers(spec: Value, schema: Value, g: Fold, seen: set<string>)
    requires IsAllOf(schema)
    requires Gathers(spec, g.properties.Keys, {} + NamesFrom(schema, 0), RefsFrom(schema, 0), seen, g.seen)
    ensures Gathers(spec, Names(Merged(g.properties, g.required)), OwnNames(schema), OwnRefs(schema), seen, g.seen)
  {
    hide Gathers;
    assert OwnNames(schema) == {} + NamesFrom(schema, 0) && OwnRefs(schema) == RefsFrom(schema, 0);
    assert Names(Merged(g.properties, g.required)) == g.properties.Keys;
  }

  function NamesFrom(v: Value, i: nat): set<string>
    requires IsAllOf(v)
  {
    set j, n | i <= j < |Parts(v)| && n in OwnNames(Parts(v)[j]) :: n
  }

  function RefsFrom(v: Value, i: nat): set<string>
    requires IsAllOf(v)
  {
    set j, r | i <= j < |Parts(v)| && r in OwnRefs(Parts(v)[j]) :: r
  }

  lemma FromNext(v: Value, i: nat)
    requires IsAllOf(v) && i < |Parts(v)|
    ensures NamesFrom(v, i) == OwnNames(Parts(v)[i]) + NamesFrom(v, i + 1)
    ensures RefsFrom(v, i) == OwnRefs(Parts(v)[i]) + RefsFrom(v, i + 1)
  {
    hide OwnNames, OwnRefs, IsAllOf, Parts;
  }

  /** What is gathered first and what is gathered next make up what is gathered together. */
  lemma GatherOn(spec: Value, kept: set<string>,
                 first: set<string>, own1: set<string>, refs1: set<string>, s0: set<string>, s1: set<string>,
                 total: set<string>, own2: set<string>, refs2: set<string>, s2: set<string>)
    requires Gathers(spec, first, own1, refs1, s0, s1)
    requires Gathers(spec, total, kept + first + own2, refs2, s1, s2)
    ensures Gathers(spec, total, kept + (own1 + own2), refs1 + refs2, s0, s2)
  {
    hide OwnNames, OwnRefs, Deref;
    forall n ensures n in total <==> n in kept + (own1 + own2) || NamedBy(spec, s2 - s0, n) {
      NamedByEither(spec, s0, s1, s2, n);
    }
    forall c | refs1 + refs2 <= c && Closed(spec, c, {}) ensures s2 <= s0 + c {
      assert s1 <= s0 + c && s2 <= s1 + c;
    }
  }

  lemma NamedByEither(spec: Value, s0: set<string>, s1: set<string>, s2: set<string>, n: string)
    requires s0 <= s1 <= s2
    ensures NamedBy(spec, s2 - s0, n) <==> NamedBy(spec, s1 - s0, n) || NamedBy(spec, s2 - s1, n)
  {
    hide OwnNames, Deref;
    if NamedBy(spec, s2 - s0, n) {
      var r :| r in s2 - s0 && n in OwnNames(Deref(spec, r));
      assert r in s1 - s0 || r in s2 - s1;
    }
  }

  lemma {:induction false} PartsGather(spec: Value, schema: Value, i: nat, f: Fold, all: set<string>)
    requires RefsIn(spec) <= all && RefsIn(schema) <= all && IsAllOf(schema) && i <= |Parts(schema)|
    ensures var g := ResolveParts(spec, schema, i, f, all);
            Gathers(spec, g.properties.Keys, f.properties.Keys + NamesFrom(schema, i), RefsFrom(schema, i), f.seen, g.seen)
    decreases |all - f.seen|, schema, 0, |Parts(schema)| - i
  {
    hide RefsIn, Deref, Gathers, Resolve, OwnNames, OwnRefs, PropertiesOf, RequiredOf;
    if i == |Parts(schema)| {
      GatherNothing(spec, f.properties.Keys, f.seen);
      assert NamesFrom(schema, i) == {} && RefsFrom(schema, i) == {};
      assert f.properties.Keys + {} == f.properties.Keys;
    } else {
      PartsHoldNoMore(schema, i);
      var (part, seen) := Resolve(spec, Parts(schema)[i], f.seen, all);
      NoLarger(all, f.seen, seen);
      ResolveGathers(spec, Parts(schema)[i], f.seen, all);
      var h := Absorb(f, part, seen);
      PartsGather(spec, schema, i + 1, h, all);
      var g := ResolveParts(spec, schema, i + 1, h, all);
      assert h.properties.Keys == f.properties.Keys + Names(part);
      GatherOn(spec, f.properties.Keys, Names(part), OwnNames(Parts(schema)[i]), OwnRefs(Parts(schema)[i]), f.seen, seen,
               g.properties.Keys, NamesFrom(schema, i + 1), RefsFrom(schema, i + 1), g.seen);
      FromNext(schema, i);
    }
  }

  lemma GatherNothing(spec: Value, names: set<string>, seen: set<string>)
    ensures Gathers(spec, names, names, {}, seen, seen)
  {
  }

  /** The references that resolving a schema can come upon: the least closed set that holds its own. */
  ghost predicate IsReach(spec: Value, schema: Value, reach: set<string>) {
    && OwnRefs(schema) <= reach && Closed(spec, reach, {})
    && forall c :: OwnRefs(schema) <= c && Closed(spec, c, {}) ==> reach <= c
  }

  /**
   * Resolving a schema from scratch ends on every document, leaves no reference at the top, and
   * yields exactly the property names of the schemas reachable through references and `allOf`:
   * expanding every reference only once, and flattening cycles, loses none.
   */
  lemma ResolvedNamesAreReachable(spec: Value, schema: Value, reach: set<string>)
    requires IsReach(spec, schema, reach)
    ensures var r := Resolve(spec, schema, {}, RefsIn(spec) + RefsIn(schema)).0;
            !IsRef(r) && forall n :: n in Names(r) <==> n in OwnNames(schema) || NamedBy(spec, reach, n)
  {
    hide RefsIn, Deref, OwnNames, OwnRefs, Names, IsRef;
    var all := RefsIn(spec) + RefsIn(schema);
    var (r, seen) := Resolve(spec, schema, {}, all);
    ResolveGathers(spec, schema, {}, all);
    assert seen <= {} + reach && reach <= seen;
    assert seen - {} == reach;
  }

  /** Such a set always exists: it is the visited set that resolution ends with. */
  lemma VisitedIsReach(spec: Value, schema: Value)
    ensures IsReach(spec, schema, Resolve(spec, schema, {}, RefsIn(spec) + RefsIn(schema)).1)
  {
    hide RefsIn, Deref, OwnNames, OwnRefs, Names, IsRef;
    var all := RefsIn(spec) + RefsIn(schema);
    var (r, seen) := Resolve(spec, schema, {}, all);
    ResolveGathers(spec, schema, {}, all);
    forall c | OwnRefs(schema) <= c && Closed(spec, c, {}) ensures seen <= c {
      assert seen <= {} + c;
    }
  }

  // What a merged schema holds.

  /** What the parts from `i` on resolve to, in order, each with the references seen by then. */
  ghost function PartResults(spec: Value, schema: Value, i: nat, seen: set<string>, all: set<string>): (results: seq<Value>)
    requires RefsIn(spec) <= all && RefsIn(schema) <= all && IsAllOf(schema) && i <= |Parts(schema)|
    ensures |results| == |Parts(schema)| - i
    decreases |Parts(schema)| - i
  {
    if i == |Parts(schema)| then []
    else
      PartsHoldNoMore(schema, i);
      var (part, seen') := Resolve(spec, Parts(schema)[i], seen, all);
      [part] + PartResults(spec, schema, i + 1, seen', all)
  }

  ghost function AllRequired(results: seq<Value>): seq<Value> {
    if results == [] then [] else RequiredOf(results[0]) + AllRequired(results[1..])
  }

  /** The last of the results that has the property. */
  ghost predicate LastWith(results: seq<Value>, n: string, j: nat) {
    j < |results| && n in PropertiesOf(results[j]) && forall k :: j < k < |results| ==> n !in PropertiesOf(results[k])
  }

  ghost predicate MergedFrom(properties: map<string, Value>, before: map<string, Value>, results: seq<Value>) {
    && (forall n :: n in properties <==> n in before || exists j :: 0 <= j < |results| && n in PropertiesOf(results[j]))
    && (forall n, j: nat :: LastWith(results, n, j) ==> n in properties && properties[n] == PropertiesOf(results[j])[n])
    && (forall n :: n in before && (forall j :: 0 <= j < |results| ==> n !in PropertiesOf(results[j])) ==>
          n in properties && properties[n] == before[n])
  }

  lemma MergedNext(properties: map<string, Value>, before: map<string, Value>, first: Value, rest: seq<Value>)
    requires MergedFrom(properties, before + PropertiesOf(first), rest)
    ensures MergedFrom(properties, before, [first] + rest)
  {
    hide PropertiesOf;
    var results := [first] + rest;
    assert results[1..] == rest && forall j :: 0 <= j < |rest| ==> results[j + 1] == rest[j];
    forall n ensures n in properties <==> n in before || exists j :: 0 <= j < |results| && n in PropertiesOf(results[j]) {
      if j :| 0 <= j < |rest| && n in PropertiesOf(rest[j]) {
        assert n in PropertiesOf(results[j + 1]);
      }
      if n in PropertiesOf(first) {
        assert n in PropertiesOf(results[0]);
      }
    }
    forall n, j: nat | LastWith(results, n, j) ensures n in properties && properties[n] == PropertiesOf(results[j])[n] {
      if j > 0 {
        assert LastWith(rest, n, j - 1);
      } else {
        forall k | 0 <= k < |rest| ensures n !in PropertiesOf(rest[k]) {
          assert results[k + 1] == rest[k];
        }
      }
    }
    forall n | n in before && (forall j :: 0 <= j < |results| ==> n !in PropertiesOf(results[j]))
      ensures n in properties && properties[n] == before[n]
    {
      assert n !in PropertiesOf(results[0]);
      forall k | 0 <= k < |rest| ensures n !in PropertiesOf(rest[k]) {
        assert results[k + 1] == rest[k];
      }
    }
  }

  lemma {:induction false} PartsMerge(spec: Value, schema: Value, i: nat, f: Fold, all: set<string>)
    requires RefsIn(spec) <= all && RefsIn(schema) <= all && IsAllOf(schema) && i <= |Parts(schema)|
    ensures var g, results := ResolveParts(spec, schema, i, f, all), PartResults(spec, schema, i, f.seen, all);
            MergedFrom(g.properties, f.properties, results) && g.required == f.required + AllRequired(results)
    decreases |Parts(schema)| - i
  {
    hide RefsIn, Resolve, PropertiesOf, RequiredOf, IsAllOf, Parts, MergedFrom;
    if i == |Parts(schema)| {
      NothingMerged(f.properties);
    } else {
      PartsHoldNoMore(schema, i);
      var (part, seen) := Resolve(spec, Parts(schema)[i], f.seen, all);
      NoLarger(all, f.seen, seen);
      var h := Absorb(f, part, seen);
      PartsMerge(spec, schema, i + 1, h, all);
      var rest := PartResults(spec, schema, i + 1, seen, all);
      MergedNext(ResolveParts(spec, schema, i + 1, h, all).properties, f.properties, part, rest);
      assert ([part] + rest)[1..] == rest;
    }
  }

  lemma NothingMerged(properties: map<string, Value>)
    ensures MergedFrom(properties, properties, [])
  {
  }

  /** A merged schema is an object whose properties are those of its parts, the last part that has one deciding
      its value, and whose requirements are the parts' in order; with none there is no such field. */
  lemma MergeLaw(spec: Value, schema: Value, seen: set<string>, all: set<string>)
    requires RefsIn(spec) <= all && RefsIn(schema) <= all && IsAllOf(schema)
    ensures var r, results := Resolve(spec, schema, seen, all).0, PartResults(spec, schema, 0, seen, all);
      && Field(r, "type") == Str("object") && MergedFrom(PropertiesOf(r), map[], results)
      && RequiredOf(r) == AllRequired(results) && (Field(r, "required") == Undefined <==> AllRequired(results) == [])
  {
    hide RefsIn, MergedFrom, ResolveParts, PartResults;
    PartsMerge(spec, schema, 0, Fold(map[], [], seen), all);
    var f := ResolveParts(spec, schema, 0, Fold(map[], [], seen), all);
    assert PropertiesOf(Merged(f.properties, f.required)) == f.properties;
    assert [] + f.required == f.required;
  }

  /** Anything else resolves to itself, a new reference to what its target resolves to, a seen one to a plain object. */
  lemma ResolveLaw(spec: Value, schema: Value, seen: set<string>, all: set<string>)
    requires RefsIn(spec) <= all && RefsIn(schema) <= all
    ensures var (r, seen') := Resolve(spec, schema, seen, all);
      && (!IsRef(schema) && !Field(schema, "allOf").List? ==> r == schema && seen' == seen)
      && (IsRef(schema) && RefOf(schema) in seen ==> r == Record(map["type" := Str("object")]) && seen' == seen)
      && (IsRef(schema) && RefOf(schema) !in seen ==>
            && RefsIn(Deref(spec, RefOf(schema))) <= all
            && (r, seen') == Resolve(spec, Deref(spec, RefOf(schema)), seen + {RefOf(schema)}, all))
  {
    if IsRef(schema) {
      DerefHoldsNoMore(spec, RefOf(schema));
    }
  }
}
