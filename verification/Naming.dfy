/** Input names for generated operations: every parameter and body property gets its own. */
module Naming {
  import opened Wrappers
  import opened Decimals

  datatype Location = Path | Query | Header | Cookie | Elsewhere(tag: nat)

  /**
   * An OpenAPI parameter; `base` is its name, in lower case for a header. It is `described` unless
   * its content names no single media type.
   */
  datatype Parameter = Parameter(wire: string, base: string, location: Location, required: bool, described: bool)

  predicate Located(p: Parameter) { p.location.Path? || p.location.Query? || p.location.Header? }

  /** Named parameters of a known location are emitted; lower-casing never empties a name. */
  predicate Emitted(p: Parameter) { p.base != [] && Located(p) }

  predicate WellNamed(p: Parameter) {
    (p.wire == [] <==> p.base == []) && (!p.location.Header? ==> p.base == p.wire)
  }

  predicate SameIdentity(p: Parameter, q: Parameter) { p.base == q.base && p.location == q.location }

  /** How the document spells a location; anything unknown counts as a query parameter. */
  function LocationName(l: Location): string {
    match l case Path => "path" case Header => "header" case _ => "query"
  }

  function Capitalised(s: string): string
    requires s != [] && 'a' <= s[0] <= 'z'
  {
    [('A' as int + (s[0] as int - 'a' as int)) as char] + s[1..]
  }

  function Suffix(l: Location): string {
    Capitalised(LocationName(l))
  }

  lemma Suffixes()
    ensures Suffix(Path) == "Path" && Suffix(Header) == "Header" && Suffix(Query) == "Query"
    ensures forall tag: nat :: Suffix(Elsewhere(tag)) == "Query"
  {
  }

  // Suffix search.

  function Candidate(stem: string, separator: string, n: nat): string {
    if n < 2 then stem else stem + separator + NatText(n)
  }

  /** No two candidates of one stem are alike. */
  lemma CandidatesDiffer(stem: string, separator: string, m: nat, n: nat)
    requires 1 <= m < n
    ensures Candidate(stem, separator, m) != Candidate(stem, separator, n)
  {
    hide NatText;
    var a, b := Candidate(stem, separator, m), Candidate(stem, separator, n);
    var cut := |stem| + |separator|;
    assert b[cut..] == NatText(n);
    if m >= 2 && a == b {
      assert a[cut..] == NatText(m);
      NatTextInjective(m, n);
    }
  }

  /** A name that is not taken: found, and found in at most as many tries as there are names taken. */
  method FreshName(stem: string, separator: string, taken: set<string>) returns (name: string)
    ensures name !in taken
    ensures exists n :: 1 <= n <= |taken| + 1 && name == Candidate(stem, separator, n)
                        && forall m :: 1 <= m < n ==> Candidate(stem, separator, m) in taken
    ensures name == stem <==> stem !in taken
  {
    name := stem;
    var counter := 2;
    ghost var tried: set<string> := {};
    while name in taken
      invariant counter >= 2 && name == Candidate(stem, separator, counter - 1)
      invariant forall m :: 1 <= m < counter - 1 ==> Candidate(stem, separator, m) in taken
      invariant tried <= taken && |tried| == counter - 2
      invariant forall s :: s in tried ==> exists m :: 1 <= m < counter - 1 && s == Candidate(stem, separator, m)
      decreases |taken - tried|
    {
      if name in tried {
        var m :| 1 <= m < counter - 1 && name == Candidate(stem, separator, m);
        CandidatesDiffer(stem, separator, m, counter - 1);
      }
      ghost var before := tried;
      tried := tried + {name};
      assert taken - tried < taken - before;
      SmallerSet(taken - tried, taken - before);
      name := stem + separator + NatText(counter);
      counter := counter + 1;
    }
    SubsetSize(tried, taken);
  }

  lemma SubsetSize<T>(s: set<T>, t: set<T>)
    requires s <= t
    ensures |s| <= |t|
  {
    assert |t| == |s| + |t - s|;
  }

  lemma SmallerSet<T>(s: set<T>, t: set<T>)
    requires s < t
    ensures |s| < |t|
  {
    var x :| x in t && x !in s;
    SubsetSize(s, t - {x});
  }

  /** The candidates are the stem itself, then the stem with 2, 3 and so on. */
  lemma CandidatesAreNumbered(stem: string, separator: string)
    ensures Candidate(stem, separator, 1) == stem
    ensures Candidate(stem, separator, 2) == stem + separator + "2" && Candidate(stem, separator, 3) == stem + separator + "3"
    ensures Candidate(stem, separator, 12) == stem + separator + "12"
  {
    assert NatText(12) == "12";
  }

  ghost predicate Numbered(name: string, stem: string, separator: string) {
    exists n: nat :: n >= 1 && name == Candidate(stem, separator, n)
  }

  /** The stem where it is free, else a numbered form of it. */
  ghost predicate FirstFree(name: string, stem: string, separator: string, taken: set<string>) {
    name !in taken && (name == stem <==> stem !in taken) && Numbered(name, stem, separator)
  }

  method AllocateInputName(base: string, suffix: string, used: set<string>) returns (name: string, used': set<string>)
    ensures name !in used && used' == used + {name}
    ensures FirstFree(name, base + suffix, "", used)
  {
    name := FreshName(base + suffix, "", used);
    used' := used + {name};
  }

  method UniqueKey(key: string, suffix: string, taken: set<string>) returns (name: string, taken': set<string>)
    ensures name !in taken && taken' == taken + {name}
    ensures key !in taken ==> name == key
    ensures key in taken ==> FirstFree(name, key + "-" + suffix, "-", taken)
  {
    if key !in taken {
      return key, taken + {key};
    }
    name := FreshName(key + "-" + suffix, "-", taken);
    taken' := taken + {name};
  }

  predicate Distinct(names: seq<string>) {
    forall i, j :: 0 <= i < j < |names| ==> names[i] != names[j]
  }

  /** The keys of a whole manifest: no operation overwrites another. */
  method OperationKeys(wanted: seq<(string, string)>) returns (keys: seq<string>)
    ensures |keys| == |wanted| && Distinct(keys)
    ensures forall i :: 0 <= i < |wanted| ==> wanted[i].0 in keys
  {
    keys := [];
    var taken: set<string> := {};
    var i := 0;
    while i < |wanted|
      invariant i <= |wanted| && |keys| == i && Distinct(keys)
      invariant taken == set k | k in keys
      invariant forall j :: 0 <= j < i ==> wanted[j].0 in keys
    {
      var key, taken' := UniqueKey(wanted[i].0, wanted[i].1, taken);
      keys := keys + [key];
      taken := taken';
      i := i + 1;
    }
  }

  // Parameters.

  predicate DistinctIdentities(ps: seq<Parameter>) {
    forall i, j :: 0 <= i < j < |ps| ==> !SameIdentity(ps[i], ps[j])
  }

  /** A declaration that no later one of the same name and location replaces. */
  ghost predicate IsLast(raw: seq<Parameter>, p: Parameter) {
    exists i :: 0 <= i < |raw| && raw[i] == p && forall j :: i < j < |raw| ==> !SameIdentity(raw[j], p)
  }

  ghost predicate Represented(ps: seq<Parameter>, p: Parameter) {
    exists k :: 0 <= k < |ps| && SameIdentity(ps[k], p)
  }

  lemma LastSurvives(raw: seq<Parameter>, p: Parameter, next: Parameter)
    requires IsLast(raw, p) && !SameIdentity(next, p)
    ensures IsLast(raw + [next], p)
  {
    var i :| 0 <= i < |raw| && raw[i] == p && forall j :: i < j < |raw| ==> !SameIdentity(raw[j], p);
    assert (raw + [next])[i] == p;
  }

  lemma NewIsLast(raw: seq<Parameter>, next: Parameter)
    ensures IsLast(raw + [next], next)
  {
    assert (raw + [next])[|raw|] == next;
  }

  /** One parameter per name and location, the last declaration winning in the place of the first. */
  method Dedupe(raw: seq<Parameter>) returns (ps: seq<Parameter>)
    ensures DistinctIdentities(ps)
    ensures forall k :: 0 <= k < |ps| ==> IsLast(raw, ps[k])
    ensures forall i :: 0 <= i < |raw| ==> Represented(ps, raw[i])
  {
    ps := [];
    var i := 0;
    while i < |raw|
      invariant i <= |raw| && DistinctIdentities(ps)
      invariant forall k :: 0 <= k < |ps| ==> IsLast(raw[..i], ps[k])
      invariant forall j :: 0 <= j < i ==> Represented(ps, raw[j])
    {
      var p := raw[i];
      var before := ps;
      assert raw[..i + 1] == raw[..i] + [p];
      var k := 0;
      while k < |ps| && !SameIdentity(ps[k], p)
        invariant k <= |ps| && forall m :: 0 <= m < k ==> !SameIdentity(ps[m], p)
      {
        k := k + 1;
      }
      ps := if k < |ps| then ps[k := p] else ps + [p];
      NewIsLast(raw[..i], p);
      forall m | 0 <= m < |ps| ensures IsLast(raw[..i + 1], ps[m]) {
        if m != k {
          assert ps[m] == before[m];
          LastSurvives(raw[..i], ps[m], p);
        }
      }
      forall j | 0 <= j < i + 1 ensures Represented(ps, raw[j]) {
        if j < i {
          var m :| 0 <= m < |before| && SameIdentity(before[m], raw[j]);
          assert m != k ==> ps[m] == before[m];
        }
        assert ps[k] == p;
      }
      i := i + 1;
    }
    assert raw[..|raw|] == raw;
  }

  /** How many emitted parameters share a base name. */
  function GroupSize(ps: seq<Parameter>, base: string): nat {
    if ps == [] then 0
    else
      var last := ps[|ps| - 1];
      GroupSize(ps[..|ps| - 1], base) + (if Emitted(last) && last.base == base then 1 else 0)
  }

  lemma {:induction false} GroupHasTwo(ps: seq<Parameter>, i: nat, j: nat)
    requires i < j < |ps| && Emitted(ps[i]) && Emitted(ps[j]) && ps[i].base == ps[j].base
    ensures GroupSize(ps, ps[i].base) >= 2
    decreases |ps|
  {
    var front := ps[..|ps| - 1];
    if j < |ps| - 1 {
      GroupHasTwo(front, i, j);
    } else {
      GroupHasOne(front, i);
    }
  }

  lemma {:induction false} GroupHasOne(ps: seq<Parameter>, i: nat)
    requires i < |ps| && Emitted(ps[i])
    ensures GroupSize(ps, ps[i].base) >= 1
    decreases |ps|
  {
    if i < |ps| - 1 {
      GroupHasOne(ps[..|ps| - 1], i);
    }
  }

  /** A name of its own, kept as it stands where nothing else wants it. */
  predicate Keeps(ps: seq<Parameter>, body: set<string>, base: string) {
    GroupSize(ps, base) <= 1 && base !in body
  }

  method GroupSizes(ps: seq<Parameter>) returns (bases: set<string>, sizes: map<string, nat>)
    ensures forall i :: 0 <= i < |ps| && Emitted(ps[i]) ==> ps[i].base in bases
    ensures forall base :: (if base in sizes then sizes[base] else 0) == GroupSize(ps, base)
  {
    bases, sizes := {}, map[];
    var i := 0;
    while i < |ps|
      invariant i <= |ps|
      invariant forall j :: 0 <= j < i && Emitted(ps[j]) ==> ps[j].base in bases
      invariant forall base :: (if base in sizes then sizes[base] else 0) == GroupSize(ps[..i], base)
    {
      assert ps[..i + 1][..i] == ps[..i];
      var p := ps[i];
      if p.base != [] && Located(p) {
        bases := bases + {p.base};
        sizes := sizes[p.base := (if p.base in sizes then sizes[p.base] else 0) + 1];
      }
      i := i + 1;
    }
    assert ps[..|ps|] == ps;
  }

  /** Emitted parameters get pairwise different names, none of them a body property's. */
  predicate NamesApart(ps: seq<Parameter>, names: seq<string>, body: set<string>) {
    && |names| == |ps|
    && (forall i, j :: 0 <= i < j < |ps| && Emitted(ps[i]) && Emitted(ps[j]) ==> names[i] != names[j])
    && (forall i :: 0 <= i < |ps| && Emitted(ps[i]) ==> names[i] !in body)
  }

  /** The names of the first parameters: kept where they may be, else fresh numbered ones. */
  ghost predicate NamedSoFar(ps: seq<Parameter>, names: seq<string>, body: set<string>, reserved: set<string>, used: set<string>) {
    && |names| <= |ps| && reserved <= used
    && forall j :: 0 <= j < |names| ==>
         if Keeps(ps, body, ps[j].base) then names[j] == ps[j].base
         else
           && names[j] in used && names[j] !in reserved
           && Numbered(names[j], ps[j].base + Suffix(ps[j].location), "")
           && forall k :: 0 <= k < j && !Keeps(ps, body, ps[k].base) ==> names[k] != names[j]
  }

  lemma NameOneMore(ps: seq<Parameter>, names: seq<string>, body: set<string>, reserved: set<string>, used: set<string>, name: string)
    requires NamedSoFar(ps, names, body, reserved, used) && |names| < |ps|
    requires var p := ps[|names|];
             if Keeps(ps, body, p.base) then name == p.base
             else name !in used && Numbered(name, p.base + Suffix(p.location), "")
    ensures NamedSoFar(ps, names + [name], body, reserved, used + (if Keeps(ps, body, ps[|names|].base) then {} else {name}))
  {
    hide Numbered, Keeps;
  }

  method GeneratedParameterNames(ps: seq<Parameter>, body: set<string>) returns (names: seq<string>)
    ensures NamesApart(ps, names, body)
    ensures forall i :: 0 <= i < |ps| && Keeps(ps, body, ps[i].base) ==> names[i] == ps[i].base
    ensures forall i :: 0 <= i < |ps| && !Keeps(ps, body, ps[i].base) ==>
      Numbered(names[i], ps[i].base + Suffix(ps[i].location), "")
  {
    var bases, sizes := GroupSizes(ps);
    var used := bases + body;
    names := [];
    var i := 0;
    while i < |ps|
      invariant i == |names| <= |ps| && NamedSoFar(ps, names, body, bases + body, used)
    {
      hide GroupSize, Numbered, NamedSoFar;
      var base := ps[i].base;
      var size := if base in sizes then sizes[base] else 0;
      if size <= 1 && base !in body {
        NameOneMore(ps, names, body, bases + body, used, base);
        assert used + {} == used;
        names := names + [base];
      } else {
        var name, used' := AllocateInputName(base, Suffix(ps[i].location), used);
        FreshIsNumbered(name, base + Suffix(ps[i].location), used);
        NameOneMore(ps, names, body, bases + body, used, name);
        names := names + [name];
        used := used';
      }
      i := i + 1;
    }
    AllNamed(ps, names, body, bases + body, used);
  }

  lemma FreshIsNumbered(name: string, stem: string, taken: set<string>)
    requires FirstFree(name, stem, "", taken)
    ensures Numbered(name, stem, "")
  {
  }

  lemma AllNamed(ps: seq<Parameter>, names: seq<string>, body: set<string>, reserved: set<string>, used: set<string>)
    requires NamedSoFar(ps, names, body, reserved, used) && |names| == |ps| && body <= reserved
    requires forall i :: 0 <= i < |ps| && Emitted(ps[i]) ==> ps[i].base in reserved
    ensures NamesApart(ps, names, body)
    ensures forall i :: 0 <= i < |ps| && Keeps(ps, body, ps[i].base) ==> names[i] == ps[i].base
    ensures forall i :: 0 <= i < |ps| && !Keeps(ps, body, ps[i].base) ==>
      Numbered(names[i], ps[i].base + Suffix(ps[i].location), "")
  {
    hide Numbered, GroupSize;
    forall i, j | 0 <= i < j < |ps| && Emitted(ps[i]) && Emitted(ps[j]) ensures names[i] != names[j] {
      if ps[i].base == ps[j].base {
        GroupHasTwo(ps, i, j);
      }
    }
  }

  // The operation: its properties and everything that refers to them by input name.

  datatype Owner = OfParameter(p: Parameter) | OfBody(name: string)

  datatype Generated = Generated(wire: string, input: string, location: Location)

  datatype Operation = Operation(
    properties: map<string, Owner>,
    query: map<string, string>,
    headers: map<string, string>,
    aliases: map<string, string>,
    parameters: seq<Generated>,
    body: map<string, string>,
    required: set<string>)

  const Blank := Operation(map[], map[], map[], map[], [], map[], {})

  predicate Uses(p: Parameter, l: Location, described: bool) {
    Emitted(p) && p.location == l && (described ==> p.described)
  }

  /** A table holds one entry for each parameter of a location, and it is that parameter's input name. */
  ghost predicate Table(table: map<string, string>, ps: seq<Parameter>, names: seq<string>, l: Location, described: bool)
    requires |names| >= |ps|
  {
    && (forall i :: 0 <= i < |ps| && Uses(ps[i], l, described) ==> ps[i].base in table && table[ps[i].base] == names[i])
    && (forall key :: key in table ==> exists i :: 0 <= i < |ps| && Uses(ps[i], l, described) && ps[i].base == key)
  }

  ghost predicate Properties(properties: map<string, Owner>, ps: seq<Parameter>, names: seq<string>)
    requires |names| >= |ps|
  {
    && (forall i :: 0 <= i < |ps| && Emitted(ps[i]) ==> names[i] in properties && properties[names[i]] == OfParameter(ps[i]))
    && (forall name :: name in properties ==> exists i :: 0 <= i < |ps| && Emitted(ps[i]) && names[i] == name)
  }

  ghost predicate Metadata(gs: seq<Generated>, ps: seq<Parameter>, names: seq<string>)
    requires |names| >= |ps|
  {
    && (forall i :: 0 <= i < |ps| && Emitted(ps[i]) && ps[i].described ==> Generated(ps[i].wire, names[i], ps[i].location) in gs)
    && (forall g :: g in gs ==> exists i :: 0 <= i < |ps| && Emitted(ps[i]) && g == Generated(ps[i].wire, names[i], ps[i].location))
  }

  ghost predicate RequiredByParameters(required: set<string>, ps: seq<Parameter>, names: seq<string>)
    requires |names| >= |ps|
  {
    forall name :: name in required <==>
      exists i :: 0 <= i < |ps| && Emitted(ps[i]) && names[i] == name && (ps[i].required || ps[i].location.Path?)
  }

  lemma TableGrows(table: map<string, string>, ps: seq<Parameter>, n: nat, names: seq<string>, l: Location, described: bool)
    requires n < |ps| <= |names| && DistinctIdentities(ps)
    requires Table(table, ps[..n], names, l, described)
    ensures Table(if Uses(ps[n], l, described) then table[ps[n].base := names[n]] else table, ps[..n + 1], names, l, described)
  {
    hide Uses, DistinctIdentities;
    var p, less, more := ps[n], ps[..n], ps[..n + 1];
    assert more[n] == p;
    var grown := if Uses(p, l, described) then table[p.base := names[n]] else table;
    forall i | 0 <= i < |more| && Uses(more[i], l, described) ensures more[i].base in grown && grown[more[i].base] == names[i] {
      if i < n {
        assert more[i] == less[i];
        if Uses(p, l, described) {
          UsersDiffer(ps, i, n, l, described);
        }
      }
    }
    forall key | key in grown
      ensures exists i :: 0 <= i < |more| && Uses(more[i], l, described) && more[i].base == key
    {
      if key in table {
        var i :| 0 <= i < n && Uses(less[i], l, described) && less[i].base == key;
        assert more[i] == less[i];
      } else {
        assert Uses(more[n], l, described);
      }
    }
  }

  lemma UsersDiffer(ps: seq<Parameter>, i: nat, j: nat, l: Location, described: bool)
    requires DistinctIdentities(ps) && i < j < |ps| && Uses(ps[i], l, described) && Uses(ps[j], l, described)
    ensures ps[i].base != ps[j].base
  {
  }

  lemma PropertiesGrow(properties: map<string, Owner>, ps: seq<Parameter>, n: nat, names: seq<string>, body: set<string>)
    requires n < |ps| && NamesApart(ps, names, body) && Properties(properties, ps[..n], names)
    ensures Properties(if Emitted(ps[n]) then properties[names[n] := OfParameter(ps[n])] else properties, ps[..n + 1], names)
  {
    var p := ps[n];
    var grown := if Emitted(p) then properties[names[n] := OfParameter(p)] else properties;
    forall i | 0 <= i < n + 1 && Emitted(ps[i]) ensures names[i] in grown && grown[names[i]] == OfParameter(ps[i]) {
      if i < n {
        assert ps[i] == ps[..n][i];
      }
    }
    forall name | name in grown ensures exists i :: 0 <= i < n + 1 && Emitted(ps[..n + 1][i]) && names[i] == name {
      if Emitted(p) && name == names[n] {
        assert ps[..n + 1][n] == p;
      } else {
        var i :| 0 <= i < n && Emitted(ps[..n][i]) && names[i] == name;
        assert ps[..n + 1][i] == ps[..n][i];
      }
    }
  }

  lemma MetadataGrows(gs: seq<Generated>, ps: seq<Parameter>, n: nat, names: seq<string>)
    requires n < |ps| <= |names| && Metadata(gs, ps[..n], names)
    ensures Metadata(if Emitted(ps[n]) && ps[n].described then gs + [Generated(ps[n].wire, names[n], ps[n].location)] else gs,
                     ps[..n + 1], names)
  {
    var p := ps[n];
    var grown := if Emitted(p) && p.described then gs + [Generated(p.wire, names[n], p.location)] else gs;
    assert forall i :: 0 <= i < n ==> ps[..n][i] == ps[..n + 1][i];
    forall g | g in grown
      ensures exists i :: 0 <= i < n + 1 && Emitted(ps[..n + 1][i])
                          && g == Generated(ps[..n + 1][i].wire, names[i], ps[..n + 1][i].location)
    {
      if g in gs {
        var i :| 0 <= i < n && Emitted(ps[..n][i]) && g == Generated(ps[..n][i].wire, names[i], ps[..n][i].location);
        assert ps[..n + 1][i] == ps[..n][i];
      } else {
        assert ps[..n + 1][n] == p;
      }
    }
  }

  lemma RequiredGrows(required: set<string>, ps: seq<Parameter>, n: nat, names: seq<string>)
    requires n < |ps| <= |names| && RequiredByParameters(required, ps[..n], names)
    ensures RequiredByParameters(
      if Emitted(ps[n]) && (ps[n].required || ps[n].location.Path?) then required + {names[n]} else required, ps[..n + 1], names)
  {
    var p := ps[n];
    var grown := if Emitted(p) && (p.required || p.location.Path?) then required + {names[n]} else required;
    var more := ps[..n + 1];
    assert more[n] == p && forall i :: 0 <= i < n ==> more[i] == ps[..n][i];
    forall name
      ensures name in grown <==>
        exists i :: 0 <= i < |more| && Emitted(more[i]) && names[i] == name && (more[i].required || more[i].location.Path?)
    {
      if name in required {
        var i :| 0 <= i < n && Emitted(ps[..n][i]) && names[i] == name && (ps[..n][i].required || ps[..n][i].location.Path?);
        assert Emitted(more[i]);
      }
      if i :| 0 <= i < |more| && Emitted(more[i]) && names[i] == name && (more[i].required || more[i].location.Path?) {
        if i < n {
          assert Emitted(ps[..n][i]);
        }
      }
    }
  }

  /** Everything an operation says about its parameters. */
  ghost predicate SpeaksOf(op: Operation, ps: seq<Parameter>, names: seq<string>)
    requires |names| >= |ps|
  {
    && Table(op.query, ps, names, Query, false)
    && Table(op.headers, ps, names, Header, false)
    && Table(op.aliases, ps, names, Path, true)
    && Metadata(op.parameters, ps, names)
  }

  /** What one parameter adds. */
  function Emit(op: Operation, p: Parameter, input: string): Operation {
    op.(properties := if Emitted(p) then op.properties[input := OfParameter(p)] else op.properties,
        query := if Uses(p, Query, false) then op.query[p.base := input] else op.query,
        headers := if Uses(p, Header, false) then op.headers[p.base := input] else op.headers,
        aliases := if Uses(p, Path, true) then op.aliases[p.base := input] else op.aliases,
        parameters := if Emitted(p) && p.described then op.parameters + [Generated(p.wire, input, p.location)] else op.parameters,
        required := if Emitted(p) && (p.required || p.location.Path?) then op.required + {input} else op.required)
  }

  /** What the first `n` parameters have put into the operation. */
  ghost predicate Holds(op: Operation, ps: seq<Parameter>, n: nat, names: seq<string>)
    requires n <= |ps| <= |names|
  {
    && SpeaksOf(op, ps[..n], names) && Properties(op.properties, ps[..n], names)
    && RequiredByParameters(op.required, ps[..n], names) && op.body == map[]
  }

  lemma EmitGrows(op: Operation, ps: seq<Parameter>, i: nat, names: seq<string>, body: set<string>)
    requires i < |ps| == |names| && DistinctIdentities(ps) && NamesApart(ps, names, body) && Holds(op, ps, i, names)
    ensures Holds(Emit(op, ps[i], names[i]), ps, i + 1, names)
  {
    hide Table, Metadata, Properties, RequiredByParameters, DistinctIdentities, NamesApart, Uses, Emitted;
    TableGrows(op.query, ps, i, names, Query, false);
    TableGrows(op.headers, ps, i, names, Header, false);
    TableGrows(op.aliases, ps, i, names, Path, true);
    MetadataGrows(op.parameters, ps, i, names);
    PropertiesGrow(op.properties, ps, i, names, body);
    RequiredGrows(op.required, ps, i, names);
  }

  lemma NothingHeld(ps: seq<Parameter>, names: seq<string>)
    requires |ps| <= |names|
    ensures Holds(Blank, ps, 0, names)
  {
    NothingYet(names);
    assert ps[..0] == [];
  }

  method EmitParameters(ps: seq<Parameter>, names: seq<string>, ghost body: set<string>) returns (op: Operation)
    requires DistinctIdentities(ps) && NamesApart(ps, names, body)
    requires forall i :: 0 <= i < |ps| ==> WellNamed(ps[i])
    ensures SpeaksOf(op, ps, names) && Properties(op.properties, ps, names)
    ensures RequiredByParameters(op.required, ps, names) && op.body == map[]
  {
    assert |names| == |ps|;
    hide DistinctIdentities, NamesApart, Emit, WellNamed, SpeaksOf, Properties, RequiredByParameters, Holds;
    op := Blank;
    NothingHeld(ps, names);
    var i := 0;
    while i < |ps|
      invariant i <= |ps| == |names| && Holds(op, ps, i, names)
    {
      EmitGrows(op, ps, i, names, body);
      op := EmitOne(op, ps[i], names[i]);
      i := i + 1;
    }
    AllHeld(op, ps, names);
  }

  lemma AllHeld(op: Operation, ps: seq<Parameter>, names: seq<string>)
    requires |ps| <= |names| && Holds(op, ps, |ps|, names)
    ensures SpeaksOf(op, ps, names) && Properties(op.properties, ps, names)
    ensures RequiredByParameters(op.required, ps, names) && op.body == map[]
  {
    hide SpeaksOf, Properties, RequiredByParameters;
    assert ps[..|ps|] == ps;
  }

  method EmitOne(before: Operation, p: Parameter, input: string) returns (op: Operation)
    requires WellNamed(p)
    ensures op == Emit(before, p, input)
  {
    op := before;
    if p.wire != [] && Located(p) {
      op := op.(properties := op.properties[input := OfParameter(p)]);
      if p.required || p.location.Path? {
        op := op.(required := op.required + {input});
      }
      if p.location.Query? {
        op := op.(query := op.query[p.wire := input]);
      }
      if p.location.Header? {
        op := op.(headers := op.headers[p.base := input]);
      }
      if p.described {
        op := op.(parameters := op.parameters + [Generated(p.wire, input, p.location)]);
        if p.location.Path? {
          op := op.(aliases := op.aliases[p.wire := input]);
        }
      }
    }
  }

  lemma NothingYet(names: seq<string>)
    ensures SpeaksOf(Blank, [], names) && Properties(Blank.properties, [], names)
    ensures RequiredByParameters(Blank.required, [], names)
  {
  }

  // The request body.

  /** The body's properties stand beside the parameters', each with one reference to it. */
  ghost predicate BodyBuilt(op: Operation, before: Operation, props: seq<string>) {
    && (forall key :: key in op.body <==> key in props)
    && (forall key :: key in op.body ==> op.body[key] in op.properties && op.properties[op.body[key]] == OfBody(key))
    && (forall name :: name in before.properties ==> name in op.properties && op.properties[name] == before.properties[name])
    && (forall name :: name in op.properties && name !in before.properties ==>
          op.properties[name].OfBody? && op.properties[name].name in op.body && op.body[op.properties[name].name] == name)
    && (forall key :: key in op.body ==> op.body[key] !in before.properties)
    && op == before.(properties := op.properties, body := op.body)
  }

  /** A body property keeps its own name unless a parameter or an earlier body input has it; then it is the name
      with the suffix Body. */
  ghost predicate InputsNamed(inputs: seq<string>, props: seq<string>, taken: set<string>) {
    |inputs| <= |props|
    && forall i :: 0 <= i < |inputs| ==>
         && (inputs[i] == props[i] <==> props[i] !in taken && props[i] !in inputs[..i])
         && (inputs[i] != props[i] ==> Numbered(inputs[i], props[i] + "Body", ""))
  }

  lemma InputOneMore(inputs: seq<string>, props: seq<string>, taken: set<string>, used: set<string>, input: string)
    requires InputsNamed(inputs, props, taken) && |inputs| < |props| && used == taken + set x | x in inputs
    requires input == props[|inputs|] <==> props[|inputs|] !in used
    requires input != props[|inputs|] ==> Numbered(input, props[|inputs|] + "Body", "")
    ensures InputsNamed(inputs + [input], props, taken) && used + {input} == taken + set x | x in inputs + [input]
  {
    hide Numbered;
    var more := inputs + [input];
    forall i | 0 <= i < |more|
      ensures (more[i] == props[i] <==> props[i] !in taken && props[i] !in more[..i])
              && (more[i] != props[i] ==> Numbered(more[i], props[i] + "Body", ""))
    {
      assert more[..i] == inputs[..i];
      assert inputs[..|inputs|] == inputs;
    }
  }

  /** The body inputs in the order of their properties. */
  ghost predicate InputsOf(op: Operation, props: seq<string>, inputs: seq<string>) {
    |inputs| <= |props| && forall i :: 0 <= i < |inputs| ==> props[i] in op.body && op.body[props[i]] == inputs[i]
  }

  method BuildBody(before: Operation, props: seq<string>, wireNames: set<string>)
      returns (op: Operation, ghost inputs: seq<string>)
    requires Distinct(props) && before.body == map[]
    ensures BodyBuilt(op, before, props)
    ensures |inputs| == |props| && InputsOf(op, props, inputs)
    ensures InputsNamed(inputs, props, before.properties.Keys + wireNames)
  {
    hide BodyBuilt, InputsNamed, InputsOf, Distinct, BodySoFar;
    op, inputs := before, [];
    var used := before.properties.Keys + wireNames;
    NoBodyYet(before, props, wireNames);
    var i := 0;
    while i < |props|
      invariant i == |inputs| <= |props| && BodySoFar(op, before, props, inputs, wireNames, used)
    {
      hide FirstFree, Numbered;
      var name := props[i];
      var input := name;
      ghost var before_used := used;
      SoFarTaken(op, before, props, inputs, wireNames, used);
      if name in wireNames || name in used {
        input, used := AllocateInputName(name, "Body", used);
        FreshIsNumbered(input, name + "Body", before_used);
        FreshIsOther(input, name, before_used);
      } else {
        used := used + {input};
      }
      BodyStep(op, before, props, inputs, wireNames, before_used, input);
      op := op.(properties := op.properties[input := OfBody(name)], body := op.body[name := input]);
      inputs := inputs + [input];
      i := i + 1;
    }
    BodyDone(op, before, props, inputs, wireNames, used);
  }

  /** The loop's state: what has been built, and all the names that are taken. */
  ghost predicate BodySoFar(op: Operation, before: Operation, props: seq<string>, inputs: seq<string>, wireNames: set<string>, used: set<string>) {
    && |inputs| <= |props| && BodyBuilt(op, before, props[..|inputs|]) && InputsOf(op, props, inputs)
    && InputsNamed(inputs, props, before.properties.Keys + wireNames)
    && used == before.properties.Keys + wireNames + (set x | x in inputs)
    && op.properties.Keys <= used && wireNames <= used
  }

  lemma NoBodyYet(before: Operation, props: seq<string>, wireNames: set<string>)
    requires before.body == map[]
    ensures BodySoFar(before, before, props, [], wireNames, before.properties.Keys + wireNames)
  {
    var none: seq<string> := [];
    assert (set x | x in none) == {} && props[..0] == [];
  }

  lemma FreshIsOther(input: string, name: string, taken: set<string>)
    requires name in taken && input !in taken
    ensures input != name
  {
  }

  lemma BodyStep(op: Operation, before: Operation, props: seq<string>, inputs: seq<string>, wireNames: set<string>, used: set<string>, input: string)
    requires Distinct(props) && |inputs| < |props| && BodySoFar(op, before, props, inputs, wireNames, used)
    requires input !in used
    requires input == props[|inputs|] <==> props[|inputs|] !in wireNames && props[|inputs|] !in used
    requires input != props[|inputs|] ==> Numbered(input, props[|inputs|] + "Body", "")
    ensures var name := props[|inputs|];
            var op' := op.(properties := op.properties[input := OfBody(name)], body := op.body[name := input]);
            BodySoFar(op', before, props, inputs + [input], wireNames, used + {input})
  {
    hide Numbered, BodyBuilt, InputsNamed, InputsOf;
    var name := props[|inputs|];
    assert props[..|inputs| + 1] == props[..|inputs|] + [name];
    NotYet(op, before, props, |inputs|);
    InputOneMore(inputs, props, before.properties.Keys + wireNames, used, input);
    BodyGrows(op, before, props[..|inputs|], name, input);
    InputsGrow(op, props, inputs, name, input);
  }

  lemma BodyDone(op: Operation, before: Operation, props: seq<string>, inputs: seq<string>, wireNames: set<string>, used: set<string>)
    requires BodySoFar(op, before, props, inputs, wireNames, used) && |inputs| == |props|
    ensures BodyBuilt(op, before, props) && InputsOf(op, props, inputs)
    ensures InputsNamed(inputs, props, before.properties.Keys + wireNames)
  {
    assert props[..|props|] == props;
  }

  lemma SoFarTaken(op: Operation, before: Operation, props: seq<string>, inputs: seq<string>, wireNames: set<string>, used: set<string>)
    requires BodySoFar(op, before, props, inputs, wireNames, used)
    ensures wireNames <= used
  {
  }

  lemma NotYet(op: Operation, before: Operation, props: seq<string>, i: nat)
    requires Distinct(props) && i < |props| && BodyBuilt(op, before, props[..i])
    ensures props[i] !in op.body
  {
  }

  lemma InputsGrow(op: Operation, props: seq<string>, inputs: seq<string>, name: string, input: string)
    requires InputsOf(op, props, inputs) && |inputs| < |props| && name == props[|inputs|] && name !in op.body
    ensures InputsOf(op.(properties := op.properties[input := OfBody(name)], body := op.body[name := input]), props, inputs + [input])
  {
  }

  lemma BodyGrows(op: Operation, before: Operation, props: seq<string>, name: string, input: string)
    requires BodyBuilt(op, before, props) && input !in op.properties && name !in op.body
    ensures BodyBuilt(op.(properties := op.properties[input := OfBody(name)], body := op.body[name := input]), before, props + [name])
  {
  }

  /** What a required body property is called: its input name, or its own where the body does not declare it. */
  function RequiredName(body: map<string, string>, name: string): string {
    if name in body then body[name] else name
  }

  method RequireBody(op: Operation, wanted: seq<string>) returns (required: set<string>)
    ensures required == op.required + set name | name in wanted :: RequiredName(op.body, name)
  {
    required := op.required;
    var i := 0;
    while i < |wanted|
      invariant i <= |wanted|
      invariant required == op.required + set name | name in wanted[..i] :: RequiredName(op.body, name)
    {
      assert wanted[..i + 1] == wanted[..i] + [wanted[i]];
      required := required + {RequiredName(op.body, wanted[i])};
      i := i + 1;
    }
    assert wanted[..|wanted|] == wanted;
  }

  /** A body may demand a property that it does not declare; that name then binds whatever input carries it. */
  predicate Stray(name: string, props: seq<string>, wanted: seq<string>) { name in wanted && name !in props }

  /**
   * A whole operation: each emitted parameter and each body property owns one input name, every
   * reference goes to the property it is about, and an input is required exactly when its own
   * declaration says so or a stray demand of the body happens to carry its name.
   */
  method BuildOperation(raw: seq<Parameter>, props: seq<string>, wanted: seq<string>)
      returns (op: Operation, ps: seq<Parameter>, names: seq<string>, ghost inputs: seq<string>)
    requires Distinct(props)
    requires forall i :: 0 <= i < |raw| ==> WellNamed(raw[i])
    ensures DistinctIdentities(ps) && forall i :: 0 <= i < |ps| ==> IsLast(raw, ps[i])
    ensures forall i :: 0 <= i < |raw| ==> Represented(ps, raw[i])
    ensures |names| == |ps|
    ensures forall i :: 0 <= i < |ps| && Keeps(ps, (set name | name in props), ps[i].base) ==> names[i] == ps[i].base
    ensures NamesApart(ps, names, set name | name in props) && SpeaksOf(op, ps, names)
    ensures forall i :: 0 <= i < |ps| && Emitted(ps[i]) ==>
      names[i] in op.properties && op.properties[names[i]] == OfParameter(ps[i])
    ensures forall key :: key in op.body <==> key in props
    ensures forall key :: key in op.body ==> op.body[key] in op.properties && op.properties[op.body[key]] == OfBody(key)
    ensures forall i :: 0 <= i < |ps| && !Keeps(ps, (set name | name in props), ps[i].base) ==>
      Numbered(names[i], ps[i].base + Suffix(ps[i].location), "")
    ensures |inputs| == |props| && InputsOf(op, props, inputs)
    ensures InputsNamed(inputs, props, (set i | 0 <= i < |ps| && Emitted(ps[i]) :: names[i]) + set i | 0 <= i < |ps| && Emitted(ps[i]) :: ps[i].base)
    ensures forall i :: 0 <= i < |ps| && Emitted(ps[i]) ==>
      (names[i] in op.required <==> ps[i].required || ps[i].location.Path? || Stray(names[i], props, wanted))
    ensures forall key :: key in op.body ==>
      (op.body[key] in op.required <==> key in wanted || Stray(op.body[key], props, wanted))
  {
    ps := Dedupe(raw);
    forall i | 0 <= i < |ps| ensures WellNamed(ps[i]) {
      assert IsLast(raw, ps[i]);
    }
    var body := set name | name in props;
    names := GeneratedParameterNames(ps, body);
    var before := EmitParameters(ps, names, body);
    var wireNames := set i | 0 <= i < |ps| && Emitted(ps[i]) :: ps[i].base;
    PropertyNames(before.properties, ps, names);
    op, inputs := BuildBody(before, props, wireNames);
    var required := RequireBody(op, wanted);
    RequiredExactly(before, op, ps, names, props, wanted);
    op := op.(required := required);
  }

  lemma PropertyNames(properties: map<string, Owner>, ps: seq<Parameter>, names: seq<string>)
    requires |names| == |ps| && Properties(properties, ps, names)
    ensures properties.Keys == set i | 0 <= i < |ps| && Emitted(ps[i]) :: names[i]
  {
    forall name | name in properties ensures name in set i | 0 <= i < |ps| && Emitted(ps[i]) :: names[i] {
      var i :| 0 <= i < |ps| && Emitted(ps[i]) && names[i] == name;
    }
  }

  lemma RequiredExactly(before: Operation, op: Operation, ps: seq<Parameter>, names: seq<string>, props: seq<string>, wanted: seq<string>)
    requires NamesApart(ps, names, set name | name in props) && Properties(before.properties, ps, names)
    requires RequiredByParameters(before.required, ps, names) && BodyBuilt(op, before, props)
    ensures var required := op.required + set name | name in wanted :: RequiredName(op.body, name);
      && (forall i :: 0 <= i < |ps| && Emitted(ps[i]) ==>
           (names[i] in required <==> ps[i].required || ps[i].location.Path? || Stray(names[i], props, wanted)))
      && (forall key :: key in op.body ==>
           (op.body[key] in required <==> key in wanted || Stray(op.body[key], props, wanted)))
  {
    var asked := set name | name in wanted :: RequiredName(op.body, name);
    forall i | 0 <= i < |ps| && Emitted(ps[i])
      ensures (names[i] in op.required + asked <==> ps[i].required || ps[i].location.Path? || Stray(names[i], props, wanted))
    {
      AskedParameter(before, op, ps, names, props, wanted, i);
      if names[i] in before.required {
        var j :| 0 <= j < |ps| && Emitted(ps[j]) && names[j] == names[i] && (ps[j].required || ps[j].location.Path?);
        assert i == j;
      }
    }
    forall key | key in op.body
      ensures (op.body[key] in op.required + asked <==> key in wanted || Stray(op.body[key], props, wanted))
    {
      AskedBody(before, op, props, wanted, key);
      if op.body[key] in before.required {
        assert false;
      }
    }
  }

  lemma AskedParameter(before: Operation, op: Operation, ps: seq<Parameter>, names: seq<string>, props: seq<string>, wanted: seq<string>, i: nat)
    requires |names| == |ps| && Properties(before.properties, ps, names) && BodyBuilt(op, before, props)
    requires i < |ps| && Emitted(ps[i])
    ensures names[i] in (set name | name in wanted :: RequiredName(op.body, name)) <==> Stray(names[i], props, wanted)
  {
    assert names[i] in before.properties;
    if Stray(names[i], props, wanted) {
      assert RequiredName(op.body, names[i]) == names[i];
    }
  }

  /** A body input answers to its own property, or to a stray demand for that very name. */
  lemma AskedBody(before: Operation, op: Operation, props: seq<string>, wanted: seq<string>, key: string)
    requires BodyBuilt(op, before, props) && key in op.body
    ensures op.body[key] in (set name | name in wanted :: RequiredName(op.body, name)) <==>
            key in wanted || Stray(op.body[key], props, wanted)
  {
    var asked := set name | name in wanted :: RequiredName(op.body, name);
    if key in wanted {
      assert RequiredName(op.body, key) in asked;
    }
    if Stray(op.body[key], props, wanted) {
      assert RequiredName(op.body, op.body[key]) in asked;
    }
    if op.body[key] in asked {
      var name :| name in wanted && RequiredName(op.body, name) == op.body[key];
      if name in op.body {
        assert op.properties[op.body[name]] == OfBody(name) && op.properties[op.body[key]] == OfBody(key);
      }
    }
  }

  lemma Alike(ps: seq<Parameter>, p: Parameter)
    requires |ps| >= 2 && forall i :: 0 <= i < |ps| ==> ps[i] == p
    ensures SameIdentity(ps[0], ps[1])
  {
  }

  lemma OnlyOne(ps: seq<Parameter>, p: Parameter)
    requires DistinctIdentities(ps) && forall i :: 0 <= i < |ps| ==> ps[i] == p
    ensures |ps| <= 1
  {
    if |ps| >= 2 {
      Alike(ps, p);
    }
  }

  /** The gap is real: a stray demand makes an optional query parameter required. */
  method StrayDemandBindsParameter() returns (op: Operation, ps: seq<Parameter>, names: seq<string>)
    ensures exists i :: 0 <= i < |ps| && !ps[i].required && ps[i].location.Query?
                        && |names| == |ps| && names[i] in op.required
  {
    var limit := Parameter("limit", "limit", Query, false, true);
    ghost var inputs;
    op, ps, names, inputs := BuildOperation([limit], ["note"], ["limit"]);
    assert Represented(ps, [limit][0]);
    assert IsLast([limit], ps[0]) && ps[0] == limit;
    assert forall i :: 0 <= i < |ps| ==> IsLast([limit], ps[i]) && ps[i] == limit;
    OnlyOne(ps, limit);
    assert ps[..0] == [];
    assert GroupSize(ps, "limit") == GroupSize(ps[..0], "limit") + 1;
    assert names[0] == "limit";
  }
}
