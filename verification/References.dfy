/** Reference resolution over an OpenAPI document: JSON pointers, reference chains and merged schemas. */
module References {
  import opened Texts

  datatype Value =
    | Undefined
    | Atom(tag: nat)
    | Str(s: string)
    | List(items: seq<Value>)
    | Record(fields: map<string, Value>)

  function Field(v: Value, key: string): Value {
    if v.Record? && key in v.fields then v.fields[key] else Undefined
  }

  predicate IsRef(v: Value) { Field(v, "$ref").Str? }

  function RefOf(v: Value): string
    requires IsRef(v)
  {
    Field(v, "$ref").s
  }

  // Pointers, as section 4 of RFC 6901 reads them.

  function ReplacePair(s: string, second: char, c: char): string {
    if s == [] then []
    else if |s| >= 2 && s[0] == '~' && s[1] == second then [c] + ReplacePair(s[2..], second, c)
    else [s[0]] + ReplacePair(s[1..], second, c)
  }

  function Unescape(segment: string): string {
    ReplacePair(ReplacePair(segment, '1', '/'), '0', '~')
  }

  function Walk(v: Value, keys: seq<string>): Value
    decreases |keys|
  {
    if keys == [] then v
    else if !v.Record? then Undefined
    else Walk(Field(v, keys[0]), keys[1..])
  }

  function Unescaped(segments: seq<string>): seq<string> {
    seq(|segments|, i requires 0 <= i < |segments| => Unescape(segments[i]))
  }

  function Deref(spec: Value, pointer: string): Value {
    if |pointer| < 2 || pointer[..2] != "#/" then Undefined
    else Walk(spec, Unescaped(Split(pointer[2..], '/')))
  }

  method DerefPointer(spec: Value, pointer: string) returns (current: Value)
    ensures current == Deref(spec, pointer)
  {
    if |pointer| < 2 || pointer[..2] != "#/" { return Undefined; }
    current := spec;
    var segments := Split(pointer[2..], '/');
    ghost var keys := Unescaped(segments);
    var i := 0;
    while i < |segments|
      invariant i <= |segments| && Walk(spec, keys) == Walk(current, keys[i..])
    {
      if !current.Record? { return Undefined; }
      assert keys[i..][1..] == keys[i + 1..];
      current := Field(current, Unescape(segments[i]));
      i := i + 1;
    }
  }

  /** The pointer to a place: each key escaped, joined by slashes. */
  function Escape(key: string): string {
    if key == [] then []
    else (if key[0] == '~' then "~0" else if key[0] == '/' then "~1" else [key[0]]) + Escape(key[1..])
  }

  function HalfEscape(key: string): string {
    if key == [] then [] else (if key[0] == '~' then "~0" else [key[0]]) + HalfEscape(key[1..])
  }

  lemma {:induction false} SlashesBack(key: string)
    ensures ReplacePair(Escape(key), '1', '/') == HalfEscape(key)
  {
    if key != [] {
      SlashesBack(key[1..]);
      var e, rest := Escape(key), Escape(key[1..]);
      if key[0] == '~' {
        assert e[1..] == "0" + rest && e[1..][1..] == rest;
        assert ReplacePair(e[1..], '1', '/') == "0" + ReplacePair(rest, '1', '/');
        assert ReplacePair(e, '1', '/') == "~" + ReplacePair(e[1..], '1', '/');
      } else if key[0] == '/' {
        assert e[2..] == rest;
      } else {
        assert e[1..] == rest;
      }
    }
  }

  lemma {:induction false} TildesBack(key: string)
    ensures ReplacePair(HalfEscape(key), '0', '~') == key
  {
    if key != [] {
      TildesBack(key[1..]);
      var e, rest := HalfEscape(key), HalfEscape(key[1..]);
      assert key == [key[0]] + key[1..];
      if key[0] == '~' {
        assert e[2..] == rest;
      } else {
        assert e[1..] == rest;
      }
    }
  }

  /** The order of the two replacements matters, and it is the right one. */
  lemma UnescapeEscape(key: string)
    ensures Unescape(Escape(key)) == key
  {
    SlashesBack(key);
    TildesBack(key);
  }

  lemma {:induction false} EscapeHasNoSlash(key: string)
    ensures '/' !in Escape(key)
  {
    if key != [] {
      EscapeHasNoSlash(key[1..]);
    }
  }

  function Escaped(keys: seq<string>): seq<string> {
    seq(|keys|, i requires 0 <= i < |keys| => Escape(keys[i]))
  }

  /** Every place in the document is found by its pointer, whatever characters its keys hold. */
  lemma PointerRoundTrip(spec: Value, keys: seq<string>)
    requires keys != []
    ensures Deref(spec, "#/" + Join(Escaped(keys), '/')) == Walk(spec, keys)
  {
    hide Walk, Join, Split, Escape, Unescape;
    var joined := Join(Escaped(keys), '/');
    var pointer := "#/" + joined;
    assert pointer[..2] == "#/" && pointer[2..] == joined;
    forall i | 0 <= i < |keys| ensures '/' !in Escaped(keys)[i] {
      EscapeHasNoSlash(keys[i]);
    }
    SplitJoin(Escaped(keys), '/');
    forall i | 0 <= i < |keys| ensures Unescape(Escaped(keys)[i]) == keys[i] {
      UnescapeEscape(keys[i]);
    }
    assert Unescaped(Escaped(keys)) == keys;
  }

  /** A document with a value placed at a path, whatever stood on the way. */
  function Put(doc: Value, keys: seq<string>, v: Value): Value
    decreases |keys|
  {
    if keys == [] then v
    else Record((if doc.Record? then doc.fields else map[])[keys[0] := Put(Field(doc, keys[0]), keys[1..], v)])
  }

  lemma {:induction false} PutIsFound(doc: Value, keys: seq<string>, v: Value)
    ensures Walk(Put(doc, keys, v), keys) == v
    decreases |keys|
  {
    if keys != [] {
      PutIsFound(Field(doc, keys[0]), keys[1..], v);
    }
  }

  /** A value placed in a document is what the pointer to its place yields. */
  lemma PlacedIsFound(doc: Value, keys: seq<string>, v: Value)
    requires keys != []
    ensures Deref(Put(doc, keys, v), "#/" + Join(Escaped(keys), '/')) == v
  {
    PointerRoundTrip(Put(doc, keys, v), keys);
    PutIsFound(doc, keys, v);
  }

  /** One key further leads to that field of a record, and nowhere from anything else. */
  lemma {:induction false} WalkOn(v: Value, keys: seq<string>, key: string)
    ensures Walk(v, keys + [key]) ==
            (var at := Walk(v, keys); if at.Record? && key in at.fields then at.fields[key] else Undefined)
    decreases |keys|
  {
    var longer := keys + [key];
    if keys == [] {
      assert longer == [key] && longer[1..] == [];
    } else {
      assert longer[1..] == keys[1..] + [key];
      if v.Record? {
        WalkOn(Field(v, keys[0]), keys[1..], key);
      }
    }
  }

  /** Only pointers into this document lead anywhere. */
  lemma ForeignPointer(spec: Value, pointer: string)
    requires |pointer| < 2 || pointer[0] != '#' || pointer[1] != '/'
    ensures Deref(spec, pointer) == Undefined
  {
  }

  // The references a value holds: finitely many, and a target holds none that the document does not.

  function RefsIn(v: Value): set<string> {
    (if IsRef(v) then {RefOf(v)} else {}) +
    (match v
     case List(items) => set i, r | 0 <= i < |items| && r in RefsIn(items[i]) :: r
     case Record(fields) => set k, r | k in fields && r in RefsIn(fields[k]) :: r
     case _ => {})
  }

  lemma {:induction false} WalkHoldsNoMore(v: Value, keys: seq<string>)
    ensures RefsIn(Walk(v, keys)) <= RefsIn(v)
    decreases |keys|
  {
    if keys != [] && v.Record? {
      WalkHoldsNoMore(Field(v, keys[0]), keys[1..]);
    }
  }

  lemma DerefHoldsNoMore(spec: Value, pointer: string)
    ensures RefsIn(Deref(spec, pointer)) <= RefsIn(spec)
  {
    hide Walk, RefsIn, Split;
    if |pointer| >= 2 && pointer[..2] == "#/" {
      WalkHoldsNoMore(spec, Unescaped(Split(pointer[2..], '/')));
    } else {
      UndefinedHoldsNone();
    }
  }

  lemma UndefinedHoldsNone()
    ensures RefsIn(Undefined) == {}
  {
  }

  lemma Shrinks(all: set<string>, seen: set<string>, r: string)
    requires r in all && r !in seen
    ensures |all - (seen + {r})| < |all - seen|
  {
    assert all - seen == (all - (seen + {r})) + {r};
  }

  lemma NoLarger(all: set<string>, seen: set<string>, more: set<string>)
    requires seen <= more
    ensures |all - more| <= |all - seen|
  {
    assert all - seen == (all - more) + ((all - seen) * more);
  }

  // Following a chain of references.

  function Follow(spec: Value, v: Value): Value {
    if IsRef(v) then Deref(spec, RefOf(v)) else v
  }

  function Chain(spec: Value, v: Value, n: nat): Value {
    if n == 0 then v else Follow(spec, Chain(spec, v, n - 1))
  }

  ghost predicate Reaches(spec: Value, v: Value, n: nat) { !IsRef(Chain(spec, v, n)) }

  ghost predicate At(spec: Value, v: Value, i: nat, r: string) {
    IsRef(Chain(spec, v, i)) && RefOf(Chain(spec, v, i)) == r
  }

  /** Every reference seen was met before step `n`. */
  ghost predicate Met(spec: Value, v: Value, n: nat, seen: set<string>) {
    forall r :: r in seen ==> exists i :: 0 <= i < n && At(spec, v, i, r)
  }

  lemma {:induction false} ChainStays(spec: Value, v: Value, m: nat, n: nat)
    requires m <= n && Reaches(spec, v, m)
    ensures Chain(spec, v, n) == Chain(spec, v, m)
    decreases n
  {
    if m < n {
      ChainStays(spec, v, m, n - 1);
    }
  }

  /** After a repeated reference the chain repeats itself. */
  lemma {:induction false} ChainCycles(spec: Value, v: Value, i: nat, j: nat, t: nat)
    requires i < j && IsRef(Chain(spec, v, i)) && IsRef(Chain(spec, v, j)) && RefOf(Chain(spec, v, i)) == RefOf(Chain(spec, v, j))
    ensures Chain(spec, v, i + 1 + t) == Chain(spec, v, j + 1 + t)
    decreases t
  {
    hide Deref, IsRef, RefOf;
    if t > 0 {
      ChainCycles(spec, v, i, j, t - 1);
    }
  }

  /** So it never comes to an end. */
  lemma {:induction false} CycleIsEndless(spec: Value, v: Value, i: nat, j: nat, n: nat)
    requires i < j && IsRef(Chain(spec, v, j)) && IsRef(Chain(spec, v, i)) && RefOf(Chain(spec, v, i)) == RefOf(Chain(spec, v, j))
    ensures !Reaches(spec, v, n)
    decreases n
  {
    hide Deref, IsRef, RefOf, Chain;
    if Reaches(spec, v, n) {
      if n <= j {
        ChainStays(spec, v, n, j);
      } else {
        ChainCycles(spec, v, i, j, n - j - 1);
        CycleIsEndless(spec, v, i, j, n - (j - i));
      }
    }
  }

  lemma NoneMet(spec: Value, v: Value)
    ensures Met(spec, v, 0, {})
  {
  }

  lemma UndefinedIsNoRef()
    ensures !IsRef(Undefined)
  {
  }

  lemma OwnRef(v: Value)
    requires IsRef(v)
    ensures RefOf(v) in RefsIn(v)
  {
  }

  lemma MetTwice(spec: Value, v: Value, n: nat, seen: set<string>)
    requires Met(spec, v, n, seen) && IsRef(Chain(spec, v, n)) && RefOf(Chain(spec, v, n)) in seen
    ensures forall m :: !Reaches(spec, v, m)
  {
    hide Chain, IsRef, RefOf, Reaches;
    var i :| 0 <= i < n && At(spec, v, i, RefOf(Chain(spec, v, n)));
    forall m: nat ensures !Reaches(spec, v, m) {
      CycleIsEndless(spec, v, i, n, m);
    }
  }

  /**
   * Resolving a reference ends on every document, cyclic or not. It yields the end of the chain when
   * there is one, and nothing when the chain runs in a circle; never another reference.
   */
  method ResolveRef(spec: Value, value: Value) returns (current: Value)
    ensures !IsRef(current)
    ensures forall n :: Reaches(spec, value, n) ==> current == Chain(spec, value, n)
    ensures (forall n :: !Reaches(spec, value, n)) ==> current == Undefined
  {
    hide Deref, RefsIn, Met, Field;
    current := value;
    var seen: set<string> := {};
    ghost var all := RefsIn(spec) + RefsIn(value);
    ghost var n := 0;
    NoneMet(spec, value);
    while IsRef(current)
      invariant current == Chain(spec, value, n) && Met(spec, value, n, seen) && RefsIn(current) <= all
      decreases |all - seen|
    {
      var reference := RefOf(current);
      if reference in seen {
        MetTwice(spec, value, n, seen);
        UndefinedIsNoRef();
        return Undefined;
      }
      OwnRef(current);
      DerefHoldsNoMore(spec, reference);
      Shrinks(all, seen, reference);
      MetGrows(spec, value, n, seen);
      seen := seen + {reference};
      current := Deref(spec, reference);
      n := n + 1;
    }
    assert Reaches(spec, value, n);
    forall m: nat | Reaches(spec, value, m) ensures current == Chain(spec, value, m) {
      if m <= n { ChainStays(spec, value, m, n); } else { ChainStays(spec, value, n, m); }
    }
  }

  lemma MetGrows(spec: Value, v: Value, n: nat, seen: set<string>)
    requires Met(spec, v, n, seen) && IsRef(Chain(spec, v, n))
    ensures Met(spec, v, n + 1, seen + {RefOf(Chain(spec, v, n))})
  {
    hide At;
    var next := RefOf(Chain(spec, v, n));
    assert At(spec, v, n, next) by { AtItself(spec, v, n); }
  }

  lemma AtItself(spec: Value, v: Value, n: nat)
    requires IsRef(Chain(spec, v, n))
    ensures At(spec, v, n, RefOf(Chain(spec, v, n)))
  {
  }
}
