/** Finding, splitting and joining text at a separator. */
module Texts {
  /** The position of the first `c`, or the length. */
  function Find(s: string, c: char): (i: nat)
    ensures i <= |s| && (i < |s| ==> s[i] == c)
    ensures forall j :: 0 <= j < i ==> s[j] != c
  {
    if s == [] || s[0] == c then 0 else 1 + Find(s[1..], c)
  }

  lemma FindIs(s: string, c: char, i: nat)
    requires i <= |s| && (i < |s| ==> s[i] == c)
    requires forall j :: 0 <= j < i ==> s[j] != c
    ensures Find(s, c) == i
  {
  }

  function Split(s: string, c: char): (parts: seq<string>)
    ensures parts != []
    decreases |s|
  {
    var i := Find(s, c);
    if i == |s| then [s] else [s[..i]] + Split(s[i + 1..], c)
  }

  function Join(parts: seq<string>, c: char): string
    requires parts != []
  {
    if |parts| == 1 then parts[0] else parts[0] + [c] + Join(parts[1..], c)
  }

  /** Parts that do not hold the separator come back as they were. */
  lemma {:induction false} SplitJoin(parts: seq<string>, c: char)
    requires parts != [] && forall i :: 0 <= i < |parts| ==> c !in parts[i]
    ensures Split(Join(parts, c), c) == parts
    decreases |parts|
  {
    hide Find;
    var head := parts[0];
    if |parts| == 1 {
      FindIs(head, c, |head|);
    } else {
      var rest := Join(parts[1..], c);
      var text := head + [c] + rest;
      assert forall j :: 0 <= j < |head| ==> text[j] == head[j];
      FindIs(text, c, |head|);
      assert text[..|head|] == head && text[|head| + 1..] == rest;
      SplitJoin(parts[1..], c);
    }
  }
}
