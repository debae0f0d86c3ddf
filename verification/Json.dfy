/** JSON values as the parser holds them: integers keep their 64-bit form, every other number is a finite binary64. */
module JsonValues {
  import opened Floats

  type U64 = n: nat | n < TwoTo64
  type NegI64 = n: int | 0 - TwoTo63 <= n < 0 witness -1
  type Finite = b: Bits | IsFinite(b)

  datatype Number = Unsigned(u: U64) | Negative(i: NegI64) | Float(f: Finite)

  datatype Json =
    | Null
    | Bool(b: bool)
    | Num(n: Number)
    | Text(s: string)
    | Array(items: seq<Json>)
    | Object(fields: map<string, Json>)

  /** The number itself, whichever way it is held. */
  function NumberValue(n: Number): real {
    match n case Unsigned(u) => u as real case Negative(i) => i as real case Float(f) => Value(f)
  }
}
