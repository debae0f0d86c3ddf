/** Exact comparison of JSON numbers: integers against binary64 floats, without rounding either. */
module MixedCompare {
  import opened Wrappers
  import opened Floats
  import opened JsonValues

  datatype Order = Less | Equal | Greater

  function Reverse(o: Order): Order {
    match o case Less => Greater case Equal => Equal case Greater => Less
  }

  function IntOrder(a: int, b: int): Order {
    if a < b then Less else if a == b then Equal else Greater
  }

  /** The mathematical order. */
  function TrueOrder(a: real, b: real): Order {
    if a < b then Less else if a == b then Equal else Greater
  }

  type U128 = n: nat | n < TwoTo128
  type I128 = n: int | 0 - TwoTo127 <= n < TwoTo127

  function UnsignedAbs(n: I128): U128 {
    if n < 0 then 0 - n as int else n
  }

  /** A 128-bit left shift: undefined from 128 on, and dropping what it shifts out. */
  function ShiftLeft(n: U128, shift: nat): U128
    requires shift < 128
  {
    n * Pow2(shift) % TwoTo128
  }

  lemma ShiftIsExact(n: nat, shift: nat)
    requires n > 0 && BitLength(n) + shift <= 128
    ensures shift < 128 && n < TwoTo128 && n * Pow2(shift) < TwoTo128
  {
    hide Pow2, BitLength;
    TwoTos();
    BitLengthBounds(n);
    Pow2Mono(BitLength(n), 128);
    BitLengthShift(n, shift);
    MulMono(1, n, Pow2(shift));
    var m := n * Pow2(shift);
    BitLengthBounds(m);
    Pow2Mono(BitLength(m), 128);
  }

  lemma LengthAtMost128(n: U128)
    ensures BitLength(n) <= 128
  {
    hide Pow2, BitLength;
    TwoTos();
    BitLengthAtMost(n, 128);
  }

  lemma SignificandLength(b: Bits)
    ensures Significand(b) < TwoTo64 && BitLength(Significand(b)) <= 53
  {
    hide Pow2, BitLength;
    TwoTos();
    BitLengthAtMost(Significand(b), 53);
  }

  function CompareUnsignedFloat(integer: U128, float: Bits): Order {
    if integer == 0 then Less
    else
      var significand, shift := Significand(float), Scale(float);
      var integerBits, significandBits := BitLength(integer), BitLength(significand);
      LengthAtMost128(integer);
      SignificandLength(float);
      if shift >= 0 then
        var order := IntOrder(integerBits, significandBits + shift);
        if order == Equal then
          HiddenBit(float);
          ShiftIsExact(significand, shift);
          IntOrder(integer, ShiftLeft(significand, shift))
        else order
      else
        var order := IntOrder(integerBits + -shift, significandBits);
        if order == Equal then
          ShiftIsExact(integer, -shift);
          IntOrder(ShiftLeft(integer, -shift), significand)
        else order
  }

  lemma HiddenBit(b: Bits)
    requires Scale(b) >= 0
    ensures Significand(b) > 0
  {
  }

  function CompareIntegerFloat(integer: I128, float: Bits): Option<Order> {
    if !IsFinite(float) then None
    else if IsZero(float) then Some(IntOrder(integer, 0))
    else if (integer < 0) != IsNegative(float) then Some(if integer < 0 then Less else Greater)
    else
      var magnitude := CompareUnsignedFloat(UnsignedAbs(integer), Abs(float));
      Some(if integer < 0 then Reverse(magnitude) else magnitude)
  }

  lemma OrderByLength(m: nat, n: nat)
    requires BitLength(m) != BitLength(n)
    ensures IntOrder(BitLength(m), BitLength(n)) == IntOrder(m, n)
  {
    hide BitLength;
    if BitLength(m) < BitLength(n) { BitLengthOrders(m, n); } else { BitLengthOrders(n, m); }
  }

  lemma IntOrderIsTrue(m: int, n: int)
    ensures IntOrder(m, n) == TrueOrder(m as real, n as real)
  {
  }

  /** Scaling a comparison by a positive integer. */
  lemma ScaledOrder(m: nat, p: nat, n: nat)
    requires p > 0
    ensures TrueOrder((m * p) as real, n as real) == TrueOrder(m as real, n as real / p as real)
  {
    var x, y, q := m as real, n as real, p as real;
    assert (m * p) as real == x * q;
    assert (y / q) * q == y;
    if x < y / q {
      assert (y / q - x) * q > 0.0;
    } else if y / q < x {
      assert (x - y / q) * q > 0.0;
    }
  }

  /** Comparing a positive integer with a positive float by bit lengths, then by one lossless shift, is exact. */
  lemma UnsignedIsExact(integer: U128, float: Bits)
    requires integer > 0 && Significand(float) > 0
    ensures CompareUnsignedFloat(integer, float) == TrueOrder(integer as real, Magnitude(float))
  {
    hide Pow2, BitLength, Significand, Scale;
    var s, shift := Significand(float), Scale(float);
    LengthAtMost128(integer);
    SignificandLength(float);
    if shift >= 0 {
      var m := s * Pow2(shift);
      BitLengthShift(s, shift);
      IntOrderIsTrue(integer, m);
      if BitLength(integer) == BitLength(m) {
        ShiftIsExact(s, shift);
      } else {
        OrderByLength(integer, m);
      }
    } else {
      var k := -shift;
      var m := integer * Pow2(k);
      BitLengthShift(integer, k);
      IntOrderIsTrue(m, s);
      ScaledOrder(integer, Pow2(k), s);
      if BitLength(m) == BitLength(s) {
        ShiftIsExact(integer, k);
      } else {
        OrderByLength(m, s);
      }
    }
  }

  /** The mixed comparison is the mathematical order, for every integer and every finite float. */
  lemma MixedIsExact(integer: I128, float: Bits)
    requires IsFinite(float)
    ensures CompareIntegerFloat(integer, float) == Some(TrueOrder(integer as real, Value(float)))
  {
    hide Significand, Magnitude, CompareUnsignedFloat;
    AbsParts(float);
    MagnitudeSign(float);
    if !IsZero(float) && (integer < 0) == IsNegative(float) {
      AbsParts(Abs(float));
      assert Significand(Abs(float)) > 0;
      if integer == 0 {
        assert CompareUnsignedFloat(0, Abs(float)) == Less by { ZeroIsLess(Abs(float)); }
      } else {
        UnsignedIsExact(UnsignedAbs(integer), Abs(float));
      }
    }
  }

  lemma ZeroIsLess(float: Bits)
    ensures CompareUnsignedFloat(0, float) == Less
  {
  }

  datatype Numeric = IntegerOf(i: I128) | FloatOf(f: Bits)

  function NumericOf(v: Json): Option<Numeric> {
    match v
    case Num(Unsigned(u)) => Some(IntegerOf(u))
    case Num(Negative(i)) => Some(IntegerOf(i))
    case Num(Float(f)) => if IsFinite(f) then Some(FloatOf(f)) else None
    case _ => None
  }

  function CompareValues(a: Json, b: Json): Option<Order> {
    var x, y := NumericOf(a), NumericOf(b);
    if x.None? || y.None? then None
    else match (x.value, y.value)
      case (IntegerOf(i), IntegerOf(j)) => Some(IntOrder(i, j))
      case (FloatOf(f), FloatOf(g)) => Some(TrueOrder(Value(f), Value(g)))
      case (IntegerOf(i), FloatOf(g)) => CompareIntegerFloat(i, g)
      case (FloatOf(f), IntegerOf(j)) =>
        var o := CompareIntegerFloat(j, f);
        if o.None? then None else Some(Reverse(o.value))
  }

  predicate Same(a: Json, b: Json) {
    match (a, b)
    case (Num(_), Num(_)) => CompareValues(a, b) == Some(Equal)
    case (Array(x), Array(y)) => |x| == |y| && forall i :: 0 <= i < |x| ==> Same(x[i], y[i])
    case (Object(x), Object(y)) => |x| == |y| && forall k :: k in x ==> k in y && Same(x[k], y[k])
    case _ => a == b
  }

  /** What a JSON value means: numbers are real numbers, whichever way they are held. */
  datatype Meaning =
    | MNull
    | MBool(b: bool)
    | MNum(x: real)
    | MText(s: string)
    | MArray(items: seq<Meaning>)
    | MObject(fields: map<string, Meaning>)

  function Means(v: Json): Meaning {
    match v
    case Null => MNull
    case Bool(b) => MBool(b)
    case Num(n) => MNum(NumberValue(n))
    case Text(s) => MText(s)
    case Array(items) => MArray(seq(|items|, i requires 0 <= i < |items| => Means(items[i])))
    case Object(fields) => MObject(map k | k in fields :: Means(fields[k]))
  }

  /** Every pair of numbers is comparable, and the answer is the order of the numbers themselves. */
  lemma CompareIsTrueOrder(a: Json, b: Json)
    ensures a.Num? && b.Num? ==> CompareValues(a, b) == Some(TrueOrder(NumberValue(a.n), NumberValue(b.n)))
    ensures !(a.Num? && b.Num?) ==> CompareValues(a, b) == None
  {
    hide Value, CompareIntegerFloat;
    if a.Num? && b.Num? {
      var x, y := NumericOf(a).value, NumericOf(b).value;
      if x.IntegerOf? && y.FloatOf? {
        MixedIsExact(x.i, y.f);
      } else if x.FloatOf? && y.IntegerOf? {
        MixedIsExact(y.i, x.f);
      }
    }
  }

  /** Equality of values is exactly equality of meaning. */
  lemma {:induction false} SameIffMeans(a: Json, b: Json)
    ensures Same(a, b) <==> Means(a) == Means(b)
  {
    hide NumberValue, CompareValues;
    match (a, b)
    case (Num(_), Num(_)) => CompareIsTrueOrder(a, b);
    case (Array(x), Array(y)) =>
      forall i | 0 <= i < |x| && i < |y| ensures Same(x[i], y[i]) <==> Means(x[i]) == Means(y[i]) {
        SameIffMeans(x[i], y[i]);
      }
      if Means(a) == Means(b) {
        assert forall i :: 0 <= i < |x| ==> Means(x[i]) == Means(a).items[i] == Means(b).items[i];
      }
    case (Object(x), Object(y)) =>
      forall k | k in x && k in y ensures Same(x[k], y[k]) <==> Means(x[k]) == Means(y[k]) {
        SameIffMeans(x[k], y[k]);
      }
      SameObjects(x, y);
    case _ =>
  }

  lemma SameObjects(x: map<string, Json>, y: map<string, Json>)
    requires forall k :: k in x && k in y ==> (Same(x[k], y[k]) <==> Means(x[k]) == Means(y[k]))
    ensures Same(Object(x), Object(y)) <==> Means(Object(x)) == Means(Object(y))
  {
    var mx, my := Means(Object(x)).fields, Means(Object(y)).fields;
    assert mx == map k | k in x :: Means(x[k]);
    assert my == map k | k in y :: Means(y[k]);
    assert Same(Object(x), Object(y)) <==> |x| == |y| && forall k :: k in x ==> k in y && Same(x[k], y[k]);
    assert Means(Object(x)) == Means(Object(y)) <==> mx == my;
    hide Means, Same;
    if mx == my {
      SameIfMeans(x, y, mx, my);
    }
    if |x| == |y| && forall k :: k in x ==> k in y && Same(x[k], y[k]) {
      MeansIfSame(x, y, mx, my);
    }
  }

  lemma SameIfMeans(x: map<string, Json>, y: map<string, Json>, mx: map<string, Meaning>, my: map<string, Meaning>)
    requires forall k :: k in x && k in y ==> (Same(x[k], y[k]) <==> Means(x[k]) == Means(y[k]))
    requires mx == (map k | k in x :: Means(x[k])) && my == (map k | k in y :: Means(y[k])) && mx == my
    ensures |x| == |y| && forall k :: k in x ==> k in y && Same(x[k], y[k])
  {
    hide Means, Same;
    assert mx.Keys == x.Keys && my.Keys == y.Keys;
    assert |x| == |x.Keys| && |y| == |y.Keys|;
    forall k | k in x ensures k in y && Same(x[k], y[k]) {
      assert mx[k] == Means(x[k]) && my[k] == Means(y[k]);
    }
  }

  lemma MeansIfSame(x: map<string, Json>, y: map<string, Json>, mx: map<string, Meaning>, my: map<string, Meaning>)
    requires forall k :: k in x && k in y ==> (Same(x[k], y[k]) <==> Means(x[k]) == Means(y[k]))
    requires mx == (map k | k in x :: Means(x[k])) && my == (map k | k in y :: Means(y[k]))
    requires |x| == |y| && forall k :: k in x ==> k in y && Same(x[k], y[k])
    ensures mx == my
  {
    hide Means, Same;
    assert |x| == |x.Keys| && |y| == |y.Keys|;
    SubsetOfSameSize(x.Keys, y.Keys);
    assert mx.Keys == x.Keys && my.Keys == y.Keys;
  }

  lemma SubsetOfSameSize<T>(s: set<T>, t: set<T>)
    requires s <= t && |s| == |t|
    ensures s == t
  {
    assert |t - s| == |t| - |s|;
  }

  /** So equality is reflexive, symmetric and transitive however deeply integers and floats are mixed. */
  lemma SameIsEquivalence(a: Json, b: Json, c: Json)
    ensures Same(a, a)
    ensures Same(a, b) ==> Same(b, a)
    ensures Same(a, b) && Same(b, c) ==> Same(a, c)
  {
    SameIffMeans(a, a);
    SameIffMeans(a, b);
    SameIffMeans(b, a);
    SameIffMeans(b, c);
    SameIffMeans(a, c);
  }

  /** The ordering assertions follow suit: greater one way is less the other, and equal swaps freely. */
  lemma CompareRespectsSame(a: Json, b: Json, c: Json)
    requires a.Num? && b.Num? && Same(a, b)
    ensures CompareValues(a, c) == CompareValues(b, c)
    ensures CompareValues(c, a) == CompareValues(c, b)
  {
    SameIffMeans(a, b);
    CompareIsTrueOrder(a, c);
    CompareIsTrueOrder(b, c);
    CompareIsTrueOrder(c, a);
    CompareIsTrueOrder(c, b);
  }
}
