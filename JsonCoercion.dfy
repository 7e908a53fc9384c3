/**
 * JavaScript-style coercions of a JSON value to a boolean, a number and a string,
 * and the loose (`==`) and strict (`===`) equalities built on them.
 */
module JsonCoercion {
  import opened Wrappers
  import opened Text
  import opened JsonValue

  /** `truthy`: `undefined`, `null`, `false`, zero and the empty string are falsy. */
  predicate IsTruthy(j: Json)
    ensures !IsTruthy(j) <==> j in {Undefined, Null, Boolean(false), Number(0), String("")}
  {
    match j
    case Undefined => false
    case Null => false
    case Boolean(b) => b
    case Number(n) => n != 0
    case String(s) => s != ""
    case Array(_) => true
    case Object(_) => true
  }

  /** `JSON.toBoolean`: the truthiness as a JSON boolean. */
  function ToBoolean(j: Json): (r: Json)
    ensures r.Boolean?
  {
    FromBool(IsTruthy(j))
  }

  /**
   * `doubleValue`: `nil` where JavaScript would produce NaN. A string is read with
   * the integer grammar; an array is 0 when empty, its only element's value when it
   * has one, and `nil` otherwise.
   */
  function DoubleValue(j: Json): (r: Option<int>)
    ensures j.Undefined? || j.Object? ==> r.None?
    ensures j.Null? || j == String("") || j == Array([]) ==> r == Some(0)
    ensures j.Boolean? ==> r == Some(if j.b then 1 else 0)
    ensures j.Number? ==> r == Some(j.n)
    ensures j.String? && j.s != "" ==> r == ParseSigned(j.s)
    ensures j.Array? && |j.elements| == 1 ==> r == DoubleValue(j.elements[0])
    ensures j.Array? && |j.elements| > 1 ==> r.None?
  {
    match j
    case Undefined => None
    case Null => Some(0)
    case Boolean(b) => Some(if b then 1 else 0)
    case Number(n) => Some(n)
    case String(s) => if s == "" then Some(0) else ParseSigned(s)
    case Array(a) =>
      if |a| == 0 then Some(0)
      else if |a| == 1 then DoubleValue(a[0])
      else None
    case Object(_) => None
  }

  /** `JSON.toNumber`: a JSON number, or `undefined` where there is no numeric value. */
  function ToNumber(j: Json): (r: Json)
    ensures r.Number? || r.Undefined?
    ensures r.Undefined? <==> DoubleValue(j).None?
    ensures r.Number? ==> DoubleValue(j) == Some(r.n)
  {
    match DoubleValue(j)
    case Some(n) => Number(n)
    case None => Undefined
  }

  /**
   * `stringValue`: the keyword names, the decimal text of a number, the string itself,
   * an array's elements joined with commas, and "[object Object]" for any object.
   */
  function StringValue(j: Json): (s: string)
    ensures j.String? ==> s == j.s
    ensures j.Number? ==> ParseSigned(s) == Some(j.n)
    ensures j.Boolean? ==> s == (if j.b then "true" else "false")
    ensures j.Undefined? ==> s == "undefined"
    ensures j.Null? ==> s == "null"
    ensures j.Object? ==> s == "[object Object]"
    ensures j.Array? ==> s == Join(StringValues(j.elements), ",")
    ensures j.Array? && j.elements == [] ==> s == ""
    ensures j.Array? && |j.elements| == 1 ==> s == StringValue(j.elements[0])
  {
    match j
    case Undefined => "undefined"
    case Null => "null"
    case Boolean(b) => if b then "true" else "false"
    case Number(n) => ParseFormatInt(n); FormatInt(n)
    case String(s) => s
    case Array(a) => Join(StringValues(a), ",")
    case Object(_) => "[object Object]"
  }

  /** The string values of a list of elements, in order. */
  function StringValues(a: seq<Json>): (r: seq<string>)
    ensures |r| == |a|
    ensures forall i :: 0 <= i < |a| ==> r[i] == StringValue(a[i])
  {
    if a == [] then [] else [StringValue(a[0])] + StringValues(a[1..])
  }

  /** `JSON.toString`: the string value as a JSON string. */
  function ToString(j: Json): (r: Json)
    ensures r.String?
  {
    String(StringValue(j))
  }

  /** Each coercion is idempotent and keeps the information it coerces to. */
  lemma CoercionsIdempotent(j: Json)
    ensures IsTruthy(ToBoolean(j)) == IsTruthy(j)
    ensures ToBoolean(ToBoolean(j)) == ToBoolean(j)
    ensures DoubleValue(ToNumber(j)) == DoubleValue(j)
    ensures ToNumber(ToNumber(j)) == ToNumber(j)
    ensures StringValue(ToString(j)) == StringValue(j)
    ensures ToString(ToString(j)) == ToString(j)
  {
  }

  /** A number written as a string reads back as the same number. */
  lemma NumberStringRoundTrip(n: int)
    ensures DoubleValue(ToString(Number(n))) == Some(n)
    ensures ToNumber(ToString(Number(n))) == Number(n)
  {
    ParseFormatInt(n);
    FormatIntShape(n);
  }

  /** Wrapping a value in a one-element array changes neither its number nor its string. */
  lemma SingletonArrayCoercions(x: Json)
    ensures DoubleValue(Array([x])) == DoubleValue(x)
    ensures StringValue(Array([x])) == StringValue(x)
  {
  }

  /** For the non-text scalars, truthiness is exactly "the numeric value is not zero". */
  lemma TruthyIffNonZero(j: Json)
    requires j.Null? || j.Boolean? || j.Number?
    ensures IsTruthy(j) <==> DoubleValue(j) != Some(0)
  {
  }

  /** Strings are the exception: "0" is truthy although its numeric value is zero. */
  lemma ZeroStringIsTruthy()
    ensures IsTruthy(String("0")) && DoubleValue(String("0")) == Some(0)
  {
    assert DigitsValue("0") == DigitsValue("0"[..0]) * 10 + DigitValue('0');
  }

  /** Numeric values from the coercion table: "20" is 20, while "twenty" and [10, 20] have none. */
  lemma DoubleValueExamples()
    ensures DoubleValue(String("20")) == Some(20)
    ensures DoubleValue(String("twenty")) == None
    ensures DoubleValue(Array([Number(10), Number(20)])) == None
  {
    assert DigitsValue("20") == DigitsValue("2") * 10 + DigitValue('0');
    assert !IsDigit('t');
  }

  /** String values from the coercion table: [10, 20] reads "10,20", any object "[object Object]". */
  lemma StringValueExamples()
    ensures StringValue(Array([Number(10), Number(20)])) == "10,20"
    ensures StringValue(Object(map[])) == "[object Object]"
  {
    assert FormatNat(10) == FormatNat(1) + ['0'];
    assert FormatNat(20) == FormatNat(2) + ['0'];
    assert StringValues([Number(10), Number(20)]) == [FormatNat(10), FormatNat(20)];
  }

  /** An array of two or more elements reads as its first element's string, a comma, then the rest's. */
  lemma {:induction false} ArrayStringJoinsWithCommas(a: seq<Json>)
    requires |a| >= 2
    ensures StringValue(Array(a)) == StringValue(a[0]) + "," + StringValue(Array(a[1..]))
  {
    assert StringValues(a)[1..] == StringValues(a[1..]);
  }

  /** `isStrictlyEqual` / `strictlyEqual`: structural equality, JavaScript's `===`. */
  predicate StrictlyEqual(a: Json, b: Json)
    ensures StrictlyEqual(a, b) ==> TypeOf(a) == TypeOf(b)
    ensures StrictlyEqual(a, b) ==>
      IsTruthy(a) == IsTruthy(b) && DoubleValue(a) == DoubleValue(b) && StringValue(a) == StringValue(b)
  {
    a == b
  }

  predicate IsContainer(j: Json) {
    j.Array? || j.Object?
  }

  predicate IsNullPair(a: Json, b: Json) {
    (a.Null? && b.Undefined?) || (a.Undefined? && b.Null?)
  }

  /**
   * Whether `LooselyEqual(a, b)` answers by calling itself with the operands swapped:
   * the steps that hand a boolean, a number or a container to the left.
   */
  predicate Swapped(a: Json, b: Json) {
    TypeOf(a) != TypeOf(b) && !IsNullPair(a, b) && !a.Boolean? &&
    (b.Boolean? || (a.String? && b.Number?) || (!IsContainer(a) && IsContainer(b)))
  }

  /** The coercion rank used for termination: each coercing step lowers it. */
  function Rank(j: Json): nat {
    match j
    case Undefined => 0
    case Null => 0
    case Number(_) => 1
    case String(_) => 2
    case Boolean(_) => 3
    case Array(_) => 3
    case Object(_) => 3
  }

  /**
   * `isLooselyEqual(to:)` / `looselyEqual`, JavaScript's `==`: same types compare
   * strictly, `null` and `undefined` equal each other, booleans become numbers,
   * a string facing a number becomes a number, and an array or object facing a
   * number or a string becomes one.
   */
  function LooselyEqual(a: Json, b: Json): (r: bool)
    ensures TypeOf(a) == TypeOf(b) ==> (r <==> a == b)
    ensures IsNullPair(a, b) ==> r
    ensures a.Boolean? && !b.Boolean? ==> r == LooselyEqual(Number(if a.b then 1 else 0), b)
    decreases 2 * (Rank(a) + Rank(b)) + (if Swapped(a, b) then 1 else 0)
  {
    if TypeOf(a) == TypeOf(b) then StrictlyEqual(a, b)
    else if IsNullPair(a, b) then true
    else if a.Boolean? then LooselyEqual(ToNumber(a), b)
    else if b.Boolean? then LooselyEqual(b, a)
    else if a.Number? && b.String? then LooselyEqual(a, ToNumber(b))
    else if a.String? && b.Number? then LooselyEqual(b, a)
    else if IsContainer(a) then
      if b.Number? then LooselyEqual(ToNumber(a), b)
      else if b.String? then LooselyEqual(ToString(a), b)
      else false
    else if IsContainer(b) then LooselyEqual(b, a)
    else false
  }

  /** Strict equality implies loose equality, and the two agree on values of one type. */
  lemma StrictImpliesLoose(a: Json, b: Json)
    ensures StrictlyEqual(a, b) ==> LooselyEqual(a, b)
    ensures TypeOf(a) == TypeOf(b) ==> (LooselyEqual(a, b) <==> StrictlyEqual(a, b))
  {
  }

  /** A number against a string: equal exactly when the string reads as that number. */
  lemma NumberVersusString(n: int, s: string)
    ensures LooselyEqual(Number(n), String(s)) <==> DoubleValue(String(s)) == Some(n)
  {
  }

  /** A boolean against a non-boolean compares as 1 or 0. */
  lemma BooleanAsNumber(x: bool, b: Json)
    requires !b.Boolean?
    ensures LooselyEqual(Boolean(x), b) == LooselyEqual(Number(if x then 1 else 0), b)
  {
  }

  /** A container against a number or a string compares through its coerced value. */
  lemma ContainerVersusScalar(c: Json, n: int, s: string)
    requires IsContainer(c)
    ensures LooselyEqual(c, Number(n)) <==> DoubleValue(c) == Some(n)
    ensures LooselyEqual(c, String(s)) <==> StringValue(c) == s
  {
  }

  /** `null` and `undefined` are loosely equal to each other and to nothing else. */
  lemma {:induction false} NullishEquality(a: Json, b: Json)
    requires a.Null? || a.Undefined?
    ensures LooselyEqual(a, b) <==> b.Null? || b.Undefined?
  {
    if b.Boolean? {
      assert LooselyEqual(a, b) == LooselyEqual(b, a) == LooselyEqual(ToNumber(b), a);
    } else if IsContainer(b) {
      assert LooselyEqual(a, b) == LooselyEqual(b, a);
    }
  }

  /** Loose equality is symmetric. */
  lemma {:induction false} LooselyEqualSymmetric(a: Json, b: Json)
    ensures LooselyEqual(a, b) == LooselyEqual(b, a)
  {
    if Swapped(a, b) {
    } else if Swapped(b, a) {
    }
  }
}
