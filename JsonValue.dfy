/**
 * The JSON value: seven variants, with `undefined` standing for "not part of any
 * document" as in JavaScript. Numbers are modelled as integers (see README).
 * Also the type tags, `typeOf`/`instanceOf`, and the initializers and literals.
 */
module JsonValue {
  import opened Wrappers

  datatype Json =
    | Undefined
    | Null
    | Boolean(b: bool)
    | Number(n: int)
    | String(s: string)
    | Array(elements: seq<Json>)
    | Object(fields: map<string, Json>)

  /** The type tag of a value; its raw value is the name JavaScript's `typeof` would print. */
  datatype JsonType =
    | UndefinedType
    | NullType
    | BooleanType
    | NumberType
    | StringType
    | ArrayType
    | ObjectType
  {
    function RawValue(): string {
      match this
      case UndefinedType => "undefined"
      case NullType => "null"
      case BooleanType => "boolean"
      case NumberType => "number"
      case StringType => "string"
      case ArrayType => "array"
      case ObjectType => "object"
    }
  }

  /** `typeOf`: the tag whose raw name names the value's variant; arrays are not objects. */
  function TypeOf(j: Json): (t: JsonType)
    ensures t.RawValue() == "undefined" <==> j.Undefined?
    ensures t.RawValue() == "null" <==> j.Null?
    ensures t.RawValue() == "boolean" <==> j.Boolean?
    ensures t.RawValue() == "number" <==> j.Number?
    ensures t.RawValue() == "string" <==> j.String?
    ensures t.RawValue() == "array" <==> j.Array?
    ensures t.RawValue() == "object" <==> j.Object?
  {
    match j
    case Undefined => UndefinedType
    case Null => NullType
    case Boolean(_) => BooleanType
    case Number(_) => NumberType
    case String(_) => StringType
    case Array(_) => ArrayType
    case Object(_) => ObjectType
  }

  /** Distinct tags have distinct raw names, so the raw name identifies the tag. */
  lemma RawValueInjective(t: JsonType, u: JsonType)
    ensures t.RawValue() == u.RawValue() <==> t == u
  {
  }

  /** Two values share a tag exactly when they are built by the same variant. */
  lemma TypeOfIsVariant(a: Json, b: Json)
    ensures TypeOf(a) == TypeOf(b) <==>
      (a.Undefined? && b.Undefined?) || (a.Null? && b.Null?) || (a.Boolean? && b.Boolean?) ||
      (a.Number? && b.Number?) || (a.String? && b.String?) || (a.Array? && b.Array?) ||
      (a.Object? && b.Object?)
  {
  }

  /** `JSON.instanceOf(_:type:)`: a JSON boolean saying whether the tag matches. */
  function InstanceOf(j: Json, t: JsonType): (r: Json)
    ensures r.Boolean?
    ensures r.b <==> TypeOf(j) == t
  {
    FromBool(TypeOf(j) == t)
  }

  /** Every value is an instance of exactly one type. */
  lemma InstanceOfExactlyOne(j: Json, t: JsonType)
    ensures InstanceOf(j, t).b <==> t == TypeOf(j)
    ensures exists u :: InstanceOf(j, u).b
  {
    assert InstanceOf(j, TypeOf(j)).b;
  }

  const True: Json := Boolean(true)
  const False: Json := Boolean(false)

  /** `JSON(value: Bool)`: picks the shared `true` or `false` value. */
  function FromBool(value: bool): (r: Json)
    ensures r == Boolean(value)
  {
    if value then True else False
  }

  /** A Swift value one of the non-optional initializers accepts. */
  datatype Payload =
    | BoolPayload(b: bool)
    | NumberPayload(n: int)
    | StringPayload(s: string)
    | ArrayPayload(elements: seq<Json>)
    | ObjectPayload(fields: map<string, Json>)

  /** `JSON(value:)` for a non-optional `Bool`, `Int`/`Double`, `String`, `[JSON]` or `[String: JSON]`. */
  function FromPayload(p: Payload): (r: Json)
    ensures r != Undefined && r != Null
  {
    match p
    case BoolPayload(b) => FromBool(b)
    case NumberPayload(n) => Number(n)
    case StringPayload(s) => String(s)
    case ArrayPayload(a) => Array(a)
    case ObjectPayload(m) => Object(m)
  }

  /** `JSON(value: T?)`: `nil` becomes `undefined`, anything else is wrapped. */
  function FromValue(v: Option<Payload>): (r: Json)
    ensures r == Undefined <==> v.None?
    ensures v.Some? ==> r == FromPayload(v.value)
  {
    match v
    case None => Undefined
    case Some(p) => FromPayload(p)
  }

  /** `JSON(optionalValue: T?)`: `nil` becomes `null`, anything else is wrapped. */
  function FromOptionalValue(v: Option<Payload>): (r: Json)
    ensures r == Null <==> v.None?
    ensures v.Some? ==> r == FromPayload(v.value)
  {
    match v
    case None => Null
    case Some(p) => FromPayload(p)
  }

  /** The two optional initializers agree on every present value and differ on `nil`. */
  lemma OptionalInitializers(v: Option<Payload>)
    ensures FromValue(v) == FromOptionalValue(v) <==> v.Some?
  {
  }

  /** Every non-optional initializer is injective: distinct payloads give distinct values. */
  lemma FromPayloadInjective(p: Payload, q: Payload)
    ensures FromPayload(p) == FromPayload(q) <==> p == q
  {
  }

  /**
   * The dictionary literal `[k1: v1, k2: v2, ...]`: each pair is stored in turn, so a
   * key given twice keeps its last value.
   */
  method ObjectLiteral(elements: seq<(string, Json)>) returns (j: Json)
    ensures j.Object?
    ensures forall key :: key in j.fields <==> exists i :: 0 <= i < |elements| && elements[i].0 == key
    ensures forall i :: 0 <= i < |elements| && IsLastFor(elements, i) ==>
      j.fields[elements[i].0] == elements[i].1
  {
    var fields: map<string, Json> := map[];
    for n := 0 to |elements|
      invariant LiteralStored(elements, n, fields)
    {
      var (key, value) := elements[n];
      ghost var before := fields;
      fields := fields[key := value];
      LiteralStep(elements, n, before);
    }
    assert elements[..|elements|] == elements;
    j := Object(fields);
  }

  /** After the first `n` pairs, `fields` holds exactly their keys, each with its last value so far. */
  ghost predicate LiteralStored(elements: seq<(string, Json)>, n: int, fields: map<string, Json>)
    requires 0 <= n <= |elements|
  {
    && (forall key :: key in fields <==> exists i :: 0 <= i < n && elements[i].0 == key)
    && (forall i :: 0 <= i < n && IsLastFor(elements[..n], i) ==> fields[elements[i].0] == elements[i].1)
  }

  /** Storing pair `n` extends what the first `n` pairs stored to the first `n + 1`. */
  lemma LiteralStep(elements: seq<(string, Json)>, n: int, before: map<string, Json>)
    requires 0 <= n < |elements| && LiteralStored(elements, n, before)
    ensures LiteralStored(elements, n + 1, before[elements[n].0 := elements[n].1])
  {
    var key := elements[n].0;
    var fields := before[key := elements[n].1];
    forall k
      ensures k in fields <==> exists i :: 0 <= i < n + 1 && elements[i].0 == k
    {
      if k == key {
        assert elements[n].0 == k;
      } else {
        assert k in fields <==> k in before;
      }
    }
    forall i | 0 <= i < n + 1 && IsLastFor(elements[..n + 1], i)
      ensures fields[elements[i].0] == elements[i].1
    {
      if i < n {
        assert elements[..n + 1][n] == elements[n];
        assert elements[i].0 != key;
        assert IsLastFor(elements[..n], i) by {
          forall k | i < k < n
            ensures elements[..n][k].0 != elements[..n][i].0
          {
            assert elements[..n + 1][k] == elements[..n][k];
          }
        }
      }
    }
  }

  /** No later pair of `elements` repeats the key of pair `i`. */
  predicate IsLastFor(elements: seq<(string, Json)>, i: int)
    requires 0 <= i < |elements|
  {
    forall k :: i < k < |elements| ==> elements[k].0 != elements[i].0
  }
}
