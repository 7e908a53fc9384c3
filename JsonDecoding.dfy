/**
 * `JSON.Decoder`: reading typed values back out of a JSON tree. A keyed container
 * reads an object by key, an unkeyed container reads an array with a cursor that
 * moves forward on each read, and a single-value container coerces one value to a
 * boolean, a string or a number.
 *
 * Swift's `Decodable` dispatch is replaced by the primitive kind asked for; a
 * composite type reads its fields through the containers below.
 */
module JsonDecoding {
  import opened Wrappers
  import opened Text
  import opened JsonValue
  import opened JsonCoercion
  import opened JsonProperties
  import Enc = JsonEncoding

  datatype DecodeError =
    | DecodingNaN
    | UnexpectedConversion
    | SuperclassStructureConflict

  /** The primitive type asked for: `Bool`, `String`, or any integer or floating-point width. */
  datatype Kind = BoolKind | StringKind | NumberKind

  datatype Decoded =
    | DecodedBool(b: bool)
    | DecodedString(s: string)
    | DecodedNumber(n: int)

  // ----- single-value container -----

  /** `decodeNil()`: only `null` is nil; a missing value (`undefined`) is not. */
  predicate DecodesNil(j: Json) {
    j.Null?
  }

  /** `decodeNumber()`: the numeric value, or `decodingNaN` where there is none. */
  function DecodeNumber(j: Json): (r: Result<int, DecodeError>)
    ensures r.Success? <==> DoubleValue(j).Some?
    ensures r.Success? ==> r.value == DoubleValue(j).value
    ensures r.Failure? ==> r.error == DecodingNaN
  {
    match DoubleValue(j)
    case Some(n) => Success(n)
    case None => Failure(DecodingNaN)
  }

  /** `decode(_:)` for a primitive kind: booleans by truthiness, strings by string value, numbers through `decodeNumber()`. */
  function DecodeValue(j: Json, kind: Kind): (r: Result<Decoded, DecodeError>)
    ensures kind == BoolKind ==> r == Success(DecodedBool(IsTruthy(j)))
    ensures kind == StringKind ==> r == Success(DecodedString(StringValue(j)))
    ensures kind == NumberKind ==>
      (r.Success? <==> DoubleValue(j).Some?) &&
      (r.Success? ==> r.value == DecodedNumber(DoubleValue(j).value)) &&
      (r.Failure? ==> r.error == DecodingNaN)
  {
    match kind
    case BoolKind => Success(DecodedBool(IsTruthy(j)))
    case StringKind => Success(DecodedString(StringValue(j)))
    case NumberKind =>
      match DecodeNumber(j)
      case Success(n) => Success(DecodedNumber(n))
      case Failure(e) => Failure(e)
  }

  /** The kind a primitive of the encoder is read back as. */
  function KindOf(p: Enc.Primitive): Kind {
    if p.BoolPrimitive? then BoolKind
    else if p.StringPrimitive? then StringKind
    else NumberKind
  }

  /** The decoded value that carries the same payload as a primitive of the encoder. */
  function DecodedOf(p: Enc.Primitive): Decoded {
    if p.BoolPrimitive? then DecodedBool(p.b)
    else if p.StringPrimitive? then DecodedString(p.s)
    else DecodedNumber(p.n)
  }

  /** Decoding what the single-value encoder stored for a primitive gives the primitive back. */
  lemma PrimitiveRoundTrip(p: Enc.Primitive)
    ensures DecodeValue(Enc.EncodePrimitive(p), KindOf(p)) == Success(DecodedOf(p))
  {
  }

  /** `null` is nil and decodes as `false` and 0; `undefined` is not nil and has no numeric value. */
  lemma NullAndUndefined()
    ensures DecodesNil(Null) && !DecodesNil(Undefined)
    ensures DecodeValue(Null, BoolKind) == Success(DecodedBool(false))
    ensures DecodeValue(Null, NumberKind) == Success(DecodedNumber(0))
    ensures DecodeValue(Undefined, NumberKind) == Failure(DecodingNaN)
  {
  }

  /** A number asked for as a string decodes as its decimal text, and that text decodes back as the number. */
  lemma NumberAsString(n: int)
    ensures DecodeValue(Number(n), StringKind) == Success(DecodedString(FormatInt(n)))
    ensures DecodeValue(String(FormatInt(n)), NumberKind) == Success(DecodedNumber(n))
  {
    NumberStringRoundTrip(n);
  }

  // ----- keyed container -----

  /** `allKeys`: the keys of an object, and none for anything else. */
  function AllKeys(j: Json): (keys: set<string>)
    ensures j.Object? ==> keys == j.fields.Keys
    ensures !j.Object? ==> keys == {}
  {
    if j.Object? then j.fields.Keys else {}
  }

  /** `contains(_:)`: whether an object has the key. */
  predicate Contains(j: Json, key: string)
    ensures Contains(j, key) <==> key in AllKeys(j)
    ensures Contains(j, key) ==> HasOwnProperty(j, key)
  {
    j.Object? && key in j.fields
  }

  /** `decodeNil(forKey:)`: whether the value read with `json[key]` is `null`. */
  predicate DecodeNilForKey(j: Json, key: string)
    ensures DecodeNilForKey(j, key) ==> HasOwnProperty(j, key)
    ensures Contains(j, key) ==> (DecodeNilForKey(j, key) <==> j.fields[key] == Null)
  {
    DecodesNil(PropertyGet(j, key))
  }

  /** `decode(_:forKey:)`: the value read with `json[key]`, decoded; an absent key reads `undefined`. */
  function DecodeForKey(j: Json, key: string, kind: Kind): (r: Result<Decoded, DecodeError>)
    ensures Contains(j, key) ==> r == DecodeValue(j.fields[key], kind)
    ensures j.Array? && HasOwnProperty(j, key) ==> r == DecodeValue(j.elements[IndexKey(key).value], kind)
    ensures !HasOwnProperty(j, key) ==> r == DecodeValue(Undefined, kind)
  {
    DecodeValue(PropertyGet(j, key), kind)
  }

  /** `nestedContainer(keyedBy:forKey:)`, `nestedUnkeyedContainer(forKey:)`, `superDecoder(forKey:)`: the value the new container reads. */
  function NestedForKey(j: Json, key: string): (r: Json)
    ensures Contains(j, key) ==> r == j.fields[key]
    ensures j.Array? && HasOwnProperty(j, key) ==> r == j.elements[IndexKey(key).value]
    ensures !HasOwnProperty(j, key) ==> r == Undefined
  {
    PropertyGet(j, key)
  }

  /** `contains` agrees with `allKeys`, and a contained key of an object is read as its stored value. */
  lemma ContainsIsAllKeys(j: Json, key: string)
    ensures Contains(j, key) <==> key in AllKeys(j)
    ensures Contains(j, key) ==> NestedForKey(j, key) == j.fields[key]
  {
  }

  /** An absent key is not nil, decodes as the string "undefined", and is no number. */
  lemma MissingKey(j: Json, key: string)
    requires !Contains(j, key) && !j.Array?
    ensures !DecodeNilForKey(j, key)
    ensures DecodeForKey(j, key, StringKind) == Success(DecodedString("undefined"))
    ensures DecodeForKey(j, key, BoolKind) == Success(DecodedBool(false))
    ensures DecodeForKey(j, key, NumberKind) == Failure(DecodingNaN)
  {
  }

  /**
   * Round trip through a keyed container: a primitive stored under `key` by a keyed
   * encoder that succeeds decodes back from the object it produced.
   */
  lemma {:induction false} KeyedRoundTrip(local: map<string, Enc.Node>, merging: seq<Enc.Node>, key: string, p: Enc.Primitive)
    requires key in local && local[key] == Enc.SingleNode(Enc.EncodePrimitive(p))
    requires Enc.JsonOf(Enc.KeyedNode(local, merging)).Made?
    ensures Contains(Enc.JsonOf(Enc.KeyedNode(local, merging)).json, key)
    ensures DecodeForKey(Enc.JsonOf(Enc.KeyedNode(local, merging)).json, key, KindOf(p)) == Success(DecodedOf(p))
  {
    Enc.KeyedHoldsLocalEntries(local, merging);
    PrimitiveRoundTrip(p);
  }

  /**
   * Round trip through an unkeyed container: the `i`-th primitive appended by an
   * unkeyed encoder that succeeds decodes back at cursor position `i`.
   */
  lemma {:induction false} UnkeyedRoundTrip(elements: seq<Enc.Node>, merging: seq<Enc.Node>, i: nat, p: Enc.Primitive)
    requires i < |elements| && elements[i] == Enc.SingleNode(Enc.EncodePrimitive(p))
    requires Enc.JsonOf(Enc.UnkeyedNode(elements, merging)).Made?
    ensures Enc.JsonOf(Enc.UnkeyedNode(elements, merging)).json.Array?
    ensures DecodeValue(GetIndex(Enc.JsonOf(Enc.UnkeyedNode(elements, merging)).json, i), KindOf(p)) == Success(DecodedOf(p))
  {
    var locals := Enc.JsonsOf(elements);
    Enc.UnkeyedStartsWithElements([], locals, Enc.JsonsOf(merging));
    var a := Enc.JsonOf(Enc.UnkeyedNode(elements, merging)).json.elements;
    assert a[i] == locals[i].json == Enc.EncodePrimitive(p);
    GetIndexOfArray(a, i);
    PrimitiveRoundTrip(p);
  }

  // ----- unkeyed container -----

  /** An unkeyed container: an immutable value and a cursor that only moves forward. */
  class UnkeyedDecoder {
    const json: Json
    var currentIndex: int

    constructor(json: Json)
      ensures this.json == json && currentIndex == 0
    {
      this.json := json;
      currentIndex := 0;
    }

    /** `count`: the number of elements of an array, and 0 for anything else. */
    function Count(): (n: nat)
      ensures json.Array? ==> n == |json.elements|
      ensures !json.Array? ==> n == 0
    {
      if json.Array? then |json.elements| else 0
    }

    /** `isAtEnd`. */
    predicate IsAtEnd()
      reads this
    {
      currentIndex >= Count()
    }

    /** The value at the cursor, read with `json[currentIndex]`. */
    function Current(): Json
      reads this
    {
      GetIndex(json, currentIndex)
    }

    /** `decodeNil()`: the cursor moves past a `null`, and stays put on anything else. */
    method DecodeNil() returns (isNil: bool)
      modifies this
      ensures isNil <==> old(Current()).Null?
      ensures currentIndex == old(currentIndex) + (if isNil then 1 else 0)
    {
      isNil := DecodesNil(GetIndex(json, currentIndex));
      if isNil {
        currentIndex := currentIndex + 1;
      }
    }

    /** `decode(_:)`: the value at the cursor, decoded; the cursor moves on even when decoding throws. */
    method Decode(kind: Kind) returns (r: Result<Decoded, DecodeError>)
      modifies this
      ensures r == DecodeValue(old(Current()), kind)
      ensures currentIndex == old(currentIndex) + 1
    {
      r := DecodeValue(GetIndex(json, currentIndex), kind);
      currentIndex := currentIndex + 1;
    }

    /** `nestedContainer(keyedBy:)`: a keyed container over the value at the cursor, which moves on. */
    method NestedContainer() returns (nested: Json)
      modifies this
      ensures nested == old(Current())
      ensures currentIndex == old(currentIndex) + 1
    {
      nested := GetIndex(json, currentIndex);
      currentIndex := currentIndex + 1;
    }

    /** `nestedUnkeyedContainer()`: a fresh unkeyed container over the value at the cursor, which moves on. */
    method NestedUnkeyedContainer() returns (nested: UnkeyedDecoder)
      modifies this
      ensures fresh(nested)
      ensures nested.json == old(Current()) && nested.currentIndex == 0
      ensures currentIndex == old(currentIndex) + 1
    {
      nested := new UnkeyedDecoder(GetIndex(json, currentIndex));
      currentIndex := currentIndex + 1;
    }

    /** `superDecoder()`: an unkeyed superclass would compete for the same cursor, so it always throws. */
    method SuperDecoder() returns (r: Result<Json, DecodeError>)
      ensures r == Failure(SuperclassStructureConflict)
    {
      r := Failure(SuperclassStructureConflict);
    }
  }

  /** Reading an array from the start: each `decode` reads the next element, and `isAtEnd` turns true after the last. */
  lemma CursorReadsInOrder(a: seq<Json>, index: int)
    requires 0 <= index
    ensures index < |a| ==> GetIndex(Array(a), index) == a[index]
    ensures index >= |a| ==> GetIndex(Array(a), index) == Undefined
  {
    GetIndexOfArray(a, index);
  }

  /** Element `i` is the first of `elements` that fails to decode, and it fails with `error`. */
  predicate FirstFailure(elements: seq<Json>, kind: Kind, i: int, error: DecodeError)
    requires 0 <= i < |elements|
  {
    && DecodeValue(elements[i], kind) == Failure(error)
    && forall k :: 0 <= k < i ==> DecodeValue(elements[k], kind).Success?
  }

  /**
   * A client of the unkeyed decoder: the loop that Swift's standard-library array
   * decoding runs over an unkeyed container, decoding until `isAtEnd`. That loop is
   * not part of this package; it is here to show that the decoder reads every
   * element once, in order.
   */
  method DecodeAll(c: UnkeyedDecoder, kind: Kind) returns (r: Result<seq<Decoded>, DecodeError>)
    requires c.json.Array? && c.currentIndex == 0
    modifies c
    ensures r.Success? ==> |r.value| == |c.json.elements|
    ensures r.Success? ==> forall i :: 0 <= i < |r.value| ==> Success(r.value[i]) == DecodeValue(c.json.elements[i], kind)
    ensures r.Failure? ==> exists i :: 0 <= i < |c.json.elements| && FirstFailure(c.json.elements, kind, i, r.error)
  {
    var values: seq<Decoded> := [];
    while !c.IsAtEnd()
      invariant 0 <= c.currentIndex <= c.Count()
      invariant |values| == c.currentIndex
      invariant forall i :: 0 <= i < |values| ==> Success(values[i]) == DecodeValue(c.json.elements[i], kind)
      decreases c.Count() - c.currentIndex
    {
      ghost var index := c.currentIndex;
      CursorReadsInOrder(c.json.elements, index);
      var value := c.Decode(kind);
      if value.Failure? {
        assert FirstFailure(c.json.elements, kind, index, value.error);
        return Failure(value.error);
      }
      values := values + [value.value];
    }
    return Success(values);
  }
}
