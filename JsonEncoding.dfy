/**
 * `JSON.Encoder`: turning an `Encodable` value into a JSON value through the
 * encoder/container protocol.
 *
 * A value's `encode(to:)` asks the encoder for one container and fills it. A keyed
 * container builds an object from its entries and merges in the objects its
 * super-encoders produce; an unkeyed container builds an array, its own elements
 * first and then the elements of its super-encoders' arrays; a single-value
 * container holds one finished value.
 *
 * A container the encoding has finished with is described by a `Node`; the live
 * containers are classes whose fields the encoding methods update in place.
 * Swift iterates a dictionary in an unspecified order, so where the order decides
 * which error is thrown, the specification gives the set of errors that may be.
 */
module JsonEncoding {
  import opened Wrappers
  import opened Text
  import opened JsonValue
  import opened JsonProperties

  datatype EncodeError =
    | SuperclassStructureConflict
    | SuperclassKeyConflict(key: string)

  /** The values a single-value container stores directly: `Bool`, `String` and every numeric type. */
  datatype Primitive =
    | BoolPrimitive(b: bool)
    | StringPrimitive(s: string)
    | NumberPrimitive(n: int)

  /**
   * A finished container: an encoder with the container it was last asked for, a
   * keyed or unkeyed container with its own entries and its super-encoders, or a
   * single-value container with its value.
   */
  datatype Node =
    | EncoderNode(container: Option<Node>)
    | KeyedNode(local: map<string, Node>, merging: seq<Node>)
    | UnkeyedNode(elements: seq<Node>, merging: seq<Node>)
    | SingleNode(json: Json)

  /** A value handed to `encode`: a primitive, or a value whose `encode(to:)` built the given encoder. */
  datatype Value =
    | PrimitiveValue(p: Primitive)
    | CompositeValue(encoding: Node)

  /** The result of `makeJson()`: a value, or a throw with the set of errors that may be thrown. */
  datatype Outcome =
    | Made(json: Json)
    | Threw(possible: set<EncodeError>)

  /** A run of `makeJson()` that answers `r` is one the specification `o` allows. */
  predicate Allowed(r: Result<Json, EncodeError>, o: Outcome) {
    match o
    case Made(j) => r == Success(j)
    case Threw(p) => r.Failure? && r.error in p
  }

  /** The switch in `SingleValueContainer.encode`: booleans, strings and numbers stored as such. */
  function EncodePrimitive(p: Primitive): (j: Json)
    ensures p.BoolPrimitive? <==> j.Boolean?
    ensures p.StringPrimitive? <==> j.String?
    ensures p.NumberPrimitive? <==> j.Number?
  {
    match p
    case BoolPrimitive(b) => Boolean(b)
    case StringPrimitive(s) => String(s)
    case NumberPrimitive(n) => Number(n)
  }

  /** The specification of `makeJson()` for every kind of container. */
  function JsonOf(n: Node): (o: Outcome)
    ensures n.SingleNode? ==> o == Made(n.json)
    ensures n == EncoderNode(None) ==> o == Made(Undefined)
    ensures n.KeyedNode? && o.Made? ==> o.json.Object?
    ensures n.UnkeyedNode? && o.Made? ==> o.json.Array?
    decreases n, 1
  {
    match n
    case EncoderNode(c) =>
      if c.Some? then JsonOf(c.value) else Made(Undefined)
    case SingleNode(j) => Made(j)
    case KeyedNode(local, merging) =>
      if exists k :: k in local && JsonOf(local[k]).Threw? then
        Threw(set k, e | k in local && JsonOf(local[k]).Threw? && e in JsonOf(local[k]).possible :: e)
      else
        MergeFields(map k | k in local :: JsonOf(local[k]).json, JsonsOf(merging))
    case UnkeyedNode(elements, merging) =>
      AppendElements([], JsonsOf(elements), JsonsOf(merging))
  }

  /** The outcomes of a list of containers, in order. */
  function JsonsOf(ns: seq<Node>): (r: seq<Outcome>)
    ensures |r| == |ns|
    ensures forall i :: 0 <= i < |ns| ==> r[i] == JsonOf(ns[i])
    decreases ns, 0
  {
    if ns == [] then [] else [JsonOf(ns[0])] + JsonsOf(ns[1..])
  }

  /**
   * The merge loop of a keyed container: each super-encoder must produce an object,
   * and none of its keys may already be present.
   */
  function MergeFields(fields: map<string, Json>, delegates: seq<Outcome>): (o: Outcome)
    ensures o.Made? ==> o.json.Object? && fields.Keys <= o.json.fields.Keys
    decreases delegates
  {
    if delegates == [] then Made(Object(fields))
    else
      match delegates[0]
      case Threw(p) => Threw(p)
      case Made(content) =>
        if !content.Object? then Threw({SuperclassStructureConflict})
        else
          match MergeObject(fields, content.fields)
          case Threw(p) => Threw(p)
          case Made(merged) => MergeFields(merged.fields, delegates[1..])
  }

  /** Merging one object: a key already present is a conflict, otherwise every field is added. */
  function MergeObject(fields: map<string, Json>, content: map<string, Json>): (o: Outcome)
    ensures o.Made? ==> o.json.Object?
  {
    if content.Keys * fields.Keys != {} then
      Threw(set k | k in content.Keys * fields.Keys :: SuperclassKeyConflict(k))
    else Made(Object(fields + content))
  }

  /**
   * The two loops of an unkeyed container: its own elements in order, then the
   * elements of each super-encoder, which must produce an array.
   */
  function AppendElements(elements: seq<Json>, locals: seq<Outcome>, delegates: seq<Outcome>): (o: Outcome)
    ensures o.Made? ==> o.json.Array? && |elements| <= |o.json.elements| && o.json.elements[..|elements|] == elements
    decreases |locals| + |delegates|
  {
    if locals != [] then
      match locals[0]
      case Threw(p) => Threw(p)
      case Made(j) => AppendElements(elements + [j], locals[1..], delegates)
    else if delegates != [] then
      match delegates[0]
      case Threw(p) => Threw(p)
      case Made(content) =>
        if content.Array? then AppendElements(elements + content.elements, [], delegates[1..])
        else Threw({SuperclassStructureConflict})
    else Made(Array(elements))
  }

  /** Encoding a value through a fresh encoder (`JSON.Encoder.encode`, and a single-value container's nested case). */
  function EncodeValue(v: Value): Outcome {
    match v
    case PrimitiveValue(p) => Made(EncodePrimitive(p))
    case CompositeValue(encoding) => JsonOf(encoding)
  }

  /** Every throw names at least one error. */
  lemma {:induction false} ThrowsSomething(n: Node)
    ensures JsonOf(n).Threw? ==> JsonOf(n).possible != {}
    decreases n, 1
  {
    match n
    case EncoderNode(c) =>
      if c.Some? {
        ThrowsSomething(c.value);
      }
    case SingleNode(_) =>
    case KeyedNode(local, merging) =>
      if exists k :: k in local && JsonOf(local[k]).Threw? {
        var k :| k in local && JsonOf(local[k]).Threw?;
        ThrowsSomething(local[k]);
        var e :| e in JsonOf(local[k]).possible;
        assert e in JsonOf(n).possible;
      } else {
        AllThrowSomething(merging);
        MergeThrowsSomething(map k | k in local :: JsonOf(local[k]).json, JsonsOf(merging));
      }
    case UnkeyedNode(elements, merging) =>
      AllThrowSomething(elements);
      AllThrowSomething(merging);
      AppendThrowsSomething([], JsonsOf(elements), JsonsOf(merging));
  }

  lemma {:induction false} AllThrowSomething(ns: seq<Node>)
    ensures forall i :: 0 <= i < |ns| && JsonOf(ns[i]).Threw? ==> JsonOf(ns[i]).possible != {}
    decreases ns, 0
  {
    forall i | 0 <= i < |ns| && JsonOf(ns[i]).Threw?
      ensures JsonOf(ns[i]).possible != {}
    {
      ThrowsSomething(ns[i]);
    }
  }

  lemma {:induction false} MergeThrowsSomething(fields: map<string, Json>, delegates: seq<Outcome>)
    requires forall i :: 0 <= i < |delegates| && delegates[i].Threw? ==> delegates[i].possible != {}
    ensures MergeFields(fields, delegates).Threw? ==> MergeFields(fields, delegates).possible != {}
    decreases delegates
  {
    if delegates != [] && delegates[0].Made? {
      var content := delegates[0].json;
      if content.Object? {
        var clash := content.fields.Keys * fields.Keys;
        if clash != {} {
          var k :| k in clash;
          assert SuperclassKeyConflict(k) in MergeFields(fields, delegates).possible;
        } else {
          MergeThrowsSomething(fields + content.fields, delegates[1..]);
        }
      }
    }
  }

  lemma {:induction false} AppendThrowsSomething(elements: seq<Json>, locals: seq<Outcome>, delegates: seq<Outcome>)
    requires forall i :: 0 <= i < |locals| && locals[i].Threw? ==> locals[i].possible != {}
    requires forall i :: 0 <= i < |delegates| && delegates[i].Threw? ==> delegates[i].possible != {}
    ensures AppendElements(elements, locals, delegates).Threw? ==>
      AppendElements(elements, locals, delegates).possible != {}
    decreases |locals| + |delegates|
  {
    if locals != [] {
      if locals[0].Made? {
        AppendThrowsSomething(elements + [locals[0].json], locals[1..], delegates);
      }
    } else if delegates != [] {
      if delegates[0].Made? && delegates[0].json.Array? {
        AppendThrowsSomething(elements + delegates[0].json.elements, [], delegates[1..]);
      }
    }
  }

  // ----- properties of the specification -----

  /** An encoder never asked for a container produces `undefined`; otherwise it produces its last container's value. */
  lemma EncoderProducesItsContainer(c: Option<Node>)
    ensures c.None? ==> JsonOf(EncoderNode(c)) == Made(Undefined)
    ensures c.Some? ==> JsonOf(EncoderNode(c)) == JsonOf(c.value)
  {
  }

  /**
   * A keyed container that succeeds produces an object holding each of its own
   * entries' values under its key.
   */
  lemma {:induction false} KeyedHoldsLocalEntries(local: map<string, Node>, merging: seq<Node>)
    requires JsonOf(KeyedNode(local, merging)).Made?
    ensures JsonOf(KeyedNode(local, merging)).json.Object?
    ensures forall k :: k in local ==>
      k in JsonOf(KeyedNode(local, merging)).json.fields &&
      JsonOf(local[k]) == Made(JsonOf(KeyedNode(local, merging)).json.fields[k])
  {
    var fields := map k | k in local :: JsonOf(local[k]).json;
    MergeKeepsFields(fields, JsonsOf(merging));
  }

  lemma {:induction false} MergeKeepsFields(fields: map<string, Json>, delegates: seq<Outcome>)
    requires MergeFields(fields, delegates).Made?
    ensures MergeFields(fields, delegates).json.Object?
    ensures forall k :: k in fields ==>
      k in MergeFields(fields, delegates).json.fields &&
      MergeFields(fields, delegates).json.fields[k] == fields[k]
    decreases delegates
  {
    if delegates != [] {
      var content := delegates[0].json.fields;
      assert MergeObject(fields, content).Made?;
      assert content.Keys * fields.Keys == {};
      var merged := fields + content;
      assert MergeObject(fields, content) == Made(Object(merged));
      forall k | k in fields
        ensures k !in content && merged[k] == fields[k]
      {
        assert k !in content.Keys * fields.Keys;
      }
      MergeKeepsFields(merged, delegates[1..]);
    }
  }

  /** Merging a super-encoder's object that shares a key with the container's entries throws a key conflict for such a key. */
  lemma KeyConflictThrown(fields: map<string, Json>, content: map<string, Json>, rest: seq<Outcome>, key: string)
    requires key in fields && key in content
    ensures MergeFields(fields, [Made(Object(content))] + rest).Threw?
    ensures SuperclassKeyConflict(key) in MergeFields(fields, [Made(Object(content))] + rest).possible
    ensures forall e :: e in MergeFields(fields, [Made(Object(content))] + rest).possible ==>
      e.SuperclassKeyConflict? && e.key in fields && e.key in content
  {
    var delegates := [Made(Object(content))] + rest;
    assert delegates[0] == Made(Object(content));
    assert key in content.Keys * fields.Keys;
    assert MergeObject(fields, content).Threw?;
  }

  /** Merging disjoint objects keeps every field of both. */
  lemma MergeDisjoint(fields: map<string, Json>, content: map<string, Json>)
    requires fields.Keys !! content.Keys
    ensures MergeFields(fields, [Made(Object(content))]) == Made(Object(fields + content))
  {
    assert content.Keys * fields.Keys == {};
  }

  /** A super-encoder that produces anything but an object is a structure conflict for a keyed container. */
  lemma KeyedStructureConflict(fields: map<string, Json>, content: Json, rest: seq<Outcome>)
    requires !content.Object?
    ensures MergeFields(fields, [Made(content)] + rest) == Threw({SuperclassStructureConflict})
  {
  }

  /**
   * An unkeyed container that succeeds produces an array that starts with its own
   * elements' values, in order.
   */
  lemma {:induction false} UnkeyedStartsWithElements(elements: seq<Json>, locals: seq<Outcome>, delegates: seq<Outcome>)
    requires AppendElements(elements, locals, delegates).Made?
    ensures AppendElements(elements, locals, delegates).json.Array?
    ensures forall i :: 0 <= i < |locals| ==> locals[i].Made?
    ensures |AppendElements(elements, locals, delegates).json.elements| >= |elements| + |locals|
    ensures forall i :: 0 <= i < |elements| ==>
      AppendElements(elements, locals, delegates).json.elements[i] == elements[i]
    ensures forall i :: 0 <= i < |locals| ==>
      AppendElements(elements, locals, delegates).json.elements[|elements| + i] == locals[i].json
    decreases |locals| + |delegates|
  {
    if locals != [] {
      UnkeyedStartsWithElements(elements + [locals[0].json], locals[1..], delegates);
      var r := AppendElements(elements, locals, delegates).json.elements;
      forall i | 0 <= i < |locals|
        ensures locals[i].Made? && r[|elements| + i] == locals[i].json
      {
        if i > 0 {
          assert locals[1..][i - 1] == locals[i];
        }
      }
    } else if delegates != [] {
      UnkeyedStartsWithElements(elements + delegates[0].json.elements, [], delegates[1..]);
    }
  }

  /** The `count` of an unkeyed container: its own elements plus the lengths of its super-encoders' arrays. */
  function UnkeyedCount(elements: seq<Node>, merging: seq<Node>): nat {
    |elements| + DelegatedCount(JsonsOf(merging))
  }

  /** The `reduce` in `count`: a super-encoder that throws or produces no array counts nothing. */
  function DelegatedCount(delegates: seq<Outcome>): nat {
    if delegates == [] then 0
    else
      (if delegates[0].Made? && delegates[0].json.Array? then |delegates[0].json.elements| else 0)
      + DelegatedCount(delegates[1..])
  }

  /** When the unkeyed container succeeds, `count` is the length of the array it produces. */
  lemma CountMatchesArray(elements: seq<Node>, merging: seq<Node>)
    requires JsonOf(UnkeyedNode(elements, merging)).Made?
    ensures JsonOf(UnkeyedNode(elements, merging)).json.Array?
    ensures |JsonOf(UnkeyedNode(elements, merging)).json.elements| == UnkeyedCount(elements, merging)
  {
    AppendLength([], JsonsOf(elements), JsonsOf(merging));
  }

  lemma {:induction false} AppendLength(elements: seq<Json>, locals: seq<Outcome>, delegates: seq<Outcome>)
    requires AppendElements(elements, locals, delegates).Made?
    ensures AppendElements(elements, locals, delegates).json.Array?
    ensures |AppendElements(elements, locals, delegates).json.elements| ==
      |elements| + |locals| + DelegatedCount(delegates)
    decreases |locals| + |delegates|
  {
    if locals != [] {
      AppendLength(elements + [locals[0].json], locals[1..], delegates);
    } else if delegates != [] {
      AppendLength(elements + delegates[0].json.elements, [], delegates[1..]);
    }
  }

  /** The two outcomes of a keyed container: the errors of its failing entries, or the merge of their values. */
  lemma KeyedOutcome(local: map<string, Node>, merging: seq<Node>)
    ensures (forall k :: k in local ==> JsonOf(local[k]).Made?) ==>
      JsonOf(KeyedNode(local, merging)) ==
      MergeFields(map k | k in local :: JsonOf(local[k]).json, JsonsOf(merging))
    ensures forall k, e :: k in local && JsonOf(local[k]).Threw? && e in JsonOf(local[k]).possible ==>
      JsonOf(KeyedNode(local, merging)).Threw? && e in JsonOf(KeyedNode(local, merging)).possible
  {
    var n := KeyedNode(local, merging);
    if exists k :: k in local && JsonOf(local[k]).Threw? {
      var errors := set k, e | k in local && JsonOf(local[k]).Threw? && e in JsonOf(local[k]).possible :: e;
      assert JsonOf(n) == Threw(errors);
    } else {
      var fields := map k | k in local :: JsonOf(local[k]).json;
      assert JsonOf(n) == MergeFields(fields, JsonsOf(merging));
      assert fields == map k | k in local :: JsonOf(local[k]).json;
    }
  }

  /** A single primitive stored under one key encodes to a one-field object. */
  lemma OneEntryObject(key: string, p: Primitive)
    ensures JsonOf(KeyedNode(map[key := SingleNode(EncodePrimitive(p))], [])) ==
      Made(Object(map[key := EncodePrimitive(p)]))
  {
    var local := map[key := SingleNode(EncodePrimitive(p))];
    assert JsonOf(local[key]) == Made(EncodePrimitive(p));
    assert (map k | k in local :: JsonOf(local[k]).json) == map[key := EncodePrimitive(p)];
    assert forall k :: k in local ==> k == key;
    KeyedOutcome(local, []);
    assert JsonsOf([]) == [];
    assert MergeFields(map[key := EncodePrimitive(p)], []) == Made(Object(map[key := EncodePrimitive(p)]));
  }

  // ----- the running encoder -----

  /**
   * `makeJson()` of any container, as the source's loops compute it: a keyed
   * container fills its object entry by entry and then merges each super-encoder's
   * object key by key; an unkeyed container writes index after index.
   */
  method Make(n: Node) returns (r: Result<Json, EncodeError>)
    ensures Allowed(r, JsonOf(n))
    decreases n, 2
  {
    match n {
      case EncoderNode(c) =>
        if c.Some? {
          r := Make(c.value);
        } else {
          r := Success(Undefined);
        }
      case SingleNode(j) =>
        r := Success(j);
      case KeyedNode(local, merging) =>
        r := MakeKeyed(local, merging);
      case UnkeyedNode(elements, merging) =>
        r := MakeUnkeyed(elements, merging);
    }
  }

  method MakeKeyed(local: map<string, Node>, merging: seq<Node>) returns (r: Result<Json, EncodeError>)
    ensures Allowed(r, JsonOf(KeyedNode(local, merging)))
    decreases KeyedNode(local, merging), 1
  {
    var json := Object(map[]);
    var keys := local.Keys;
    while keys != {}
      invariant keys <= local.Keys
      invariant forall k :: k in local.Keys - keys ==> JsonOf(local[k]).Made?
      invariant json == Object(map k | k in local.Keys - keys :: JsonOf(local[k]).json)
      decreases keys
    {
      var key :| key in keys;
      var value := Make(local[key]);
      if value.Failure? {
        KeyedOutcome(local, merging);
        return Failure(value.error);
      }
      json := PropertySet(json, key, value.value);
      keys := keys - {key};
    }
    assert local.Keys - keys == local.Keys;
    KeyedOutcome(local, merging);
    r := MergeDelegates(json, local, merging);
  }

  /** The second loop of a keyed container's `makeJson()`: merge each super-encoder's object. */
  method MergeDelegates(json: Json, ghost local: map<string, Node>, merging: seq<Node>) returns (r: Result<Json, EncodeError>)
    requires json.Object?
    ensures Allowed(r, MergeFields(json.fields, JsonsOf(merging)))
    decreases KeyedNode(local, merging), 0
  {
    var merged := json;
    var delegates := JsonsOf(merging);
    for i := 0 to |merging|
      invariant merged.Object?
      invariant MergeFields(merged.fields, delegates[i..]) == MergeFields(json.fields, delegates)
    {
      var content := Make(merging[i]);
      if content.Failure? {
        return Failure(content.error);
      }
      if !content.value.Object? {
        return Failure(SuperclassStructureConflict);
      }
      r := MergeContent(merged, content.value.fields);
      if r.Failure? {
        return r;
      }
      merged := r.value;
      assert delegates[i..][1..] == delegates[i + 1..];
    }
    return Success(merged);
  }

  /** The inner loop: copy one super-encoder's fields, throwing on the first key already present. */
  method MergeContent(json: Json, content: map<string, Json>) returns (r: Result<Json, EncodeError>)
    requires json.Object?
    ensures Allowed(r, MergeObject(json.fields, content))
  {
    var merged := json;
    var keys := content.Keys;
    while keys != {}
      invariant keys <= content.Keys
      invariant merged.Object?
      invariant merged.fields == json.fields + map k | k in content.Keys - keys :: content[k]
      invariant (content.Keys - keys) !! json.fields.Keys
      decreases keys
    {
      var key :| key in keys;
      if HasOwnProperty(merged, key) {
        assert key in content.Keys * json.fields.Keys;
        return Failure(SuperclassKeyConflict(key));
      }
      merged := PropertySet(merged, key, content[key]);
      keys := keys - {key};
    }
    assert content.Keys * json.fields.Keys == {};
    assert merged.fields == json.fields + content;
    return Success(merged);
  }

  method MakeUnkeyed(elements: seq<Node>, merging: seq<Node>) returns (r: Result<Json, EncodeError>)
    ensures Allowed(r, JsonOf(UnkeyedNode(elements, merging)))
    decreases UnkeyedNode(elements, merging), 1
  {
    var json := Array([]);
    var index := 0;
    var locals := JsonsOf(elements);
    var delegates := JsonsOf(merging);
    for i := 0 to |elements|
      invariant json.Array? && index == |json.elements|
      invariant AppendElements(json.elements, locals[i..], delegates) == JsonOf(UnkeyedNode(elements, merging))
    {
      var value := Make(elements[i]);
      if value.Failure? {
        return Failure(value.error);
      }
      SetIndexOfArray(json.elements, index, value.value);
      json := SetIndex(json, index, value.value);
      index := index + 1;
      assert locals[i..][1..] == locals[i + 1..];
    }
    for i := 0 to |merging|
      invariant json.Array? && index == |json.elements|
      invariant AppendElements(json.elements, [], delegates[i..]) == JsonOf(UnkeyedNode(elements, merging))
    {
      var content := Make(merging[i]);
      if content.Failure? {
        return Failure(content.error);
      }
      if !content.value.Array? {
        return Failure(SuperclassStructureConflict);
      }
      json, index := AppendContent(json, index, content.value.elements);
      assert delegates[i..][1..] == delegates[i + 1..];
    }
    return Success(json);
  }

  /** The inner loop of the merge: each element of a super-encoder's array is set at the next index. */
  method AppendContent(json: Json, index: int, contentElements: seq<Json>) returns (r: Json, next: int)
    requires json.Array? && index == |json.elements|
    ensures r == Array(json.elements + contentElements)
    ensures next == |r.elements|
  {
    r, next := json, index;
    for t := 0 to |contentElements|
      invariant r.Array? && next == |r.elements|
      invariant r.elements == json.elements + contentElements[..t]
    {
      SetIndexOfArray(r.elements, next, contentElements[t]);
      r := SetIndex(r, next, contentElements[t]);
      next := next + 1;
      assert contentElements[..t + 1] == contentElements[..t] + [contentElements[t]];
    }
    assert contentElements[..|contentElements|] == contentElements;
  }

  /** `JSON.Encoder().encode(value)`. */
  method EncodeWithEncoder(v: Value) returns (r: Result<Json, EncodeError>)
    ensures Allowed(r, EncodeValue(v))
  {
    match v {
      case PrimitiveValue(p) =>
        r := Success(EncodePrimitive(p));
      case CompositeValue(encoding) =>
        r := Make(encoding);
    }
  }

  /** The encoder handed to `encode(to:)`: it keeps the container it was last asked for. */
  class InternalEncoder {
    var container: Option<Node>

    constructor()
      ensures container == None
    {
      container := None;
    }

    /** `container(keyedBy:)`, `unkeyedContainer()` or `singleValueContainer()`: the new container replaces any earlier one. */
    method RequestContainer(content: Node)
      requires !content.EncoderNode?
      modifies this
      ensures container == Some(content)
    {
      container := Some(content);
    }

    method MakeJson() returns (r: Result<Json, EncodeError>)
      ensures Allowed(r, JsonOf(EncoderNode(container)))
    {
      r := Make(EncoderNode(container));
    }
  }

  /** A single-value container: one value, `undefined` until something is encoded. */
  class SingleValueContainer {
    var json: Json

    constructor()
      ensures json == Undefined
    {
      json := Undefined;
    }

    method EncodeNil()
      modifies this
      ensures json == Null
    {
      json := Null;
    }

    /** `encode(_:)`: a primitive is stored as is; any other value is encoded by a nested encoder, whose error propagates. */
    method Encode(v: Value) returns (error: Option<EncodeError>)
      modifies this
      ensures EncodeValue(v).Made? ==> error.None? && json == EncodeValue(v).json
      ensures EncodeValue(v).Threw? ==> error.Some? && error.value in EncodeValue(v).possible && json == old(json)
    {
      var r := EncodeWithEncoder(v);
      if r.Failure? {
        return Some(r.error);
      }
      json := r.value;
      return None;
    }
  }

  /** A keyed container: entries by key, and the super-encoders whose objects are merged in. */
  class KeyedContainer {
    var local: map<string, Node>
    var merging: seq<Node>

    constructor()
      ensures local == map[] && merging == []
    {
      local := map[];
      merging := [];
    }

    function AsNode(): Node
      reads this
    {
      KeyedNode(local, merging)
    }

    method EncodeNil(key: string)
      modifies this
      ensures local == old(local)[key := SingleNode(Null)] && merging == old(merging)
    {
      var content := new SingleValueContainer();
      content.EncodeNil();
      local := local[key := SingleNode(content.json)];
    }

    /** `encode(_:forKey:)`: the entry is stored only when encoding the value succeeds. */
    method Encode(key: string, v: Value) returns (error: Option<EncodeError>)
      modifies this
      ensures merging == old(merging)
      ensures EncodeValue(v).Made? ==>
        error.None? && local == old(local)[key := SingleNode(EncodeValue(v).json)]
      ensures EncodeValue(v).Threw? ==>
        error.Some? && error.value in EncodeValue(v).possible && local == old(local)
    {
      var content := new SingleValueContainer();
      error := content.Encode(v);
      if error.None? {
        local := local[key := SingleNode(content.json)];
      }
    }

    /** `encodeIfPresent(_:forKey:)`: a missing value is encoded as `null`. */
    method EncodeIfPresent(key: string, v: Option<Value>) returns (error: Option<EncodeError>)
      modifies this
      ensures merging == old(merging)
      ensures v.None? ==> error.None? && local == old(local)[key := SingleNode(Null)]
      ensures v.Some? && EncodeValue(v.value).Made? ==>
        error.None? && local == old(local)[key := SingleNode(EncodeValue(v.value).json)]
      ensures v.Some? && EncodeValue(v.value).Threw? ==>
        error.Some? && error.value in EncodeValue(v.value).possible && local == old(local)
    {
      if v.Some? {
        error := Encode(key, v.value);
      } else {
        EncodeNil(key);
        error := None;
      }
    }

    /** `nestedContainer(keyedBy:forKey:)`, `nestedUnkeyedContainer(forKey:)` or `superEncoder(forKey:)`: the new container becomes the entry for `key`. */
    method Nest(key: string, content: Node)
      requires !content.SingleNode?
      modifies this
      ensures local == old(local)[key := content] && merging == old(merging)
    {
      local := local[key := content];
    }

    /** `superEncoder()`: a new encoder whose object is merged in. */
    method SuperEncoder(content: Node)
      requires content.EncoderNode?
      modifies this
      ensures merging == old(merging) + [content] && local == old(local)
    {
      merging := merging + [content];
    }

    method MakeJson() returns (r: Result<Json, EncodeError>)
      ensures Allowed(r, JsonOf(AsNode()))
    {
      r := MakeKeyed(local, merging);
    }
  }

  /** An unkeyed container: elements in order, and the super-encoders whose arrays are appended. */
  class UnkeyedContainer {
    var elements: seq<Node>
    var merging: seq<Node>

    constructor()
      ensures elements == [] && merging == []
    {
      elements := [];
      merging := [];
    }

    function AsNode(): Node
      reads this
    {
      UnkeyedNode(elements, merging)
    }

    /** `count`. */
    function Count(): nat
      reads this
    {
      UnkeyedCount(elements, merging)
    }

    method EncodeNil()
      modifies this
      ensures elements == old(elements) + [SingleNode(Null)] && merging == old(merging)
    {
      var content := new SingleValueContainer();
      content.EncodeNil();
      elements := elements + [SingleNode(content.json)];
    }

    /** `encode(_:)`: the element is appended only when encoding the value succeeds. */
    method Encode(v: Value) returns (error: Option<EncodeError>)
      modifies this
      ensures merging == old(merging)
      ensures EncodeValue(v).Made? ==>
        error.None? && elements == old(elements) + [SingleNode(EncodeValue(v).json)]
      ensures EncodeValue(v).Threw? ==>
        error.Some? && error.value in EncodeValue(v).possible && elements == old(elements)
    {
      var content := new SingleValueContainer();
      error := content.Encode(v);
      if error.None? {
        elements := elements + [SingleNode(content.json)];
      }
    }

    /** `nestedContainer(keyedBy:)` or `nestedUnkeyedContainer()`: the new container is the next element. */
    method Nest(content: Node)
      requires content.KeyedNode? || content.UnkeyedNode?
      modifies this
      ensures elements == old(elements) + [content] && merging == old(merging)
    {
      elements := elements + [content];
    }

    /** `superEncoder()`: a new encoder whose array is appended after the elements. */
    method SuperEncoder(content: Node)
      requires content.EncoderNode?
      modifies this
      ensures merging == old(merging) + [content] && elements == old(elements)
    {
      merging := merging + [content];
    }

    method MakeJson() returns (r: Result<Json, EncodeError>)
      ensures Allowed(r, JsonOf(AsNode()))
    {
      r := MakeUnkeyed(elements, merging);
    }
  }
}
