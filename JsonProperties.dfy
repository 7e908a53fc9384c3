/**
 * Property access on JSON values (`json[key]`, `json[index]`, `json[jsonKey]`,
 * `hasOwnProperty`) and the JavaScript-like array helpers (`length`, `push`, `pop`,
 * `forEach`, `modEach`), which treat a string as the list of its characters.
 *
 * An array keeps its shape: only index keys reach it, and a write may replace an
 * element or append right after the last one, nothing further.
 */
module JsonProperties {
  import opened Wrappers
  import opened Text
  import opened JsonValue
  import opened JsonCoercion

  /**
   * The array index a key names: `Int(key)` and at least 0. The range check of
   * `Int` is not modelled: no array is long enough to tell it apart.
   */
  function IndexKey(key: string): (r: Option<nat>)
    ensures r.Some? <==> ParseSigned(key).Some? && ParseSigned(key).value >= 0
    ensures r.Some? ==> ParseSigned(key) == Some(r.value as int)
  {
    match ParseSigned(key)
    case Some(i) => if i >= 0 then Some(i) else None
    case None => None
  }

  /** `propertyGet(key:)`: an element, a field, or `undefined` when there is none. */
  function PropertyGet(j: Json, key: string): (r: Json)
    ensures !HasOwnProperty(j, key) ==> r == Undefined
    ensures j.Object? && key in j.fields ==> r == j.fields[key]
    ensures j.Array? && HasOwnProperty(j, key) ==> r == j.elements[IndexKey(key).value]
  {
    match j
    case Array(a) =>
      (match IndexKey(key)
       case Some(i) => if i < |a| then a[i] else Undefined
       case None => Undefined)
    case Object(m) => if key in m then m[key] else Undefined
    case _ => Undefined
  }

  /**
   * `propertySet(key:value:)`: an object stores the field; an array overwrites the
   * element at an existing index or appends at index `count`; anything else, and any
   * other key, leaves the value as it was.
   */
  function PropertySet(j: Json, key: string, v: Json): (r: Json)
    ensures TypeOf(r) == TypeOf(j)
    ensures !j.Array? && !j.Object? ==> r == j
    ensures j.Object? ==> r.fields.Keys == j.fields.Keys + {key}
    ensures j.Array? ==> |j.elements| <= |r.elements| <= |j.elements| + 1
    ensures j.Array? && !HasOwnProperty(j, key) && IndexKey(key) != Some(|j.elements|) ==> r == j
  {
    match j
    case Array(a) =>
      (match IndexKey(key)
       case Some(i) =>
         if i == |a| then Array(a + [v])
         else if i < |a| then Array(a[i := v])
         else j
       case None => j)
    case Object(m) => Object(m[key := v])
    case _ => j
  }

  /** `propertyCheck(key:)` as `hasOwnProperty` should answer: an existing index or field. */
  predicate HasOwnProperty(j: Json, key: string)
    ensures HasOwnProperty(j, key) ==> j.Array? || j.Object?
    ensures j.Object? ==> (HasOwnProperty(j, key) <==> key in j.fields)
    ensures j.Array? ==> (HasOwnProperty(j, key) <==> exists i: nat :: i < |j.elements| && IndexKey(key) == Some(i))
  {
    match j
    case Array(a) => IndexKey(key).Some? && IndexKey(key).value < |a|
    case Object(m) => key in m
    case _ => false
  }

  /** Whether two keys name the same element or field of `j`. */
  predicate SameSlot(j: Json, k1: string, k2: string) {
    if j.Array? then IndexKey(k1).Some? && IndexKey(k1) == IndexKey(k2) else k1 == k2
  }

  /** A missing property reads as `undefined`; an existing one reads as the element at the key's index or the field. */
  lemma GetMatchesHas(j: Json, key: string)
    ensures !HasOwnProperty(j, key) ==> PropertyGet(j, key) == Undefined
    ensures HasOwnProperty(j, key) && j.Array? ==>
      IndexKey(key).Some? && IndexKey(key).value < |j.elements| && PropertyGet(j, key) == j.elements[IndexKey(key).value]
    ensures HasOwnProperty(j, key) && j.Object? ==> PropertyGet(j, key) == j.fields[key]
  {
  }

  /** Setting never changes the type, and grows an array by at most the one appended element. */
  lemma SetKeepsShape(j: Json, key: string, v: Json)
    ensures TypeOf(PropertySet(j, key, v)) == TypeOf(j)
    ensures j.Array? ==> |j.elements| <= |PropertySet(j, key, v).elements| <= |j.elements| + 1
    ensures !j.Array? && !j.Object? ==> PropertySet(j, key, v) == j
  {
  }

  /** After a successful write the key exists and reads back the written value. */
  lemma GetAfterSet(j: Json, key: string, v: Json)
    requires j.Object? || (j.Array? && IndexKey(key).Some? && IndexKey(key).value <= |j.elements|)
    ensures HasOwnProperty(PropertySet(j, key, v), key)
    ensures PropertyGet(PropertySet(j, key, v), key) == v
  {
  }

  /** A write leaves every other element or field as it was. */
  lemma GetOtherAfterSet(j: Json, key: string, other: string, v: Json)
    requires !SameSlot(j, key, other)
    ensures PropertyGet(PropertySet(j, key, v), other) == PropertyGet(j, other)
  {
  }

  /** A write past the end of an array, or with a key that is no index, changes nothing. */
  lemma SetOutOfReach(a: seq<Json>, key: string, v: Json)
    requires IndexKey(key).None? || IndexKey(key).value > |a|
    ensures PropertySet(Array(a), key, v) == Array(a)
  {
  }

  /** Different spellings of one index reach the same element: "1", "01" and "+1". */
  lemma IndexSpellings(a: seq<Json>)
    requires |a| >= 2
    ensures PropertyGet(Array(a), "1") == a[1]
    ensures PropertyGet(Array(a), "01") == a[1]
    ensures PropertyGet(Array(a), "+1") == a[1]
  {
    assert DigitsValue("01") == DigitsValue("0") * 10 + 1;
    assert "+1"[1..] == "1";
  }

  /** The `Int` subscript: `json[String(index)]`. */
  function GetIndex(j: Json, index: int): (r: Json)
    ensures j.Array? && 0 <= index < |j.elements| ==> r == j.elements[index]
    ensures j.Array? && !(0 <= index < |j.elements|) ==> r == Undefined
    ensures j.Object? && FormatInt(index) in j.fields ==> r == j.fields[FormatInt(index)]
    ensures j.Object? && FormatInt(index) !in j.fields ==> r == Undefined
    ensures !j.Array? && !j.Object? ==> r == Undefined
  {
    ParseFormatInt(index);
    PropertyGet(j, FormatInt(index))
  }

  /** The `Int` subscript setter: `json[String(index)] = v`. */
  function SetIndex(j: Json, index: int, v: Json): (r: Json)
    ensures TypeOf(r) == TypeOf(j)
    ensures j.Array? && 0 <= index < |j.elements| ==> r == Array(j.elements[index := v])
    ensures j.Array? && index == |j.elements| ==> r == Array(j.elements + [v])
    ensures j.Array? && (index < 0 || index > |j.elements|) ==> r == j
    ensures j.Object? ==> r == Object(j.fields[FormatInt(index) := v])
  {
    ParseFormatInt(index);
    PropertySet(j, FormatInt(index), v)
  }

  /** Reading an array by integer index: the element when in range, `undefined` otherwise. */
  lemma GetIndexOfArray(a: seq<Json>, index: int)
    ensures 0 <= index < |a| ==> GetIndex(Array(a), index) == a[index]
    ensures !(0 <= index < |a|) ==> GetIndex(Array(a), index) == Undefined
  {
    ParseFormatInt(index);
  }

  /** Writing an array by integer index: overwrite in range, append at the end, else nothing. */
  lemma SetIndexOfArray(a: seq<Json>, index: int, v: Json)
    ensures 0 <= index < |a| ==> SetIndex(Array(a), index, v) == Array(a[index := v])
    ensures index == |a| ==> SetIndex(Array(a), index, v) == Array(a + [v])
    ensures index < 0 || index > |a| ==> SetIndex(Array(a), index, v) == Array(a)
  {
    ParseFormatInt(index);
  }

  /** The `JSON` subscript: `json[JSON.stringValue(key)]`. */
  function GetByKey(j: Json, key: Json): (r: Json)
    ensures key.String? ==> r == PropertyGet(j, key.s)
    ensures key.Number? ==> r == GetIndex(j, key.n)
    ensures !j.Array? && !j.Object? ==> r == Undefined
  {
    PropertyGet(j, StringValue(key))
  }

  /** The `JSON` subscript setter: `json[JSON.stringValue(key)] = v`. */
  function SetByKey(j: Json, key: Json, v: Json): (r: Json)
    ensures TypeOf(r) == TypeOf(j)
    ensures key.String? ==> r == PropertySet(j, key.s, v)
    ensures key.Number? ==> r == SetIndex(j, key.n, v)
  {
    PropertySet(j, StringValue(key), v)
  }

  /** A JSON number key reads like the integer subscript, a JSON string key like the string one. */
  lemma GetByKeyCoerces(j: Json, n: int, s: string)
    ensures GetByKey(j, Number(n)) == GetIndex(j, n)
    ensures GetByKey(j, String(s)) == PropertyGet(j, s)
    ensures SetByKey(j, Number(n), String(s)) == SetIndex(j, n, String(s))
  {
  }

  /** A one-element array key reads like its element: `arr[[1]]` is `arr[1]`. */
  lemma GetBySingletonKey(j: Json, k: Json)
    ensures GetByKey(j, Array([k])) == GetByKey(j, k)
  {
  }

  // ----- Finding: negative index keys -----

  /**
   * `propertyCheck(key:)` as written: for an array, `Int(key)` and `index < count`,
   * with no lower bound on the index.
   */
  predicate PropertyCheckAsWritten(j: Json, key: string)
    ensures PropertyCheckAsWritten(j, key) ==> j.Array? || j.Object?
    ensures !j.Array? ==> (PropertyCheckAsWritten(j, key) <==> HasOwnProperty(j, key))
    ensures j.Array? && IndexKey(key).Some? && IndexKey(key).value <= INT64_MAX ==>
      (PropertyCheckAsWritten(j, key) <==> HasOwnProperty(j, key))
  {
    match j
    case Array(a) => ParseInt64(key).Some? && ParseInt64(key).value < |a|
    case Object(m) => key in m
    case _ => false
  }

  /**
   * On a non-empty array the written check reports a property "-1", which names no
   * element: the get and set guards let the same key through to an out-of-range
   * subscript.
   */
  lemma NegativeKeyReported()
    ensures PropertyCheckAsWritten(Array([Null]), "-1")
    ensures ParseInt64("-1") == Some(-1)
    ensures !HasOwnProperty(Array([Null]), "-1")
    ensures PropertyGet(Array([Null]), "-1") == Undefined
  {
    assert "-1"[1..] == "1";
  }

  /** On every key that is not negative and fits in 64 bits, the written check and the corrected one agree. */
  lemma PropertyCheckAgrees(j: Json, key: string)
    requires ParseSigned(key).Some? ==> 0 <= ParseSigned(key).value <= INT64_MAX
    ensures PropertyCheckAsWritten(j, key) <==> HasOwnProperty(j, key)
  {
  }

  // ----- array-like helpers -----

  /** `lengthValue`: the character count of a string, the element count of an array. */
  function LengthValue(j: Json): (r: Option<nat>)
    ensures r.Some? <==> Elements(j).Some?
    ensures r.Some? ==> r.value == |Elements(j).value|
  {
    match j
    case String(s) => Some(|s|)
    case Array(a) => Some(|a|)
    case _ => None
  }

  /** `_length()`: the length as a JSON number, or `undefined`. */
  function Length(j: Json): (r: Json)
    ensures r.Undefined? <==> LengthValue(j).None?
    ensures r.Number? ==> r.n == LengthValue(j).value
  {
    FromValue(match LengthValue(j) case Some(n) => Some(NumberPayload(n)) case None => None)
  }

  /** The `elements` getter: one-character strings of a string, the elements of an array. */
  function Elements(j: Json): (r: Option<seq<Json>>)
    ensures r.Some? <==> j.String? || j.Array?
    ensures j.Array? ==> r == Some(j.elements)
    ensures j.String? ==> |r.value| == |j.s| && forall i :: 0 <= i < |j.s| ==> r.value[i] == String([j.s[i]])
  {
    match j
    case String(s) => Some(seq(|s|, i requires 0 <= i < |s| => String([s[i]])))
    case Array(a) => Some(a)
    case _ => None
  }

  /**
   * The `elements` setter with a new list: a string becomes the joined string values
   * of the list, an array becomes the list; other values stay as they are.
   */
  function WithElements(j: Json, es: seq<Json>): Json {
    match j
    case String(_) => String(Concat(StringValues(es)))
    case Array(_) => Array(es)
    case _ => j
  }

  /** Writing back the elements just read leaves the value unchanged. */
  lemma {:induction false} ElementsRoundTrip(j: Json)
    requires Elements(j).Some?
    ensures WithElements(j, Elements(j).value) == j
  {
    if j.String? {
      assert StringValues(Elements(j).value) == Characters(j.s);
      ConcatCharacters(j.s);
    }
  }

  /** The string values of a string's one-character elements are its characters. */
  lemma StringElementValues(s: string)
    ensures StringValues(Elements(String(s)).value) == Characters(s)
  {
  }

  /** `_push`: the elements with `x` appended, written back. */
  function Pushed(j: Json, x: Json): (r: Json)
    ensures TypeOf(r) == TypeOf(j)
    ensures Elements(j).None? ==> r == j
    ensures j.Array? ==> r.elements == j.elements + [x]
  {
    match Elements(j)
    case None => j
    case Some(es) => WithElements(j, es + [x])
  }

  /** `_pop`: the value with its last element removed, and that element (`undefined` if none). */
  function Popped(j: Json): (r: (Json, Json))
    ensures TypeOf(r.0) == TypeOf(j)
    ensures Elements(j).None? || Elements(j) == Some([]) ==> r == (j, Undefined)
    ensures j.Array? && j.elements != [] ==>
      r.0.elements == j.elements[..|j.elements| - 1] && r.1 == j.elements[|j.elements| - 1]
  {
    match Elements(j)
    case None => (j, Undefined)
    case Some(es) =>
      if es == [] then (WithElements(j, es), Undefined)
      else (WithElements(j, es[..|es| - 1]), es[|es| - 1])
  }

  /** Pushing onto an array appends; pushing onto a string appends the value's string form. */
  lemma {:induction false} PushedShape(j: Json, x: Json)
    ensures j.Array? ==> Pushed(j, x) == Array(j.elements + [x])
    ensures j.String? ==> Pushed(j, x) == String(j.s + StringValue(x))
    ensures !j.Array? && !j.String? ==> Pushed(j, x) == j
  {
    if j.String? {
      PushedString(j.s, x);
    }
  }

  lemma PushedString(s: string, x: Json)
    ensures Pushed(String(s), x) == String(s + StringValue(x))
  {
    var es := Elements(String(s)).value;
    var texts := StringValues(es + [x]);
    assert Pushed(String(s), x) == String(Concat(texts));
    StringElementValues(s);
    assert texts == Characters(s) + [StringValue(x)];
    ConcatAppend(Characters(s), StringValue(x));
    ConcatCharacters(s);
  }

  /** Popping a string removes and returns its last character; popping a non-list gives `undefined`. */
  lemma {:induction false} PoppedShape(j: Json)
    ensures j.Array? && j.elements != [] ==>
      Popped(j) == (Array(j.elements[..|j.elements| - 1]), j.elements[|j.elements| - 1])
    ensures j.String? && j.s != [] ==>
      Popped(j) == (String(j.s[..|j.s| - 1]), String([j.s[|j.s| - 1]]))
    ensures LengthValue(j) == Some(0) ==> Popped(j) == (j, Undefined)
    ensures LengthValue(j).None? ==> Popped(j) == (j, Undefined)
  {
    if j.String? {
      var es := Elements(j).value;
      if es != [] {
        var prefix := j.s[..|j.s| - 1];
        assert es[..|es| - 1] == Elements(String(prefix)).value;
        StringElementValues(prefix);
        ConcatCharacters(prefix);
      } else {
        ElementsRoundTrip(j);
      }
    }
  }

  /** Pop undoes push on an array, and on a string when the pushed value is one character. */
  lemma PopUndoesPush(j: Json, x: Json)
    requires j.Array? || (j.String? && x.String? && |x.s| == 1)
    ensures Popped(Pushed(j, x)) == (j, x)
  {
    PushedShape(j, x);
    if j.String? {
      assert x == String([x.s[0]]);
      PopAfterAppendCharacter(j.s, x.s[0]);
    } else {
      PopAfterAppendElement(j.elements, x);
    }
  }

  /** Popping a string that ends in `c` gives back the rest and `c`. */
  lemma PopAfterAppendCharacter(s: string, c: char)
    ensures Popped(String(s + [c])) == (String(s), String([c]))
  {
    PoppedShape(String(s + [c]));
    assert (s + [c])[..|s|] == s;
  }

  /** Popping an array that ends in `x` gives back the rest and `x`. */
  lemma PopAfterAppendElement(es: seq<Json>, x: Json)
    ensures Popped(Array(es + [x])) == (Array(es), x)
  {
    PoppedShape(Array(es + [x]));
    assert (es + [x])[..|es|] == es;
  }

  /** The calls `_forEach` makes: each element with its index, in order. */
  function ForEachCalls(j: Json): (calls: seq<(Json, int)>)
    ensures Elements(j).None? ==> calls == []
    ensures Elements(j).Some? ==> |calls| == |Elements(j).value|
    ensures forall i :: 0 <= i < |calls| ==> calls[i] == (Elements(j).value[i], i)
  {
    match Elements(j)
    case None => []
    case Some(es) => seq(|es|, i requires 0 <= i < |es| => (es[i], i))
  }

  /**
   * `_forEach(block)` with the two-argument block: the calls it makes, recorded in order.
   * A value without elements makes no call.
   */
  method ForEach(j: Json) returns (calls: seq<(Json, int)>)
    ensures calls == ForEachCalls(j)
  {
    calls := [];
    var es := Elements(j);
    if es.None? {
      return;
    }
    var elements := es.value;
    for index := 0 to |elements|
      invariant calls == ForEachCalls(j)[..index]
    {
      calls := calls + [(elements[index], index)];
    }
    assert ForEachCalls(j)[..|elements|] == ForEachCalls(j);
  }

  /** `_forEach(block)` with the one-argument block: the elements it is called with, in order. */
  method ForEachElement(j: Json) returns (calls: seq<Json>)
    ensures |calls| == |ForEachCalls(j)|
    ensures forall i :: 0 <= i < |calls| ==> calls[i] == ForEachCalls(j)[i].0
  {
    var indexed := ForEach(j);
    calls := [];
    for n := 0 to |indexed|
      invariant |calls| == n
      invariant forall i :: 0 <= i < n ==> calls[i] == indexed[i].0
    {
      calls := calls + [indexed[n].0];
    }
  }

  /**
   * `_forEach` calls the block once per unit of `_length()`, and `_modEach` gives its block
   * the same (element, index) pairs in the same order, writing back what the block makes of them.
   */
  lemma ForEachAgrees(j: Json, f: (Json, int) -> Json)
    ensures LengthValue(j).Some? ==> |ForEachCalls(j)| == LengthValue(j).value
    ensures LengthValue(j).None? ==> ForEachCalls(j) == [] && Modified(j, f) == j
    ensures Elements(j).Some? ==> Modified(j, f) == WithElements(j, Replayed(ForEachCalls(j), f))
  {
    if Elements(j).Some? {
      var es := Elements(j).value;
      var modified := seq(|es|, i requires 0 <= i < |es| => f(es[i], i));
      assert Modified(j, f) == WithElements(j, modified);
      assert modified == Replayed(ForEachCalls(j), f);
    }
  }

  /** What a block makes of each recorded (element, index) call. */
  function Replayed(calls: seq<(Json, int)>, f: (Json, int) -> Json): seq<Json> {
    seq(|calls|, i requires 0 <= i < |calls| => f(calls[i].0, calls[i].1))
  }

  /** What `_modEach` leaves behind when the block turns the element at index `i` into `f(element, i)`. */
  function Modified(j: Json, f: (Json, int) -> Json): (r: Json)
    ensures TypeOf(r) == TypeOf(j)
    ensures Elements(j).None? ==> r == j
    ensures j.Array? ==> |r.elements| == |j.elements|
    ensures j.Array? ==> forall i :: 0 <= i < |j.elements| ==> r.elements[i] == f(j.elements[i], i)
  {
    match Elements(j)
    case None => j
    case Some(es) => WithElements(j, seq(|es|, i requires 0 <= i < |es| => f(es[i], i)))
  }

  /** A block that leaves every element alone leaves the value alone. */
  lemma ModifiedByIdentity(j: Json)
    ensures Modified(j, (x, i) => x) == j
  {
    if Elements(j).Some? {
      var es := Elements(j).value;
      assert seq(|es|, i requires 0 <= i < |es| => ((x, k) => x)(es[i], i)) == es;
      ElementsRoundTrip(j);
    }
  }

  /** `_modEach` keeps an array's length and rewrites each element independently. */
  lemma ModifiedArray(a: seq<Json>, f: (Json, int) -> Json)
    ensures Modified(Array(a), f).Array?
    ensures |Modified(Array(a), f).elements| == |a|
    ensures forall i :: 0 <= i < |a| ==> Modified(Array(a), f).elements[i] == f(a[i], i)
  {
  }

  /** A variable holding a JSON value: the receiver of the `mutating` operations. */
  class JsonVar {
    var value: Json

    constructor(v: Json)
      ensures value == v
    {
      value := v;
    }

    /** `JSON.delete(data:)`: the variable becomes `undefined`. */
    method Delete()
      modifies this
      ensures value == Undefined
    {
      value := Undefined;
    }

    /** `json[key] = v`. */
    method SetProperty(key: string, v: Json)
      modifies this
      ensures value == PropertySet(old(value), key, v)
    {
      value := PropertySet(value, key, v);
    }

    /** `_push(x)`: append, then answer the new length. */
    method Push(x: Json) returns (length: Json)
      modifies this
      ensures value == Pushed(old(value), x)
      ensures length == Length(value)
    {
      var es := Elements(value);
      if es.Some? {
        value := WithElements(value, es.value + [x]);
      }
      length := Length(value);
    }

    /** `_pop()`: remove and answer the last element, or `undefined`. */
    method Pop() returns (last: Json)
      modifies this
      ensures (value, last) == Popped(old(value))
    {
      var es := Elements(value);
      if es.None? {
        return Undefined;
      }
      var elements := es.value;
      if elements == [] {
        value := WithElements(value, elements);
        return Undefined;
      }
      last := elements[|elements| - 1];
      value := WithElements(value, elements[..|elements| - 1]);
    }

    /** `_modEach(block)`: give the block each element and index in turn, then write the list back. */
    method ModEach(f: (Json, int) -> Json)
      modifies this
      ensures value == Modified(old(value), f)
    {
      var es := Elements(value);
      if es.None? {
        return;
      }
      var elements := es.value;
      for index := 0 to |elements|
        invariant |elements| == |es.value|
        invariant forall k :: 0 <= k < index ==> elements[k] == f(es.value[k], k)
        invariant forall k :: index <= k < |elements| ==> elements[k] == es.value[k]
      {
        elements := elements[index := f(elements[index], index)];
      }
      assert elements == seq(|es.value|, i requires 0 <= i < |es.value| => f(es.value[i], i));
      value := WithElements(value, elements);
    }
  }
}
