/**
 * `JSON.stringify`: before a value is handed to the platform serializer, every
 * `undefined` is pruned from it (array elements are dropped, object fields left
 * out), and a value that is itself `undefined` prints as the text "undefined".
 *
 * The platform serializer (`JSONSerialization`) is not part of this model: it is a
 * parameter, the function from a pruned value to its text.
 */
module JsonStringify {
  import opened Wrappers
  import opened JsonValue

  /** No `undefined` anywhere in the value. */
  predicate Defined(j: Json) {
    match j
    case Undefined => false
    case Array(a) => forall i :: 0 <= i < |a| ==> Defined(a[i])
    case Object(m) => forall k :: k in m ==> Defined(m[k])
    case _ => true
  }

  /** What `nsObjectify()` builds: `None` for `undefined`, otherwise the value with every `undefined` removed. */
  function Pruned(j: Json): (r: Option<Json>)
    ensures r.None? <==> j.Undefined?
    ensures r.Some? ==> TypeOf(r.value) == TypeOf(j)
    ensures !j.Array? && !j.Object? && r.Some? ==> r.value == j
    ensures j.Object? && r.Some? ==> r.value.fields.Keys <= j.fields.Keys
    decreases j, 1
  {
    match j
    case Undefined => None
    case Array(a) => Some(Array(PrunedElements(a)))
    case Object(m) => Some(Object(PrunedFields(m)))
    case _ => Some(j)
  }

  /** The fields whose values survive pruning, pruned. */
  function PrunedFields(m: map<string, Json>): map<string, Json>
    decreases Object(m), 0
  {
    map k | k in m && Pruned(m[k]).Some? :: Pruned(m[k]).value
  }

  /** The pruned elements that remain, in their original order. */
  function PrunedElements(a: seq<Json>): seq<Json> {
    if a == [] then []
    else
      (match Pruned(a[0]) case None => [] case Some(x) => [x]) + PrunedElements(a[1..])
  }

  /** Only `undefined` itself prunes to nothing. */
  lemma PrunedNone(j: Json)
    ensures Pruned(j).None? <==> j.Undefined?
  {
  }

  lemma {:induction false} PrunedElementsAppend(a: seq<Json>, x: Json)
    ensures PrunedElements(a + [x]) ==
      PrunedElements(a) + (match Pruned(x) case None => [] case Some(y) => [y])
  {
    if a != [] {
      assert (a + [x])[1..] == a[1..] + [x];
      PrunedElementsAppend(a[1..], x);
    }
  }

  /** The elements of `a` that are not `undefined`, in order. */
  function WithoutUndefined(a: seq<Json>): (r: seq<Json>)
    ensures |r| <= |a|
    ensures forall i :: 0 <= i < |r| ==> !r[i].Undefined?
  {
    if a == [] then []
    else if a[0].Undefined? then WithoutUndefined(a[1..])
    else [a[0]] + WithoutUndefined(a[1..])
  }

  /** Pruning an array drops exactly its `undefined` elements and prunes the rest in place, keeping their order. */
  lemma {:induction false} PrunedElementsKeepOrder(a: seq<Json>)
    ensures |PrunedElements(a)| == |WithoutUndefined(a)|
    ensures forall i :: 0 <= i < |PrunedElements(a)| ==>
      Some(PrunedElements(a)[i]) == Pruned(WithoutUndefined(a)[i])
  {
    if a != [] {
      PrunedElementsKeepOrder(a[1..]);
      PrunedNone(a[0]);
    }
  }

  /** An object field survives pruning exactly when its value is not `undefined`. */
  lemma PrunedFieldsKept(m: map<string, Json>, key: string)
    ensures key in Pruned(Object(m)).value.fields <==> key in m && !m[key].Undefined?
    ensures key in Pruned(Object(m)).value.fields ==>
      Some(Pruned(Object(m)).value.fields[key]) == Pruned(m[key])
  {
    if key in m {
      PrunedNone(m[key]);
    }
  }

  /** Whatever pruning returns contains no `undefined`. */
  lemma {:induction false} PrunedIsDefined(j: Json)
    ensures Pruned(j).Some? ==> Defined(Pruned(j).value)
  {
    match j
    case Array(a) => PrunedElementsAreDefined(a);
    case Object(m) =>
      forall k | k in m && Pruned(m[k]).Some?
        ensures Defined(Pruned(m[k]).value)
      {
        PrunedIsDefined(m[k]);
      }
    case _ =>
  }

  lemma {:induction false} PrunedElementsAreDefined(a: seq<Json>)
    ensures forall i :: 0 <= i < |PrunedElements(a)| ==> Defined(PrunedElements(a)[i])
  {
    if a != [] {
      PrunedIsDefined(a[0]);
      PrunedElementsAreDefined(a[1..]);
    }
  }

  /** A value with no `undefined` in it passes through pruning unchanged. */
  lemma {:induction false} PrunedOfDefined(j: Json)
    requires Defined(j)
    ensures Pruned(j) == Some(j)
  {
    match j
    case Array(a) => PrunedElementsOfDefined(a);
    case Object(m) =>
      forall k | k in m
        ensures Pruned(m[k]) == Some(m[k])
      {
        PrunedOfDefined(m[k]);
      }
      assert PrunedFields(m) == m;
    case _ =>
  }

  lemma {:induction false} PrunedElementsOfDefined(a: seq<Json>)
    requires forall i :: 0 <= i < |a| ==> Defined(a[i])
    ensures PrunedElements(a) == a
  {
    if a != [] {
      PrunedOfDefined(a[0]);
      PrunedElementsOfDefined(a[1..]);
    }
  }

  /** Pruning twice is pruning once. */
  lemma PruneIdempotent(j: Json)
    requires Pruned(j).Some?
    ensures Pruned(Pruned(j).value) == Pruned(j)
  {
    PrunedIsDefined(j);
    PrunedOfDefined(Pruned(j).value);
  }

  /** Adding one more key of `m` to the pruned part adds that field when its value survives pruning. */
  lemma PrunedFieldsStep(m: map<string, Json>, keys: set<string>, key: string)
    requires keys <= m.Keys && key in keys
    ensures Pruned(m[key]).Some? ==>
      PrunedFields(m - (keys - {key})) == PrunedFields(m - keys)[key := Pruned(m[key]).value]
    ensures Pruned(m[key]).None? ==> PrunedFields(m - (keys - {key})) == PrunedFields(m - keys)
  {
  }

  /** `nsObjectify()`: the recursive walk that drops `undefined` elements and fields. */
  method NsObjectify(j: Json) returns (r: Option<Json>)
    ensures r == Pruned(j)
    decreases j
  {
    match j {
      case Undefined =>
        return None;
      case Array(a) =>
        var kept: seq<Json> := [];
        for i := 0 to |a|
          invariant kept == PrunedElements(a[..i])
        {
          var x := NsObjectify(a[i]);
          assert a[..i + 1] == a[..i] + [a[i]];
          PrunedElementsAppend(a[..i], a[i]);
          if x.Some? {
            kept := kept + [x.value];
          }
        }
        assert a[..|a|] == a;
        return Some(Array(kept));
      case Object(m) =>
        var dictionary: map<string, Json> := map[];
        var keys := m.Keys;
        while keys != {}
          invariant keys <= m.Keys
          invariant dictionary == PrunedFields(m - keys)
          decreases keys
        {
          var key :| key in keys;
          var x := NsObjectify(m[key]);
          PrunedFieldsStep(m, keys, key);
          if x.Some? {
            dictionary := dictionary[key := x.value];
          }
          keys := keys - {key};
        }
        assert m - keys == m;
        return Some(Object(dictionary));
      case _ =>
        return Some(j);
    }
  }

  /**
   * `stringify` / `stringifyData`: the serializer's text for the pruned value, or
   * "undefined" when the value is `undefined`.
   */
  function Stringify(j: Json, serialize: Json -> string): (text: string)
    ensures j.Undefined? ==> text == "undefined"
    ensures !j.Undefined? ==> text == serialize(Pruned(j).value)
  {
    match Pruned(j)
    case None => "undefined"
    case Some(tree) => serialize(tree)
  }

  /** An `undefined` field prints as if it were absent. */
  lemma UndefinedFieldIsOmitted(m: map<string, Json>, key: string, serialize: Json -> string)
    ensures Stringify(Object(m[key := Undefined]), serialize) == Stringify(Object(m - {key}), serialize)
  {
    assert PrunedFields(m[key := Undefined]) == PrunedFields(m - {key});
  }

  /** An `undefined` array element prints as if it were not there. */
  lemma UndefinedElementIsDropped(a: seq<Json>, b: seq<Json>, serialize: Json -> string)
    ensures Stringify(Array(a + [Undefined] + b), serialize) == Stringify(Array(a + b), serialize)
  {
    PrunedElementsConcat(a + [Undefined], b);
    PrunedElementsConcat(a, b);
    PrunedElementsAppend(a, Undefined);
    assert PrunedElements(a + [Undefined]) == PrunedElements(a);
    assert PrunedElements(a + [Undefined] + b) == PrunedElements(a + b);
  }

  lemma {:induction false} PrunedElementsConcat(a: seq<Json>, b: seq<Json>)
    ensures PrunedElements(a + b) == PrunedElements(a) + PrunedElements(b)
  {
    if a != [] {
      assert (a + b)[0] == a[0];
      assert (a + b)[1..] == a[1..] + b;
      PrunedElementsConcat(a[1..], b);
    } else {
      assert a + b == b;
    }
  }
}
