/**
 * Types with a fixed list of instances (`allCases`) that are coded,
 * compared and hashed by their identifier alone.
 *
 * A conforming type is modelled by its list of cases and by the function
 * giving each value's identifier; the single-value coding container is the
 * identifier itself.
 */
module StaticCodable {
  import opened Wrappers

  datatype StaticCodableError = IdentifierNotRecognized

  /** `allCases.first(where: { $0.id == key })`, as a position. */
  function FirstWithId<T, I(==)>(cases: seq<T>, id: T -> I, key: I): (r: Option<nat>)
    ensures r.None? <==> forall k :: 0 <= k < |cases| ==> id(cases[k]) != key
    ensures r.Some? ==> r.value < |cases| && id(cases[r.value]) == key
    ensures r.Some? ==> forall k :: 0 <= k < r.value ==> id(cases[k]) != key
  {
    if cases == [] then None
    else if id(cases[0]) == key then Some(0)
    else
      match FirstWithId(cases[1..], id, key)
      case None => None
      case Some(i) => Some(i + 1)
  }

  /** `init(from:)`: the first case with the decoded identifier, or `identifierNotRecognized`. */
  function Decode<T, I(==)>(allCases: seq<T>, id: T -> I, key: I): (r: Result<T, StaticCodableError>)
    ensures r.Failure? <==> forall k :: 0 <= k < |allCases| ==> id(allCases[k]) != key
    ensures r.Failure? ==> r.error == IdentifierNotRecognized
    ensures r.Success? ==> id(r.value) == key
  {
    match FirstWithId(allCases, id, key)
    case None => Failure(IdentifierNotRecognized)
    case Some(i) => Success(allCases[i])
  }

  /** `encode(to:)`: only the identifier is written. */
  function Encode<T, I(==)>(x: T, id: T -> I): (key: I)
    ensures Decode([x], id, key) == Success(x)
  {
    id(x)
  }

  /** `==`: same identifier. */
  predicate Equal<T, I(==)>(a: T, b: T, id: T -> I)
    ensures Equal(a, b, id) <==> Encode(a, id) == Encode(b, id)
  {
    id(a) == id(b)
  }

  /** `hash(into:)`: only the identifier is fed to the hasher. */
  function Hash<T, I(==)>(x: T, id: T -> I, hashId: I -> int): (h: int)
    ensures h == hashId(Encode(x, id))
  {
    hashId(id(x))
  }

  predicate Listed<T, I(==)>(allCases: seq<T>, id: T -> I, x: T) {
    exists k :: 0 <= k < |allCases| && id(allCases[k]) == id(x)
  }

  /**
   * `<`: the first position of each value in `allCases`, found with the
   * identifier equality; a value with no listed case is a fatal error.
   */
  predicate Less<T, I(==)>(allCases: seq<T>, id: T -> I, a: T, b: T)
    requires Listed(allCases, id, a) && Listed(allCases, id, b)
    ensures Less(allCases, id, a, b) ==> !Equal(a, b, id)
    ensures Less(allCases, id, a, b) ==>
      exists i, j :: 0 <= i < j < |allCases| && id(allCases[i]) == id(a) && id(allCases[j]) == id(b)
  {
    FirstWithId(allCases, id, id(a)).value < FirstWithId(allCases, id, id(b)).value
  }

  /** Decoding succeeds exactly for a listed identifier, and then gives the first case that carries it. */
  lemma DecodeFindsFirst<T, I>(allCases: seq<T>, id: T -> I, key: I)
    ensures Decode(allCases, id, key).Failure? <==> forall k :: 0 <= k < |allCases| ==> id(allCases[k]) != key
    ensures Decode(allCases, id, key).Success? ==>
      exists i :: 0 <= i < |allCases| && Decode(allCases, id, key).value == allCases[i] && id(allCases[i]) == key &&
        forall k :: 0 <= k < i ==> id(allCases[k]) != key
  {
  }

  /** Encoding a listed value and decoding the result gives a value equal to it, though possibly another case with its identifier. */
  lemma RoundTrip<T, I>(allCases: seq<T>, id: T -> I, x: T)
    requires Listed(allCases, id, x)
    ensures Decode(allCases, id, Encode(x, id)).Success?
    ensures Equal(Decode(allCases, id, Encode(x, id)).value, x, id)
  {
  }

  /** Two cases that share an identifier: decoding the second one's identifier gives the first. */
  lemma SharedIdDecodesToFirst<T, I>(first: T, second: T, id: T -> I)
    requires id(first) == id(second)
    ensures Decode([first, second], id, Encode(second, id)) == Success(first)
    ensures Equal(first, second, id)
  {
  }

  /** Equal values hash alike, whatever the identifier's hash function. */
  lemma HashConsistent<T, I>(a: T, b: T, id: T -> I, hashId: I -> int)
    requires Equal(a, b, id)
    ensures Hash(a, id, hashId) == Hash(b, id, hashId)
  {
  }

  /** On listed values `<` is a strict total order of the identifiers, and it does not separate equal values. */
  lemma LessIsStrictTotalOrder<T, I>(allCases: seq<T>, id: T -> I, a: T, b: T, c: T)
    requires Listed(allCases, id, a) && Listed(allCases, id, b) && Listed(allCases, id, c)
    ensures !Less(allCases, id, a, a)
    ensures Less(allCases, id, a, b) ==> !Less(allCases, id, b, a)
    ensures Less(allCases, id, a, b) && Less(allCases, id, b, c) ==> Less(allCases, id, a, c)
    ensures Equal(a, b, id) <==> !Less(allCases, id, a, b) && !Less(allCases, id, b, a)
  {
    var ia := FirstWithId(allCases, id, id(a)).value;
    var ib := FirstWithId(allCases, id, id(b)).value;
    if ia == ib {
      assert id(a) == id(allCases[ia]) == id(b);
    }
  }
}
