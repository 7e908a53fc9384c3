/**
 * Small extensions of the Swift standard protocols: clamping a comparable
 * value to a range, range membership, `nonEmpty`, removing the first match
 * from a collection in place, and building a dictionary from pairs whose keys
 * repeat.
 *
 * `Comparable` values are modelled as integers and collections as sequences.
 */
module SwiftExtensions {
  import opened Wrappers

  function Max(a: int, b: int): int {
    if a >= b then a else b
  }

  function Min(a: int, b: int): int {
    if a <= b then a else b
  }

  // ----- Comparable -----

  /** `bounded(by: lo...hi)`: the closest value of the range. */
  function Bounded(x: int, lo: int, hi: int): (r: int)
    requires lo <= hi
    ensures lo <= r <= hi
    ensures x < lo ==> r == lo
    ensures hi < x ==> r == hi
  {
    Min(Max(x, lo), hi)
  }

  /** `bounded(by: lo...)`. */
  function BoundedFrom(x: int, lo: int): (r: int)
    ensures lo <= r && (x < lo ==> r == lo)
  {
    Max(x, lo)
  }

  /** `bounded(by: ...hi)`. */
  function BoundedThrough(x: int, hi: int): (r: int)
    ensures r <= hi && (hi < x ==> r == hi)
  {
    Min(x, hi)
  }

  /** `isBounded(by: lo..<hi)`. */
  predicate IsBoundedHalfOpen(x: int, lo: int, hi: int)
    requires lo <= hi
    ensures IsBoundedHalfOpen(x, lo, hi) <==> IsBoundedFrom(x, lo) && IsBoundedUpTo(x, hi)
    ensures lo == hi ==> !IsBoundedHalfOpen(x, lo, hi)
  {
    lo <= x < hi
  }

  /** `isBounded(by: lo...hi)`. */
  predicate IsBoundedClosed(x: int, lo: int, hi: int)
    requires lo <= hi
    ensures IsBoundedClosed(x, lo, hi) <==> Bounded(x, lo, hi) == x
  {
    lo <= x <= hi
  }

  /** `isBounded(by: lo...)`. */
  predicate IsBoundedFrom(x: int, lo: int)
    ensures IsBoundedFrom(x, lo) <==> BoundedFrom(x, lo) == x
  {
    lo <= x
  }

  /** `isBounded(by: ..<hi)`. */
  predicate IsBoundedUpTo(x: int, hi: int)
    ensures IsBoundedUpTo(x, hi) <==> IsBoundedThrough(x, hi - 1)
  {
    x < hi
  }

  /** `isBounded(by: ...hi)`. */
  predicate IsBoundedThrough(x: int, hi: int)
    ensures IsBoundedThrough(x, hi) <==> BoundedThrough(x, hi) == x
  {
    x <= hi
  }

  /** Clamping lands inside the range, changes exactly the values outside it, and a second clamp changes nothing. */
  lemma BoundedFixesTheRange(x: int, lo: int, hi: int)
    requires lo <= hi
    ensures IsBoundedClosed(Bounded(x, lo, hi), lo, hi)
    ensures Bounded(x, lo, hi) == x <==> IsBoundedClosed(x, lo, hi)
    ensures Bounded(Bounded(x, lo, hi), lo, hi) == Bounded(x, lo, hi)
    ensures IsBoundedClosed(x, lo, hi) <==> IsBoundedFrom(x, lo) && IsBoundedThrough(x, hi)
  {
  }

  /** The partial-range clamps fix exactly the values already in their range. */
  lemma PartialBoundedFixesTheRange(x: int, lo: int, hi: int)
    ensures IsBoundedFrom(BoundedFrom(x, lo), lo) && (BoundedFrom(x, lo) == x <==> IsBoundedFrom(x, lo))
    ensures IsBoundedThrough(BoundedThrough(x, hi), hi) && (BoundedThrough(x, hi) == x <==> IsBoundedThrough(x, hi))
    ensures lo <= hi ==> Bounded(x, lo, hi) == BoundedThrough(BoundedFrom(x, lo), hi)
  {
  }

  /** A half-open range is the closed one without its upper bound. */
  lemma HalfOpenIsClosedBelowUpper(x: int, lo: int, hi: int)
    requires lo <= hi
    ensures IsBoundedHalfOpen(x, lo, hi) <==> IsBoundedClosed(x, lo, hi) && IsBoundedUpTo(x, hi)
  {
  }

  // ----- Collection -----

  /** `nonEmpty`: nil for an empty collection, otherwise the collection itself. */
  function NonEmpty<T>(s: seq<T>): (r: Option<seq<T>>)
    ensures r.None? <==> |s| == 0
    ensures r.Some? ==> r.value == s
  {
    if |s| == 0 then None else Some(s)
  }

  /** `firstIndex(where:)`: the position of the first element that satisfies the predicate. */
  function FirstIndexWhere<T>(s: seq<T>, matches: T -> bool): (r: Option<nat>)
    ensures r.None? <==> forall k :: 0 <= k < |s| ==> !matches(s[k])
    ensures r.Some? ==> r.value < |s| && matches(s[r.value])
    ensures r.Some? ==> forall k :: 0 <= k < r.value ==> !matches(s[k])
  {
    if s == [] then None
    else if matches(s[0]) then Some(0)
    else
      match FirstIndexWhere(s[1..], matches)
      case None => None
      case Some(i) => Some(i + 1)
  }

  /** The collection and the result after `removeFirst(objectWhere:)`. */
  function RemovingFirst<T>(s: seq<T>, matches: T -> bool): (r: (seq<T>, Option<T>))
    ensures r.1.None? <==> forall k :: 0 <= k < |s| ==> !matches(s[k])
    ensures r.1.None? ==> r.0 == s
    ensures r.1.Some? ==> matches(r.1.value) && |r.0| == |s| - 1
  {
    match FirstIndexWhere(s, matches)
    case None => (s, None)
    case Some(i) => (s[..i] + s[i + 1..], Some(s[i]))
  }

  /**
   * With no match nothing changes and nothing is returned; otherwise the
   * first match is returned, the count drops by one, the other elements keep
   * their order, and the contents lose exactly that element.
   */
  lemma RemovingFirstFacts<T>(s: seq<T>, matches: T -> bool)
    ensures var (rest, removed) := RemovingFirst(s, matches);
      (removed.None? <==> forall k :: 0 <= k < |s| ==> !matches(s[k])) &&
      (removed.None? ==> rest == s) &&
      (removed.Some? ==>
        matches(removed.value) && |rest| == |s| - 1 &&
        multiset(rest) + multiset{removed.value} == multiset(s) &&
        exists i :: 0 <= i < |s| && s[i] == removed.value && rest == s[..i] + s[i + 1..] &&
          forall k :: 0 <= k < i ==> !matches(s[k]))
  {
    var r := FirstIndexWhere(s, matches);
    if r.Some? {
      var i := r.value;
      assert s == s[..i] + [s[i]] + s[i + 1..];
      assert multiset(s) == multiset(s[..i]) + multiset{s[i]} + multiset(s[i + 1..]);
    }
  }

  /** A value-type collection that `removeFirst` updates in place. */
  class ReplaceableCollection<T(==)> {
    var elements: seq<T>

    constructor(elements: seq<T>)
      ensures this.elements == elements
    {
      this.elements := elements;
    }

    /** `removeFirst(objectWhere:)`. */
    method RemoveFirstWhere(matches: T -> bool) returns (removed: Option<T>)
      modifies this
      ensures (elements, removed) == RemovingFirst(old(elements), matches)
    {
      var index := FirstIndexWhere(elements, matches);
      if index.Some? {
        var i := index.value;
        removed := Some(elements[i]);
        elements := elements[..i] + elements[i + 1..];
      } else {
        removed := None;
      }
    }

    /** `removeFirst(object:)`: the first element equal to the target, if any. */
    method RemoveFirstObject(target: T) returns (removed: Option<T>)
      modifies this
      ensures removed.None? <==> target !in old(elements)
      ensures removed.None? ==> elements == old(elements)
      ensures removed.Some? ==> removed.value == target && |elements| == |old(elements)| - 1
      ensures removed.Some? ==> multiset(elements) + multiset{target} == multiset(old(elements))
      ensures removed.Some? ==>
        exists i :: 0 <= i < |old(elements)| && old(elements)[i] == target &&
          target !in old(elements)[..i] && elements == old(elements)[..i] + old(elements)[i + 1..]
    {
      ghost var before := elements;
      RemovingFirstFacts(before, y => y == target);
      removed := RemoveFirstWhere(y => y == target);
      if removed.Some? {
        ghost var i :| 0 <= i < |before| && before[i] == removed.value && elements == before[..i] + before[i + 1..] &&
          forall k :: 0 <= k < i ==> before[k] != target;
        assert target !in before[..i];
      }
    }
  }

  // ----- Dictionary -----

  /** `Dictionary(takingFirst:)`: a repeated key keeps its first value. */
  function TakingFirst<K(==), V>(pairs: seq<(K, V)>): (m: map<K, V>)
    ensures forall i :: 0 <= i < |pairs| ==> pairs[i].0 in m
  {
    if pairs == [] then map[]
    else
      var m := TakingFirst(pairs[..|pairs| - 1]);
      var (k, v) := pairs[|pairs| - 1];
      if k in m then m else m[k := v]
  }

  /** `Dictionary(takingLast:)`: a repeated key keeps its last value. */
  function TakingLast<K(==), V>(pairs: seq<(K, V)>): (m: map<K, V>)
    ensures forall i :: 0 <= i < |pairs| ==> pairs[i].0 in m
  {
    if pairs == [] then map[]
    else
      var (k, v) := pairs[|pairs| - 1];
      TakingLast(pairs[..|pairs| - 1])[k := v]
  }

  predicate FirstOfKey<K(==), V>(pairs: seq<(K, V)>, i: int)
    requires 0 <= i < |pairs|
  {
    forall j :: 0 <= j < i ==> pairs[j].0 != pairs[i].0
  }

  predicate LastOfKey<K(==), V>(pairs: seq<(K, V)>, i: int)
    requires 0 <= i < |pairs|
  {
    forall j :: i < j < |pairs| ==> pairs[j].0 != pairs[i].0
  }

  /** Every key of the pairs is in the dictionary, with the value of its first occurrence. */
  lemma {:induction false} TakingFirstKeepsFirst<K, V>(pairs: seq<(K, V)>)
    ensures TakingFirst(pairs).Keys == set p | p in pairs :: p.0
    ensures forall i :: 0 <= i < |pairs| && FirstOfKey(pairs, i) ==> TakingFirst(pairs)[pairs[i].0] == pairs[i].1
  {
    if pairs != [] {
      var n := |pairs| - 1;
      var prefix := pairs[..n];
      TakingFirstKeepsFirst(prefix);
      assert pairs == prefix + [pairs[n]];
      forall i | 0 <= i < |pairs| && FirstOfKey(pairs, i)
        ensures TakingFirst(pairs)[pairs[i].0] == pairs[i].1
      {
        if i < n {
          assert prefix[i] == pairs[i];
          assert FirstOfKey(prefix, i);
        } else {
          assert pairs[n].0 !in TakingFirst(prefix);
        }
      }
    }
  }

  /** Every key of the pairs is in the dictionary, with the value of its last occurrence. */
  lemma {:induction false} TakingLastKeepsLast<K, V>(pairs: seq<(K, V)>)
    ensures TakingLast(pairs).Keys == set p | p in pairs :: p.0
    ensures forall i :: 0 <= i < |pairs| && LastOfKey(pairs, i) ==> TakingLast(pairs)[pairs[i].0] == pairs[i].1
  {
    if pairs != [] {
      var n := |pairs| - 1;
      var prefix := pairs[..n];
      TakingLastKeepsLast(prefix);
      assert pairs == prefix + [pairs[n]];
      forall i | 0 <= i < |pairs| && LastOfKey(pairs, i)
        ensures TakingLast(pairs)[pairs[i].0] == pairs[i].1
      {
        if i < n {
          assert prefix[i] == pairs[i];
          assert LastOfKey(prefix, i);
          assert pairs[n].0 != pairs[i].0;
        }
      }
    }
  }
}
