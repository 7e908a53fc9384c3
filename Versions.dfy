/**
 * `Version`: a dotted list of unsigned integers ("1", "1.2", "v1.2.3"), compared in
 * the context of support ranges. A missing trailing component means "any": for
 * `isLower` it stands for the largest possible value, for `isHigher` for the smallest,
 * and `isWithin` ignores it.
 */
module Versions {
  import opened Wrappers
  import opened Text

  /** Swift's `UInt` on a 64-bit platform. */
  predicate IsUInt(n: nat) {
    n <= UINT64_MAX
  }

  datatype Version = Version(components: seq<nat>)

  /** Every version has a major component, and every component fits a `UInt`. */
  predicate Valid(v: Version) {
    |v.components| >= 1 && forall i :: 0 <= i < |v.components| ==> IsUInt(v.components[i])
  }

  // ----- parsing and printing -----

  /** `compactMap { UInt($0) }` followed by the count check: every piece must parse. */
  function ParseAll(pieces: seq<string>): (r: Option<seq<nat>>)
    ensures r.Some? ==> |r.value| == |pieces|
    ensures r.Some? ==> forall i :: 0 <= i < |pieces| ==> ParseUInt64(pieces[i]) == Some(r.value[i] as int)
    ensures r.None? ==> exists i :: 0 <= i < |pieces| && ParseUInt64(pieces[i]).None?
  {
    if pieces == [] then Some([])
    else
      match ParseUInt64(pieces[0])
      case None => None
      case Some(n) =>
        match ParseAll(pieces[1..])
        case None => None
        case Some(rest) => Some([n as nat] + rest)
  }

  /** `init?(value:)`: nothing for an empty text, one leading `v` or `V` dropped, then dot-separated `UInt`s. */
  function Parse(s: string): (r: Option<Version>)
    ensures s == "" ==> r.None?
    ensures r.Some? ==> Valid(r.value)
  {
    if s == "" then None
    else
      var body := if s[0] == 'v' || s[0] == 'V' then s[1..] else s;
      match ParseAll(Split(body, '.'))
      case None => None
      case Some(components) => Some(Version(components))
  }

  /** The decimal text of each component. */
  function ComponentTexts(components: seq<nat>): (r: seq<string>)
    ensures |r| == |components|
    ensures forall i :: 0 <= i < |r| ==> r[i] == FormatNat(components[i])
  {
    if components == [] then [] else [FormatNat(components[0])] + ComponentTexts(components[1..])
  }

  /** `description`: the components joined with dots. */
  function Description(v: Version): (s: string)
    ensures v.components != [] ==> Split(s, '.') == ComponentTexts(v.components)
  {
    var texts := ComponentTexts(v.components);
    TextsHaveNoDot(v.components);
    if texts == [] then Join(texts, ".")
    else SplitJoin(texts, '.'); Join(texts, ".")
  }

  /** No component's decimal text holds a dot. */
  lemma TextsHaveNoDot(components: seq<nat>)
    ensures forall i :: 0 <= i < |components| ==> '.' !in ComponentTexts(components)[i]
  {
    var texts := ComponentTexts(components);
    forall i | 0 <= i < |texts|
      ensures '.' !in texts[i]
    {
      assert AllDigits(texts[i]);
    }
  }

  lemma {:induction false} JoinStartsWithFirst(parts: seq<string>, sep: string)
    requires parts != [] && parts[0] != []
    ensures |Join(parts, sep)| >= 1 && Join(parts, sep)[0] == parts[0][0]
  {
  }

  lemma {:induction false} ParseAllTexts(components: seq<nat>)
    requires forall i :: 0 <= i < |components| ==> IsUInt(components[i])
    ensures ParseAll(ComponentTexts(components)) == Some(components)
  {
    var texts := ComponentTexts(components);
    if components != [] {
      var first := components[0];
      var rest := components[1..];
      ParseFormatNat(first);
      assert texts[0] == FormatNat(first);
      assert ParseUInt64(texts[0]) == Some(first as int);
      assert texts[1..] == ComponentTexts(rest);
      assert forall i :: 0 <= i < |rest| ==> IsUInt(rest[i]) by {
        forall i | 0 <= i < |rest|
          ensures IsUInt(rest[i])
        {
          assert rest[i] == components[i + 1];
        }
      }
      ParseAllTexts(rest);
      assert ParseAll(texts[1..]) == Some(rest);
      assert ParseAll(texts) == Some([first] + rest);
      assert components == [first] + rest;
    }
  }

  /** Parsing a version's description gives the version back. */
  lemma ParseDescription(v: Version)
    requires Valid(v)
    ensures Parse(Description(v)) == Some(v)
  {
    var texts := ComponentTexts(v.components);
    forall i | 0 <= i < |texts|
      ensures '.' !in texts[i]
    {
      assert AllDigits(texts[i]);
    }
    JoinStartsWithFirst(texts, ".");
    var d := Description(v);
    assert IsDigit(d[0]);
    SplitJoin(texts, '.');
    ParseAllTexts(v.components);
  }

  /** An empty text, and a bare prefix with nothing after it, are no versions. */
  lemma ParseRejectsEmpty()
    ensures Parse("").None?
    ensures Parse("v").None?
  {
    assert "v"[1..] == "";
    assert Split("", '.') == [""];
  }

  /** An empty piece makes the whole text no version. */
  lemma ParseRejectsEmptyPiece()
    ensures Parse("1..2").None?
  {
    assert IndexOf("1..2", '.') == 1;
    assert "1..2"[2..] == ".2";
    assert IndexOf(".2", '.') == 0;
    assert Split("1..2", '.')[1] == "";
  }

  /** A piece that is no number makes the whole text no version. */
  lemma ParseRejectsNonNumericPiece()
    ensures Parse("1.x").None?
  {
    assert IndexOf("1.x", '.') == 1;
    assert "1.x"[2..] == "x";
    assert Split("1.x", '.')[1] == "x";
    assert !IsDigit('x');
  }

  /** One leading `v` or `V` is ignored. */
  lemma ParsePrefix(s: string)
    requires s != [] && s[0] != 'v' && s[0] != 'V'
    ensures Parse("v" + s) == Parse(s)
    ensures Parse("V" + s) == Parse(s)
  {
    assert ("v" + s)[1..] == s;
    assert ("V" + s)[1..] == s;
  }

  // ----- construction and access -----

  /** `majorValue`. */
  function Major(v: Version): (m: nat)
    requires Valid(v)
    ensures ValueAt(v, 0) == Some(m) && IsUInt(m)
  {
    v.components[0]
  }

  /**
   * `value(at:)`: the component at `index`, or nil past the last one.
   * A negative index stops the program, so it is a precondition here.
   */
  function ValueAt(v: Version, index: int): (r: Option<nat>)
    requires 0 <= index
    ensures r.Some? <==> index < |v.components|
    ensures r.Some? ==> r.value == v.components[index]
  {
    if index < |v.components| then Some(v.components[index]) else None
  }

  /** `minorValue`. */
  function Minor(v: Version): (r: Option<nat>)
    ensures r.Some? <==> |v.components| >= 2
    ensures r.Some? ==> r.value == v.components[1]
  {
    ValueAt(v, 1)
  }

  /** `patchValue`. */
  function Patch(v: Version): (r: Option<nat>)
    ensures r.Some? <==> |v.components| >= 3
    ensures r.Some? ==> r.value == v.components[2]
  {
    ValueAt(v, 2)
  }

  /** `init(value:_:_:)`: a patch without a minor puts a 0 minor before it. */
  method Make(major: nat, minor: Option<nat>, patch: Option<nat>) returns (v: Version)
    requires IsUInt(major)
    requires minor.Some? ==> IsUInt(minor.value)
    requires patch.Some? ==> IsUInt(patch.value)
    ensures Valid(v) && 1 <= |v.components| <= 3
    ensures Major(v) == major
    ensures Minor(v) == if minor.Some? then minor else if patch.Some? then Some(0) else None
    ensures Patch(v) == patch
  {
    var components := [major];
    if minor.Some? {
      components := components + [minor.value];
    }
    if patch.Some? {
      if |components| < 2 {
        components := components + [0];
      }
      components := components + [patch.value];
    }
    v := Version(components);
  }

  // ----- comparison -----

  /** `normalizedCeilingComponents(to:)`: missing components stand for the largest `UInt`. */
  function Ceiling(c: seq<nat>, count: nat): (r: seq<nat>)
    ensures |r| == if |c| < count then count else |c|
    ensures r[..|c|] == c
    ensures forall i :: |c| <= i < |r| ==> r[i] == UINT64_MAX
  {
    if |c| < count then c + seq(count - |c|, _ => UINT64_MAX) else c
  }

  /** `normalizedFloorComponents(to:)`: missing components stand for 0. */
  function Floor(c: seq<nat>, count: nat): (r: seq<nat>)
    ensures |r| == if |c| < count then count else |c|
    ensures r[..|c|] == c
    ensures forall i :: |c| <= i < |r| ==> r[i] == 0
  {
    if |c| < count then c + seq(count - |c|, _ => 0) else c
  }

  /** `truncatedComponents(to:)`. */
  function Truncated(c: seq<nat>, count: nat): (r: seq<nat>)
    ensures |r| == if |c| > count then count else |c|
    ensures r == c[..|r|]
  {
    if |c| > count then c[..count] else c
  }

  /** Lexicographic "less than" on sequences of one length: the first difference decides. */
  predicate LexLess(a: seq<nat>, b: seq<nat>)
    requires |a| == |b|
  {
    a != [] && (a[0] < b[0] || (a[0] == b[0] && LexLess(a[1..], b[1..])))
  }

  function Max(a: nat, b: nat): nat {
    if a < b then b else a
  }

  function Min(a: nat, b: nat): nat {
    if a < b then a else b
  }

  /** What `isLower(than:)` computes: lexicographic order after padding both with the largest `UInt`. */
  predicate Lower(v: Version, w: Version)
    ensures |v.components| == |w.components| ==> (Lower(v, w) <==> LexLess(v.components, w.components))
    ensures v == w ==> !Lower(v, w)
  {
    LexLessIrreflexive(Ceiling(v.components, Max(|v.components|, |w.components|)));
    var n := Max(|v.components|, |w.components|);
    LexLess(Ceiling(v.components, n), Ceiling(w.components, n))
  }

  /** What `isHigher(than:)` computes: the reverse lexicographic order after padding both with 0. */
  predicate Higher(v: Version, w: Version)
    ensures |v.components| == |w.components| ==> (Higher(v, w) <==> LexLess(w.components, v.components))
    ensures v == w ==> !Higher(v, w)
  {
    LexLessIrreflexive(Floor(v.components, Max(|v.components|, |w.components|)));
    var n := Max(|v.components|, |w.components|);
    LexLess(Floor(w.components, n), Floor(v.components, n))
  }

  /** `isWithin(_:)`: equal on the components both versions have. */
  predicate Within(v: Version, w: Version)
    ensures Within(v, w) <==> forall i :: 0 <= i < |v.components| && i < |w.components| ==> v.components[i] == w.components[i]
    ensures |v.components| == |w.components| ==> (Within(v, w) <==> v == w)
  {
    var n := Min(|v.components|, |w.components|);
    Truncated(v.components, n) == Truncated(w.components, n)
  }

  /** The loop of `isLower` and `isHigher`: walk both padded lists, the first difference decides. */
  method LexCompare(left: seq<nat>, right: seq<nat>) returns (less: bool)
    requires |left| == |right|
    ensures less == LexLess(left, right)
  {
    for i := 0 to |left|
      invariant LexLess(left, right) == LexLess(left[i..], right[i..])
    {
      assert left[i..][1..] == left[i + 1..] && right[i..][1..] == right[i + 1..];
      if left[i] < right[i] {
        return true;
      }
      if left[i] > right[i] {
        return false;
      }
    }
    return false;
  }

  /** `isLower(than:)`, the version's `<`. */
  method IsLower(v: Version, w: Version) returns (lower: bool)
    ensures lower == Lower(v, w)
  {
    var count := Max(|v.components|, |w.components|);
    lower := LexCompare(Ceiling(v.components, count), Ceiling(w.components, count));
  }

  /** `isHigher(than:)`. */
  method IsHigher(v: Version, w: Version) returns (higher: bool)
    ensures higher == Higher(v, w)
  {
    var count := Max(|v.components|, |w.components|);
    higher := LexCompare(Floor(w.components, count), Floor(v.components, count));
  }

  lemma {:induction false} LexLessIrreflexive(a: seq<nat>)
    ensures !LexLess(a, a)
  {
    if a != [] {
      LexLessIrreflexive(a[1..]);
    }
  }

  lemma {:induction false} LexLessAsymmetric(a: seq<nat>, b: seq<nat>)
    requires |a| == |b|
    ensures !(LexLess(a, b) && LexLess(b, a))
  {
    if a != [] {
      LexLessAsymmetric(a[1..], b[1..]);
    }
  }

  lemma {:induction false} LexLessTotal(a: seq<nat>, b: seq<nat>)
    requires |a| == |b|
    ensures a == b || LexLess(a, b) || LexLess(b, a)
  {
    if a != [] {
      LexLessTotal(a[1..], b[1..]);
      if a[0] == b[0] && a[1..] == b[1..] {
        assert a == [a[0]] + a[1..] && b == [b[0]] + b[1..];
      }
    }
  }

  lemma {:induction false} LexLessTransitive(a: seq<nat>, b: seq<nat>, c: seq<nat>)
    requires |a| == |b| == |c|
    ensures LexLess(a, b) && LexLess(b, c) ==> LexLess(a, c)
  {
    if a != [] {
      LexLessTransitive(a[1..], b[1..], c[1..]);
    }
  }

  /** Padding two lists of one length with the same filler does not change their order. */
  lemma {:induction false} LexLessPadded(a: seq<nat>, b: seq<nat>, fill: nat, k: nat)
    requires |a| == |b|
    ensures LexLess(a + seq(k, _ => fill), b + seq(k, _ => fill)) == LexLess(a, b)
  {
    var pad := seq(k, _ => fill);
    if a == [] {
      assert a + pad == pad && b + pad == pad;
      LexLessIrreflexive(pad);
    } else {
      assert (a + pad)[1..] == a[1..] + pad;
      assert (b + pad)[1..] == b[1..] + pad;
      LexLessPadded(a[1..], b[1..], fill, k);
    }
  }

  lemma CeilingWider(c: seq<nat>, m: nat, n: nat)
    requires |c| <= m <= n
    ensures Ceiling(c, n) == Ceiling(c, m) + seq(n - m, _ => UINT64_MAX)
  {
    var wide := Ceiling(c, m) + seq(n - m, _ => UINT64_MAX);
    forall i | 0 <= i < n
      ensures Ceiling(c, n)[i] == wide[i]
    {
      if i < |c| {
        assert Ceiling(c, n)[..|c|][i] == Ceiling(c, m)[..|c|][i];
      }
    }
  }

  lemma FloorWider(c: seq<nat>, m: nat, n: nat)
    requires |c| <= m <= n
    ensures Floor(c, n) == Floor(c, m) + seq(n - m, _ => 0)
  {
    var wide := Floor(c, m) + seq(n - m, _ => 0);
    forall i | 0 <= i < n
      ensures Floor(c, n)[i] == wide[i]
    {
      if i < |c| {
        assert Floor(c, n)[..|c|][i] == Floor(c, m)[..|c|][i];
      }
    }
  }

  /** `isLower` and `isHigher` give the same answer when both versions are padded to any common length. */
  lemma OrderAtAnyWidth(v: Version, w: Version, n: nat)
    requires |v.components| <= n && |w.components| <= n
    ensures Lower(v, w) <==> LexLess(Ceiling(v.components, n), Ceiling(w.components, n))
    ensures Higher(v, w) <==> LexLess(Floor(w.components, n), Floor(v.components, n))
  {
    var m := Max(|v.components|, |w.components|);
    CeilingWider(v.components, m, n);
    CeilingWider(w.components, m, n);
    LexLessPadded(Ceiling(v.components, m), Ceiling(w.components, m), UINT64_MAX, n - m);
    FloorWider(v.components, m, n);
    FloorWider(w.components, m, n);
    LexLessPadded(Floor(w.components, m), Floor(v.components, m), 0, n - m);
  }

  /** `isLower` and `isHigher` are transitive, whatever the lengths of the three versions. */
  lemma OrderTransitive(u: Version, v: Version, w: Version)
    ensures Lower(u, v) && Lower(v, w) ==> Lower(u, w)
    ensures Higher(u, v) && Higher(v, w) ==> Higher(u, w)
  {
    var n := Max(Max(|u.components|, |v.components|), |w.components|);
    OrderAtAnyWidth(u, v, n);
    OrderAtAnyWidth(v, w, n);
    OrderAtAnyWidth(u, w, n);
    LexLessTransitive(Ceiling(u.components, n), Ceiling(v.components, n), Ceiling(w.components, n));
    LexLessTransitive(Floor(w.components, n), Floor(v.components, n), Floor(u.components, n));
  }

  /** The order is partial: 1 and 1.18446744073709551615 differ, yet neither is lower than the other. */
  lemma LowerIsPartial()
    ensures Version([1]) != Version([1, UINT64_MAX])
    ensures !Lower(Version([1]), Version([1, UINT64_MAX])) && !Lower(Version([1, UINT64_MAX]), Version([1]))
  {
    assert Ceiling([1], 2) == [1, UINT64_MAX];
    LexLessIrreflexive([1, UINT64_MAX]);
  }

  /** No version is lower or higher than itself, and `isLower` is asymmetric, as `<` must be. */
  lemma OrderIrreflexiveAsymmetric(v: Version, w: Version)
    ensures !Lower(v, v) && !Higher(v, v)
    ensures !(Lower(v, w) && Lower(w, v))
    ensures !(Higher(v, w) && Higher(w, v))
  {
    var n := Max(|v.components|, |v.components|);
    LexLessIrreflexive(Ceiling(v.components, n));
    LexLessIrreflexive(Floor(v.components, n));
    var m := Max(|v.components|, |w.components|);
    assert m == Max(|w.components|, |v.components|);
    LexLessAsymmetric(Ceiling(v.components, m), Ceiling(w.components, m));
    LexLessAsymmetric(Floor(v.components, m), Floor(w.components, m));
  }

  lemma WithinReflexive(v: Version)
    ensures Within(v, v)
  {
  }

  /** `isWithin` is reflexive and symmetric. */
  lemma WithinReflexiveSymmetric(v: Version, w: Version)
    ensures Within(v, v)
    ensures Within(v, w) <==> Within(w, v)
  {
    assert Min(|v.components|, |w.components|) == Min(|w.components|, |v.components|);
  }

  /**
   * For versions of one length nothing is padded: `isHigher` is the converse of
   * `isLower`, `isWithin` is equality, and exactly one of lower, equal, higher holds.
   */
  lemma SameLengthOrder(v: Version, w: Version)
    requires |v.components| == |w.components|
    ensures Higher(w, v) <==> Lower(v, w)
    ensures Within(v, w) <==> v == w
    ensures v == w || Lower(v, w) || Lower(w, v)
  {
    LexLessTotal(v.components, w.components);
  }

  /** Equality is strict on the components, so 1.2 and 1.2.0 differ though each is within the other. */
  lemma StrictEquality()
    ensures Version([1, 2]) != Version([1, 2, 0])
    ensures Within(Version([1, 2]), Version([1, 2, 0]))
    ensures !Lower(Version([1, 2]), Version([1, 2, 0])) && !Higher(Version([1, 2]), Version([1, 2, 0]))
  {
    var n := 3;
    assert Ceiling([1, 2], n) == [1, 2, UINT64_MAX];
    assert Floor([1, 2], n) == [1, 2, 0];
    assert Ceiling([1, 2, 0], n) == [1, 2, 0];
    assert Floor([1, 2, 0], n) == [1, 2, 0];
    assert Truncated([1, 2, 0], 2) == [1, 2];
    assert [1, 2, 0][1..] == [2, 0] && [1, 2, UINT64_MAX][1..] == [2, UINT64_MAX];
    assert [2, 0][1..] == [0] && [2, UINT64_MAX][1..] == [UINT64_MAX];
    assert !LexLess([UINT64_MAX], [0]);
    assert !LexLess([2, UINT64_MAX], [2, 0]);
    assert !LexLess([1, 2, UINT64_MAX], [1, 2, 0]);
    LexLessIrreflexive([1, 2, 0]);
  }

  /** 1.2 against 1: lower (the missing minor is the largest), higher (it is the smallest), and within. */
  lemma AgainstShorter()
    ensures Lower(Version([1, 2]), Version([1]))
    ensures Higher(Version([1, 2]), Version([1]))
    ensures Within(Version([1, 2]), Version([1]))
  {
    assert Ceiling([1], 2) == [1, UINT64_MAX];
    assert Floor([1], 2) == [1, 0];
    assert [1, 2][1..] == [2] && [1, UINT64_MAX][1..] == [UINT64_MAX] && [1, 0][1..] == [0];
    assert Truncated([1, 2], 1) == [1];
  }

  // ----- ranges -----

  /** `lower..<upper` contains the version. */
  predicate HalfOpenContains(lower: Version, upper: Version, v: Version)
    ensures v == upper ==> !HalfOpenContains(lower, upper, v)
    ensures HalfOpenContains(lower, upper, v) ==> Lower(v, upper)
  {
    (Within(v, lower) || Higher(v, lower)) && Lower(v, upper)
  }

  /** `lower...upper` contains the version. */
  predicate ClosedContains(lower: Version, upper: Version, v: Version)
    ensures v == upper && (Within(upper, lower) || Higher(upper, lower)) ==> ClosedContains(lower, upper, v)
    ensures v == lower && (Within(lower, upper) || Lower(lower, upper)) ==> ClosedContains(lower, upper, v)
  {
    WithinReflexive(v);
    (Within(v, lower) || Higher(v, lower)) && (Within(v, upper) || Lower(v, upper))
  }

  /** `lower...` contains the version. */
  predicate FromContains(lower: Version, v: Version)
    ensures v == lower ==> FromContains(lower, v)
    ensures Higher(v, lower) ==> FromContains(lower, v)
  {
    WithinReflexive(v);
    Within(v, lower) || Higher(v, lower)
  }

  /** `..<upper` contains the version. */
  predicate UpToContains(upper: Version, v: Version)
    ensures v == upper ==> !UpToContains(upper, v)
  {
    Lower(v, upper)
  }

  /** `...upper` contains the version. */
  predicate ThroughContains(upper: Version, v: Version)
    ensures v == upper ==> ThroughContains(upper, v)
    ensures Lower(v, upper) ==> ThroughContains(upper, v)
  {
    WithinReflexive(v);
    Within(v, upper) || Lower(v, upper)
  }

  /**
   * Each two-sided range is its lower half-range intersected with its upper one, and a
   * closed range holds everything the half-open range with the same bounds holds.
   */
  lemma RangesCompose(lower: Version, upper: Version, v: Version)
    ensures HalfOpenContains(lower, upper, v) <==> FromContains(lower, v) && UpToContains(upper, v)
    ensures ClosedContains(lower, upper, v) <==> FromContains(lower, v) && ThroughContains(upper, v)
    ensures HalfOpenContains(lower, upper, v) ==> ClosedContains(lower, upper, v)
  {
  }

  /** No range `lower..<upper` contains its upper bound. */
  lemma UpperBoundExcluded(lower: Version, upper: Version)
    ensures !HalfOpenContains(lower, upper, upper)
    ensures ThroughContains(upper, upper) && FromContains(lower, lower)
  {
    OrderIrreflexiveAsymmetric(upper, upper);
    WithinReflexiveSymmetric(upper, upper);
    WithinReflexiveSymmetric(lower, lower);
  }

  /** 1.2 is in `1.0...1.2` but not in `1.0..<1.2`: only a closed bound admits a version within it. */
  lemma ClosedBoundAdmitsWithin()
    ensures ClosedContains(Version([1, 0]), Version([1, 2]), Version([1, 2]))
    ensures !HalfOpenContains(Version([1, 0]), Version([1, 2]), Version([1, 2]))
  {
    assert Floor([1, 0], 2) == [1, 0] && Floor([1, 2], 2) == [1, 2];
    assert [1, 2][1..] == [2] && [1, 0][1..] == [0];
    UpperBoundExcluded(Version([1, 0]), Version([1, 2]));
  }
}
