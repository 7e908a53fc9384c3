/**
 * Decimal integer text as Swift's `Int(_:)`, `UInt(_:)` and `String(_:)` read and
 * write it, plus joining and splitting strings on a separator.
 *
 * Swift's integer grammar: an optional `+` or `-`, then one or more ASCII digits,
 * nothing else. The fixed-width parsers reject values outside their type's range.
 */
module Text {
  import opened Wrappers

  const INT64_MIN: int := -0x8000_0000_0000_0000
  const INT64_MAX: int := 0x7FFF_FFFF_FFFF_FFFF
  const UINT64_MAX: int := 0xFFFF_FFFF_FFFF_FFFF

  predicate IsDigit(c: char) {
    '0' <= c <= '9'
  }

  predicate AllDigits(s: string) {
    forall i :: 0 <= i < |s| ==> IsDigit(s[i])
  }

  function DigitValue(c: char): (d: nat)
    requires IsDigit(c)
    ensures d < 10
  {
    (c as int) - ('0' as int)
  }

  function DigitChar(d: nat): (c: char)
    requires d < 10
    ensures IsDigit(c) && DigitValue(c) == d
  {
    (('0' as int) + d) as char
  }

  /** The value of a run of digits, most significant digit first. */
  function DigitsValue(s: string): nat
    requires AllDigits(s)
  {
    if s == [] then 0 else DigitsValue(s[..|s| - 1]) * 10 + DigitValue(s[|s| - 1])
  }

  /** `String(n)` for a non-negative integer: the shortest decimal text, read back exactly. */
  function FormatNat(n: nat): (s: string)
    ensures 1 <= |s| && AllDigits(s)
    ensures DigitsValue(s) == n
    ensures s[0] == '0' ==> n == 0
  {
    if n < 10 then [DigitChar(n)]
    else
      var prefix := FormatNat(n / 10);
      assert (prefix + [DigitChar(n % 10)])[..|prefix|] == prefix;
      prefix + [DigitChar(n % 10)]
  }

  /** `String(n)` for any integer: a minus sign before the digits of a negative value. */
  function FormatInt(n: int): (s: string)
    ensures n >= 0 ==> s != [] && AllDigits(s) && DigitsValue(s) == n
    ensures n < 0 ==> |s| >= 2 && s[0] == '-' && AllDigits(s[1..]) && DigitsValue(s[1..]) == -n
  {
    if n < 0 then "-" + FormatNat(-n) else FormatNat(n)
  }

  /** Swift's integer grammar without a range check. */
  function ParseSigned(s: string): (r: Option<int>)
    ensures r.Some? <==> (s != [] && AllDigits(s)) || (|s| >= 2 && (s[0] == '+' || s[0] == '-') && AllDigits(s[1..]))
    ensures r.Some? && r.value < 0 ==> s[0] == '-'
    ensures s != [] && AllDigits(s) ==> r == Some(DigitsValue(s))
  {
    if |s| > 0 && (s[0] == '+' || s[0] == '-') then
      var body := s[1..];
      if body != [] && AllDigits(body) then
        Some(if s[0] == '-' then -(DigitsValue(body) as int) else DigitsValue(body))
      else None
    else if s != [] && AllDigits(s) then Some(DigitsValue(s))
    else None
  }

  /** A fixed-width parse: Swift's grammar, then `nil` for a value outside `lo..hi`. */
  function ParseInRange(s: string, lo: int, hi: int): (r: Option<int>)
    ensures r.Some? ==> lo <= r.value <= hi && ParseSigned(s) == r
    ensures r.None? ==> ParseSigned(s).None? || !(lo <= ParseSigned(s).value <= hi)
  {
    match ParseSigned(s)
    case Some(v) => if lo <= v <= hi then Some(v) else None
    case None => None
  }

  /** `Int(s)`: a 64-bit signed integer. */
  function ParseInt64(s: string): (r: Option<int>)
    ensures r.Some? <==> ParseSigned(s).Some? && INT64_MIN <= ParseSigned(s).value <= INT64_MAX
    ensures r.Some? ==> r == ParseSigned(s)
  {
    ParseInRange(s, INT64_MIN, INT64_MAX)
  }

  /** `UInt(s)`: a 64-bit unsigned integer; "-0" reads as 0. */
  function ParseUInt64(s: string): (r: Option<int>)
    ensures r.Some? <==> ParseSigned(s).Some? && 0 <= ParseSigned(s).value <= UINT64_MAX
    ensures r.Some? ==> r == ParseSigned(s)
  {
    ParseInRange(s, 0, UINT64_MAX)
  }

  lemma ParseFormatNat(n: nat)
    ensures ParseSigned(FormatNat(n)) == Some(n)
  {
  }

  /** Formatting then parsing any integer gives it back. */
  lemma ParseFormatInt(n: int)
    ensures ParseSigned(FormatInt(n)) == Some(n)
  {
    if n < 0 {
      var s := FormatInt(n);
      assert s[1..] == FormatNat(-n);
    }
  }

  lemma ParseInt64FormatInt(n: int)
    requires INT64_MIN <= n <= INT64_MAX
    ensures ParseInt64(FormatInt(n)) == Some(n)
  {
    ParseFormatInt(n);
  }

  /** Formatted numbers never start with a sign other than `-`, and never with a letter. */
  lemma FormatIntShape(n: int)
    ensures |FormatInt(n)| >= 1
    ensures FormatInt(n)[0] == '-' <==> n < 0
    ensures n >= 0 ==> AllDigits(FormatInt(n))
  {
  }

  /** `parts.joined(separator: sep)`. */
  function Join(parts: seq<string>, sep: string): (r: string)
    ensures parts == [] ==> r == []
    ensures |parts| == 1 ==> r == parts[0]
  {
    if parts == [] then []
    else if |parts| == 1 then parts[0]
    else parts[0] + sep + Join(parts[1..], sep)
  }

  /** `parts.joined()`: concatenation with no separator. */
  function Concat(parts: seq<string>): string {
    if parts == [] then [] else parts[0] + Concat(parts[1..])
  }

  lemma ConcatAppend(parts: seq<string>, last: string)
    ensures Concat(parts + [last]) == Concat(parts) + last
  {
    if parts != [] {
      assert (parts + [last])[1..] == parts[1..] + [last];
      ConcatAppend(parts[1..], last);
    }
  }

  /** The one-character strings of `s`, as iterating a Swift string yields them. */
  function Characters(s: string): (r: seq<string>)
    ensures |r| == |s|
    ensures forall i :: 0 <= i < |s| ==> r[i] == [s[i]]
  {
    seq(|s|, i requires 0 <= i < |s| => [s[i]])
  }

  /** Re-joining a string's characters gives the string back. */
  lemma {:induction false} ConcatCharacters(s: string)
    ensures Concat(Characters(s)) == s
  {
    if s != [] {
      assert Characters(s)[1..] == Characters(s[1..]);
      ConcatCharacters(s[1..]);
    }
  }

  /** `s.components(separatedBy: sep)` for a one-character separator: every piece, empty ones included. */
  function Split(s: string, sep: char): (r: seq<string>)
    ensures |r| >= 1
    ensures forall i :: 0 <= i < |r| ==> sep !in r[i]
    decreases |s|
  {
    if sep !in s then [s]
    else
      var k := IndexOf(s, sep);
      [s[..k]] + Split(s[k + 1..], sep)
  }

  /** The position of the first `c` in `s`. */
  function IndexOf(s: string, c: char): (k: nat)
    requires c in s
    ensures k < |s| && s[k] == c && c !in s[..k]
  {
    if s[0] == c then 0
    else
      assert c in s[1..];
      1 + IndexOf(s[1..], c)
  }

  /** Splitting a joined list gives the list back when no part contains the separator. */
  lemma {:induction false} SplitJoin(parts: seq<string>, sep: char)
    requires parts != []
    requires forall i :: 0 <= i < |parts| ==> sep !in parts[i]
    ensures Split(Join(parts, [sep]), sep) == parts
  {
    if |parts| > 1 {
      var s := Join(parts, [sep]);
      assert s == parts[0] + [sep] + Join(parts[1..], [sep]);
      assert s[|parts[0]|] == sep;
      var k := IndexOf(s, sep);
      assert k == |parts[0]| by {
        assert s[..|parts[0]|] == parts[0];
      }
      assert s[..k] == parts[0];
      assert s[k + 1..] == Join(parts[1..], [sep]);
      SplitJoin(parts[1..], sep);
    }
  }
}
