/**
 * Integer offsets into strings: `s[i]`, `s[a..<b]`, `s[a...b]`, `s[..<n]`,
 * `s[...n]` and `s[n...]` count characters from the start of the string.
 * An offset outside the string is a programming error in the source (the
 * index conversion traps), so each subscript requires its offsets to lie
 * inside the string.
 */
module StringExtensions {

  /** `s[i]`: the character `i` places from the start. */
  function CharAt(s: string, i: int): (c: char)
    requires 0 <= i < |s|
    ensures c in s
    ensures [c] == SliceHalfOpen(s, i, i + 1)
  {
    s[i]
  }

  /** `s[a..<b]`: the `b - a` characters starting at offset `a`. */
  function SliceHalfOpen(s: string, a: int, b: int): (r: string)
    requires 0 <= a <= b <= |s|
    ensures |r| == b - a
    ensures forall k :: 0 <= k < |r| ==> r[k] == s[a + k]
  {
    s[a..b]
  }

  /** `s[a...b]`: the characters at offsets `a` through `b`. */
  function SliceClosed(s: string, a: int, b: int): (r: string)
    requires 0 <= a <= b < |s|
    ensures |r| == b - a + 1
    ensures forall k :: 0 <= k < |r| ==> r[k] == s[a + k]
  {
    s[a..b + 1]
  }

  /** `s[..<n]`: the first `n` characters. */
  function SliceUpTo(s: string, n: int): (r: string)
    requires 0 <= n <= |s|
    ensures |r| == n && r <= s
  {
    s[..n]
  }

  /** `s[...n]`: the first `n + 1` characters. */
  function SliceThrough(s: string, n: int): (r: string)
    requires 0 <= n < |s|
    ensures |r| == n + 1 && r <= s
  {
    s[..n + 1]
  }

  /** `s[n...]`: everything after the first `n` characters. */
  function SliceFrom(s: string, n: int): (r: string)
    requires 0 <= n <= |s|
    ensures |r| == |s| - n
    ensures forall k :: 0 <= k < |r| ==> r[k] == s[n + k]
  {
    s[n..]
  }

  /** How the subscripts relate: closed ranges are half-open ranges one longer, and a prefix and the matching suffix make up the string. */
  lemma SubscriptsAgree(s: string, a: int, b: int)
    requires 0 <= a <= b < |s|
    ensures SliceClosed(s, a, b) == SliceHalfOpen(s, a, b + 1)
    ensures SliceThrough(s, b) == SliceUpTo(s, b + 1)
    ensures SliceUpTo(s, a) + SliceFrom(s, a) == s
    ensures SliceHalfOpen(s, a, b) == SliceFrom(SliceUpTo(s, b), a)
    ensures SliceHalfOpen(s, 0, |s|) == SliceFrom(s, 0) == SliceUpTo(s, |s|) == s
  {
    assert s[..a] + s[a..] == s;
  }

  /** Dropping the first or last character: `s[1..<count-1]`, `s[1...count-1]`, `s[1...]`, `s[...count-1]` and `s[..<count-1]`. */
  lemma DropFirstAndLast(s: string)
    requires |s| >= 2
    ensures SliceHalfOpen(s, 1, |s| - 1) == s[1..][..|s| - 2]
    ensures SliceClosed(s, 1, |s| - 1) == SliceFrom(s, 1) == s[1..]
    ensures SliceThrough(s, |s| - 1) == s
    ensures SliceUpTo(s, |s| - 1) == s[..|s| - 1]
  {
  }
}
