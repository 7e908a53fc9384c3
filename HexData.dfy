/**
 * Hexadecimal text for byte buffers: `Data.hexEncodedString()` writes
 * "<", two upper-case hex digits per byte and ">"; `Data(hexEncodedString:)`
 * reads such text back, with optional angle brackets, whitespace between
 * byte pairs, and either letter case.
 *
 * A Swift `Character` is modelled as one `char` (one Unicode scalar).
 */
module HexData {
  import opened Wrappers

  type byte = x: int | 0 <= x < 256

  // ----- characters -----

  /** `Character.isHexDigit`: ASCII digits and letters a-f, A-F, and their fullwidth forms. */
  predicate IsHexDigit(c: char) {
    '0' <= c <= '9' || 'a' <= c <= 'f' || 'A' <= c <= 'F' ||
    '\U{FF10}' <= c <= '\U{FF19}' || '\U{FF41}' <= c <= '\U{FF46}' || '\U{FF21}' <= c <= '\U{FF26}'
  }

  /** `Character.isWhitespace`: the Unicode White_Space characters. */
  predicate IsWhitespace(c: char) {
    '\U{0009}' <= c <= '\U{000D}' || c == ' ' || c == '\U{0085}' || c == '\U{00A0}' ||
    c == '\U{1680}' || '\U{2000}' <= c <= '\U{200A}' || c == '\U{2028}' || c == '\U{2029}' ||
    c == '\U{202F}' || c == '\U{205F}' || c == '\U{3000}'
  }

  /** `Character.hexDigitValue` of a hex digit. */
  function HexDigitValue(c: char): (v: nat)
    requires IsHexDigit(c)
    ensures v < 16
  {
    if '0' <= c <= '9' then c as int - '0' as int
    else if 'a' <= c <= 'f' then c as int - 'a' as int + 10
    else if 'A' <= c <= 'F' then c as int - 'A' as int + 10
    else if '\U{FF10}' <= c <= '\U{FF19}' then c as int - 0xFF10
    else if '\U{FF41}' <= c <= '\U{FF46}' then c as int - 0xFF41 + 10
    else c as int - 0xFF21 + 10
  }

  /** The upper-case digit `String(format: "%02X")` writes for a value below 16. */
  function HexChar(n: nat): (c: char)
    requires n < 16
    ensures IsHexDigit(c) && HexDigitValue(c) == n
    ensures '0' <= c <= '9' || 'A' <= c <= 'F'
  {
    if n < 10 then ('0' as int + n) as char else ('A' as int + n - 10) as char
  }

  /** A letter digit means the same in either case. */
  lemma LetterCaseIgnored(k: nat)
    requires k < 6
    ensures HexDigitValue(('a' as int + k) as char) == HexDigitValue(('A' as int + k) as char) == 10 + k
  {
  }

  /** The byte a pair of digits stands for: high * 16 + low. */
  function PairValue(high: char, low: char): (b: byte)
    requires IsHexDigit(high) && IsHexDigit(low)
  {
    HexDigitValue(high) * 16 + HexDigitValue(low)
  }

  // ----- encoding -----

  /** The two-digit groups for the bytes, concatenated. */
  function Pairs(data: seq<byte>): (s: string)
    ensures |s| == 2 * |data|
    ensures forall k :: 0 <= k < |s| ==> '0' <= s[k] <= '9' || 'A' <= s[k] <= 'F'
  {
    if data == [] then []
    else [HexChar(data[0] / 16), HexChar(data[0] % 16)] + Pairs(data[1..])
  }

  /** `hexEncodedString()`. */
  function HexEncoded(data: seq<byte>): (s: string)
    ensures |s| == 2 * |data| + 2
    ensures s[0] == '<' && s[|s| - 1] == '>'
    ensures s[1..|s| - 1] == Pairs(data)
  {
    "<" + Pairs(data) + ">"
  }

  // ----- decoding -----

  /** The text between the brackets; a leading "<" without a trailing ">" is refused. */
  function Body(text: string): Option<string> {
    if |text| > 0 && text[0] == '<' then
      if text[|text| - 1] != '>' then None else Some(text[1..|text| - 1])
    else Some(text)
  }

  function Prepend(prefix: seq<byte>, rest: Option<seq<byte>>): Option<seq<byte>> {
    if rest.None? then None else Some(prefix + rest.value)
  }

  /**
   * The bytes of `s`, given the digit of a half-read pair (if any):
   * whitespace outside a pair is skipped, anything else that is not a digit
   * refuses the text, and a digit left over at the end is dropped.
   */
  function Scan(s: string, pending: Option<char>): (r: Option<seq<byte>>)
    requires pending.Some? ==> IsHexDigit(pending.value)
    ensures r.Some? ==> forall i :: 0 <= i < |s| ==> IsHexDigit(s[i]) || IsWhitespace(s[i])
    ensures r.Some? ==> 2 * |r.value| <= |s| + (if pending.Some? then 1 else 0)
    decreases |s|
  {
    if s == [] then Some([])
    else
      var c := s[0];
      if !(IsHexDigit(c) || IsWhitespace(c)) then None
      else if pending.Some? then
        if !IsHexDigit(c) then None
        else Prepend([PairValue(pending.value, c)], Scan(s[1..], None))
      else if !IsHexDigit(c) then Scan(s[1..], None)
      else Scan(s[1..], Some(c))
  }

  /** What `Data(hexEncodedString:)` produces for a text. */
  function HexDecoded(text: string): (r: Option<seq<byte>>)
    ensures |text| > 0 && text[0] == '<' && text[|text| - 1] != '>' ==> r.None?
    ensures r.Some? ==> 2 * |r.value| <= |text|
    ensures r.Some? && (|text| == 0 || text[0] != '<') ==>
      forall i :: 0 <= i < |text| ==> IsHexDigit(text[i]) || IsWhitespace(text[i])
  {
    match Body(text)
    case None => None
    case Some(body) => Scan(body, None)
  }

  /** `Data(hexEncodedString:)`, character by character, keeping the half-read pair. */
  method DecodeHex(text: string) returns (r: Option<seq<byte>>)
    ensures r == HexDecoded(text)
  {
    var body := text;
    if |text| > 0 && text[0] == '<' {
      if text[|text| - 1] != '>' {
        return None;
      }
      body := text[1..|text| - 1];
    }
    var buffer: seq<byte> := [];
    var previous: Option<char> := None;
    assert body[0..] == body;
    PrependEmpty(Scan(body, None));
    for i := 0 to |body|
      invariant previous.Some? ==> IsHexDigit(previous.value)
      invariant Scan(body, None) == Prepend(buffer, Scan(body[i..], previous))
    {
      var c := body[i];
      ghost var rest := Scan(body[i + 1..], None);
      assert body[i..][1..] == body[i + 1..];
      if !(IsHexDigit(c) || IsWhitespace(c)) {
        return None;
      }
      if previous.Some? {
        if !IsHexDigit(c) {
          return None;
        }
        var value := PairValue(previous.value, c);
        assert Scan(body[i..], previous) == Prepend([value], rest);
        PrependTwice(buffer, [value], rest);
        buffer := buffer + [value];
        previous := None;
      } else {
        if !IsHexDigit(c) {
          continue;
        }
        previous := Some(c);
      }
    }
    assert body[|body|..] == [] && buffer + [] == buffer;
    assert Body(text) == Some(body);
    return Some(buffer);
  }

  // ----- properties -----

  lemma PrependEmpty(rest: Option<seq<byte>>)
    ensures Prepend([], rest) == rest
  {
    if rest.Some? {
      assert [] + rest.value == rest.value;
    }
  }

  lemma PrependTwice(first: seq<byte>, second: seq<byte>, rest: Option<seq<byte>>)
    ensures Prepend(first, Prepend(second, rest)) == Prepend(first + second, rest)
  {
    if rest.Some? {
      assert first + (second + rest.value) == (first + second) + rest.value;
    }
  }

  /** Reading the pairs of some bytes, then more text, gives those bytes and then what the rest gives. */
  lemma {:induction false} ScanPairs(data: seq<byte>, rest: string)
    ensures Scan(Pairs(data) + rest, None) == Prepend(data, Scan(rest, None))
  {
    if data != [] {
      var b := data[0];
      var high := HexChar(b / 16);
      var low := HexChar(b % 16);
      var tail := Pairs(data[1..]) + rest;
      var s := Pairs(data) + rest;
      assert s == [high, low] + tail;
      assert s[0] == high && s[1..][0] == low && s[1..][1..] == tail;
      assert Scan(s, None) == Scan(s[1..], Some(high));
      assert PairValue(high, low) == b;
      assert Scan(s[1..], Some(high)) == Prepend([b], Scan(tail, None));
      ScanPairs(data[1..], rest);
      PrependTwice([b], data[1..], Scan(rest, None));
      assert data == [b] + data[1..];
    } else {
      assert Pairs(data) + rest == rest;
      PrependEmpty(Scan(rest, None));
    }
  }

  /** Decoding the encoding gives back the bytes, and so does decoding the digits without brackets. */
  lemma HexRoundTrip(data: seq<byte>)
    ensures HexDecoded(HexEncoded(data)) == Some(data)
    ensures HexDecoded(Pairs(data)) == Some(data)
  {
    var pairs := Pairs(data);
    ScanPairs(data, []);
    assert pairs + [] == pairs;
    assert Scan([], None) == Some([]);
    assert Scan(pairs, None) == Prepend(data, Some([]));
    assert data + [] == data;
    var e := HexEncoded(data);
    assert Body(e) == Some(pairs);
    if |pairs| > 0 {
      assert pairs[0] != '<';
    }
    assert Body(pairs) == Some(pairs);
  }

  /** A digit left over after the pairs is dropped without complaint. */
  lemma TrailingDigitDropped(data: seq<byte>, digit: char)
    requires IsHexDigit(digit) && digit != '<'
    ensures HexDecoded(Pairs(data) + [digit]) == Some(data)
  {
    var text := Pairs(data) + [digit];
    ScanPairs(data, [digit]);
    assert [digit][1..] == [];
    assert Scan([digit], None) == Some([]);
    assert data + [] == data;
    assert text[0] != '<';
    assert Body(text) == Some(text);
  }

  /** A leading "<" needs a trailing ">". */
  lemma UnclosedBracket(text: string)
    requires |text| > 0 && text[0] == '<' && text[|text| - 1] != '>'
    ensures HexDecoded(text) == None
  {
  }

  /** A character that is neither a digit nor whitespace refuses the whole text. */
  lemma {:induction false} ForeignCharacter(s: string, pending: Option<char>, i: nat)
    requires pending.Some? ==> IsHexDigit(pending.value)
    requires i < |s| && !IsHexDigit(s[i]) && !IsWhitespace(s[i])
    ensures Scan(s, pending) == None
  {
    if i > 0 {
      assert s[1..][i - 1] == s[i];
      if IsHexDigit(s[0]) && pending.None? {
        ForeignCharacter(s[1..], Some(s[0]), i - 1);
      } else {
        ForeignCharacter(s[1..], None, i - 1);
      }
    }
  }

  /** Whitespace between pairs is skipped; whitespace inside a pair refuses the text. */
  lemma WhitespacePlacement(w: char, digit: char, rest: string)
    requires IsWhitespace(w) && IsHexDigit(digit)
    ensures Scan([w] + rest, None) == Scan(rest, None)
    ensures Scan([digit, w] + rest, None) == None
  {
    assert ([w] + rest)[1..] == rest;
    assert ([digit, w] + rest)[1..] == [w] + rest;
  }
}
