/**
 * The ECMAScript `encodeURIComponent` function, which the login code applies to
 * every parameter name and value, and the percent-decoding that undoes it.
 *
 * `encodeURIComponent` keeps the unreserved marks of section 2.3 of RFC 2396
 * (letters, digits and `- _ . ! ~ * ' ( )`) and replaces every other character
 * by the UTF-8 bytes of its code point, each written `%XY` with upper-case hex
 * digits as in section 2.1 of RFC 3986.
 */
module UriComponent {
  import opened Wrappers
  import opened Seqs
  import Utf8

  /** A hex digit's value. */
  type Nibble = n: int | 0 <= n < 16

  /** The characters `encodeURIComponent` leaves as they are. */
  predicate Unreserved(c: char) {
    ('A' <= c <= 'Z') || ('a' <= c <= 'z') || ('0' <= c <= '9') ||
    c == '-' || c == '_' || c == '.' || c == '!' || c == '~' || c == '*' || c == '\'' || c == '(' || c == ')'
  }

  /** Does every character of `s` pass through `encodeURIComponent` unchanged? */
  predicate AllUnreserved(s: string) {
    forall i :: 0 <= i < |s| ==> Unreserved(s[i])
  }

  /** The value of a hex digit of either case, as percent-decoding reads it. */
  function HexValue(c: char): Option<Nibble> {
    if '0' <= c <= '9' then Some(c as int - '0' as int)
    else if 'A' <= c <= 'F' then Some(c as int - 'A' as int + 10)
    else if 'a' <= c <= 'f' then Some(c as int - 'a' as int + 10)
    else None
  }

  /** The upper-case hex digit of a value, which percent-decoding reads back. */
  function HexDigit(n: Nibble): (c: char)
    ensures Unreserved(c)
    ensures HexValue(c) == Some(n)
  {
    if n < 10 then ('0' as int + n) as char else ('A' as int + n - 10) as char
  }

  /** The escape `%XY` of one byte. */
  function Escape(b: Utf8.Byte): (e: string)
    ensures |e| == 3 && e[0] == '%' && Unreserved(e[1]) && Unreserved(e[2])
  {
    ['%', HexDigit(b / 16), HexDigit(b % 16)]
  }

  /** A character `encodeURIComponent` may output: `%` or an unreserved character. */
  predicate SafeChar(c: char) {
    c == '%' || Unreserved(c)
  }

  /** Is `s` made only of characters `encodeURIComponent` may output? */
  predicate AllSafe(s: string) {
    forall i :: 0 <= i < |s| ==> SafeChar(s[i])
  }

  /** Safe strings stay safe when joined, and hold no `&`, `=` or `+`. */
  lemma AllSafeAppend(a: string, b: string)
    requires AllSafe(a) && AllSafe(b)
    ensures AllSafe(a + b)
    ensures '&' !in a + b && '=' !in a + b && '+' !in a + b
  {
  }

  /** Each byte written as `%` and two upper-case hex digits. */
  function PercentEncode(bs: seq<Utf8.Byte>): (s: string)
    ensures |s| == 3 * |bs|
    ensures AllSafe(s)
  {
    if bs == [] then [] else Escape(bs[0]) + PercentEncode(bs[1..])
  }

  /** `encodeURIComponent` of one character. */
  function EncodeChar(c: char): (r: string)
    ensures 1 <= |r|
    ensures AllSafe(r)
    ensures Unreserved(c) ==> r == [c]
  {
    if Unreserved(c) then [c] else PercentEncode(Utf8.EncodeScalar(c))
  }

  /**
   * `encodeURIComponent`. Its output is made of unreserved characters and `%`
   * alone, so it never holds the separators `&` and `=` of a query string, nor
   * the `+` that a form decoder reads as a space.
   */
  function Encode(s: string): (r: string)
    ensures AllSafe(r)
    ensures '&' !in r && '=' !in r && '+' !in r
    ensures |s| <= |r|
    ensures AllUnreserved(s) ==> r == s
  {
    if s == [] then []
    else
      var head, rest := EncodeChar(s[0]), Encode(s[1..]);
      AllSafeAppend(head, rest);
      assert AllUnreserved(s) ==> AllUnreserved(s[1..]) && s == [s[0]] + s[1..];
      head + rest
  }

  /** `encodeURIComponent` works character by character, so it distributes over concatenation. */
  lemma {:induction false} EncodeAppend(s: string, t: string)
    ensures Encode(s + t) == Encode(s) + Encode(t)
  {
    if s == [] {
      assert s + t == t;
    } else {
      assert (s + t)[1..] == s[1..] + t;
      EncodeAppend(s[1..], t);
      ConcatAssoc(EncodeChar(s[0]), Encode(s[1..]), Encode(t));
    }
  }

  /**
   * Percent-decoding of the UTF-8 form of `s`, as the WHATWG URL standard
   * defines it: `%` with two hex digits stands for that byte; any other
   * character, a stray `%` included, stands for its own UTF-8 bytes.
   */
  function PercentDecode(s: string): seq<Utf8.Byte> {
    if s == [] then []
    else if s[0] == '%' && |s| >= 3 && HexValue(s[1]).Some? && HexValue(s[2]).Some? then
      [HexValue(s[1]).value * 16 + HexValue(s[2]).value] + PercentDecode(s[3..])
    else
      Utf8.EncodeScalar(s[0]) + PercentDecode(s[1..])
  }

  /** The string that `s` percent-decodes to, if its bytes are well-formed UTF-8. */
  function Decode(s: string): Option<string> {
    Utf8.Decode(PercentDecode(s))
  }

  /** The escape `%XY` of one byte percent-decodes to that byte. */
  lemma PercentDecodeEscape(b: Utf8.Byte, tail: string)
    ensures PercentDecode(Escape(b) + tail) == [b] + PercentDecode(tail)
  {
    var s := Escape(b) + tail;
    assert HexValue(s[1]) == Some(b / 16) && HexValue(s[2]) == Some(b % 16);
    assert s[3..] == tail;
  }

  /** Percent-decoding reads back the bytes of a percent-encoded run. */
  lemma {:induction false} PercentDecodeEncode(bs: seq<Utf8.Byte>, tail: string)
    ensures PercentDecode(PercentEncode(bs) + tail) == bs + PercentDecode(tail)
  {
    if bs == [] {
      assert PercentEncode(bs) + tail == tail;
    } else {
      var b := bs[0];
      var rest := PercentEncode(bs[1..]) + tail;
      ConcatAssoc(Escape(b), PercentEncode(bs[1..]), tail);
      PercentDecodeEscape(b, rest);
      PercentDecodeEncode(bs[1..], tail);
      ConcatAssoc([b], bs[1..], PercentDecode(tail));
      assert bs == [b] + bs[1..];
    }
  }

  /** Percent-decoding the encoding of one character gives its UTF-8 bytes. */
  lemma PercentDecodeEncodeChar(c: char, tail: string)
    ensures PercentDecode(EncodeChar(c) + tail) == Utf8.EncodeScalar(c) + PercentDecode(tail)
  {
    if Unreserved(c) {
      assert ([c] + tail)[1..] == tail;
    } else {
      PercentDecodeEncode(Utf8.EncodeScalar(c), tail);
    }
  }

  /** Percent-decoding the output of `encodeURIComponent` gives the UTF-8 form of its input. */
  lemma {:induction false} PercentDecodeEncodeString(s: string)
    ensures PercentDecode(Encode(s)) == Utf8.Encode(s)
  {
    if s != [] {
      PercentDecodeEncodeChar(s[0], Encode(s[1..]));
      PercentDecodeEncodeString(s[1..]);
    }
  }

  /** Round trip: decoding the output of `encodeURIComponent` gives its input back. */
  lemma DecodeEncode(s: string)
    ensures Decode(Encode(s)) == Some(s)
  {
    PercentDecodeEncodeString(s);
    Utf8.DecodeEncode(s);
  }

  /** `encodeURIComponent` is injective: distinct inputs give distinct outputs. */
  lemma EncodeInjective(s: string, t: string)
    ensures Encode(s) == Encode(t) ==> s == t
  {
    DecodeEncode(s);
    DecodeEncode(t);
  }
}
