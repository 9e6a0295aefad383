/**
 * Query strings and `application/x-www-form-urlencoded` bodies: JavaScript's
 * `split` and `join` on one separator character, and the form parser of the
 * WHATWG URL standard (section 5.1), which is how the receiving end reads the
 * `&`-joined `name=value` pieces the login code sends.
 */
module FormUrlEncoded {
  import opened Wrappers
  import UriComponent

  /** `s.split(sep)`: the runs between separators, always at least one. */
  function Split(s: string, sep: char): (parts: seq<string>)
    ensures |parts| >= 1
    ensures forall i :: 0 <= i < |parts| ==> sep !in parts[i]
    decreases |s|
  {
    if s == [] then [[]]
    else
      var rest := Split(s[1..], sep);
      if s[0] == sep then [[]] + rest else [[s[0]] + rest[0]] + rest[1..]
  }

  /** `parts.join(sep)`: the parts with one separator between neighbours. */
  function Join(parts: seq<string>, sep: char): string {
    if |parts| == 0 then ""
    else if |parts| == 1 then parts[0]
    else parts[0] + [sep] + Join(parts[1..], sep)
  }

  /** Splitting a string that holds no separator gives that string alone. */
  lemma {:induction false} SplitNoSeparator(a: string, sep: char)
    requires sep !in a
    ensures Split(a, sep) == [a]
  {
    if a != [] {
      SplitNoSeparator(a[1..], sep);
      assert [a[0]] + a[1..] == a;
    }
  }

  /** The first separator ends the first part. */
  lemma {:induction false} SplitAtSeparator(a: string, sep: char, b: string)
    requires sep !in a
    ensures Split(a + [sep] + b, sep) == [a] + Split(b, sep)
  {
    var s := a + [sep] + b;
    if a == [] {
      assert s[1..] == b;
    } else {
      assert s[1..] == a[1..] + [sep] + b;
      SplitAtSeparator(a[1..], sep, b);
      assert [a[0]] + a[1..] == a;
    }
  }

  /** Splitting undoes joining, when no part holds the separator. */
  lemma {:induction false} SplitJoin(parts: seq<string>, sep: char)
    requires |parts| >= 1
    requires forall i :: 0 <= i < |parts| ==> sep !in parts[i]
    ensures Split(Join(parts, sep), sep) == parts
  {
    if |parts| == 1 {
      SplitNoSeparator(parts[0], sep);
    } else {
      SplitJoin(parts[1..], sep);
      SplitAtSeparator(parts[0], sep, Join(parts[1..], sep));
      assert [parts[0]] + parts[1..] == parts;
    }
  }

  /** Joining undoes splitting, for every string. */
  lemma {:induction false} JoinSplit(s: string, sep: char)
    ensures Join(Split(s, sep), sep) == s
  {
    if s != [] {
      var rest := Split(s[1..], sep);
      JoinSplit(s[1..], sep);
      if s[0] == sep {
        assert Join(Split(s, sep), sep) == [] + [sep] + Join(rest, sep);
        assert [s[0]] + s[1..] == s;
      } else if |rest| == 1 {
        assert [s[0]] + s[1..] == s;
      } else {
        assert Join(Split(s, sep), sep) == [s[0]] + rest[0] + [sep] + Join(rest[1..], sep);
        assert [rest[0]] + rest[1..] == rest;
        assert [s[0]] + s[1..] == s;
      }
    }
  }

  /** The text before the first `sep` and the text after it; all of `s` and `""` when there is none. */
  function CutAt(s: string, sep: char): (r: (string, string))
    ensures sep !in r.0
    ensures sep in s ==> s == r.0 + [sep] + r.1
    ensures sep !in s ==> r == (s, [])
  {
    if s == [] then ([], [])
    else if s[0] == sep then ([], s[1..])
    else
      var (before, after) := CutAt(s[1..], sep);
      assert [s[0]] + s[1..] == s;
      ([s[0]] + before, after)
  }

  /** Cutting at the first separator finds the separator that follows a separator-free prefix. */
  lemma {:induction false} CutAtFirst(a: string, sep: char, b: string)
    requires sep !in a
    ensures CutAt(a + [sep] + b, sep) == (a, b)
  {
    var s := a + [sep] + b;
    if a == [] {
      assert s[1..] == b;
    } else {
      assert s[1..] == a[1..] + [sep] + b;
      CutAtFirst(a[1..], sep, b);
      assert [a[0]] + a[1..] == a;
    }
  }

  /** A `+` reads as a space in a form field. */
  function ReplacePlus(s: string): (r: string)
    ensures |r| == |s| && '+' !in r
    ensures '+' !in s ==> r == s
  {
    if s == [] then []
    else [if s[0] == '+' then ' ' else s[0]] + ReplacePlus(s[1..])
  }

  /** One name/value pair of a query string or form body. */
  datatype Param = Param(name: string, value: string)

  /** A form field's text, decoded. */
  function DecodeField(s: string): Option<string> {
    UriComponent.Decode(ReplacePlus(s))
  }

  /** One `name=value` piece, split at its first `=`; a piece without one has value `""`. */
  function ParsePiece(piece: string): Option<Param> {
    var (name, value) := CutAt(piece, '=');
    match (DecodeField(name), DecodeField(value))
    case (Some(n), Some(v)) => Some(Param(n, v))
    case _ => None
  }

  /** The pairs of a list of pieces, skipping empty pieces. */
  function ParsePieces(pieces: seq<string>): Option<seq<Param>> {
    if pieces == [] then Some([])
    else
      match ParsePieces(pieces[1..])
      case None => None
      case Some(rest) =>
        if pieces[0] == [] then Some(rest)
        else match ParsePiece(pieces[0])
          case None => None
          case Some(p) => Some([p] + rest)
  }

  /** The pairs of a query string or form body, in order. */
  function ParseForm(s: string): Option<seq<Param>> {
    ParsePieces(Split(s, '&'))
  }

  /** A form built by joining non-empty, `&`-free pieces parses piece by piece. */
  lemma ParseFormJoin(pieces: seq<string>)
    requires forall i :: 0 <= i < |pieces| ==> pieces[i] != [] && '&' !in pieces[i]
    ensures ParseForm(Join(pieces, '&')) == ParsePieces(pieces)
  {
    if pieces == [] {
      assert Split([], '&') == [[]];
    } else {
      SplitJoin(pieces, '&');
    }
  }

  /** A piece written `encodeURIComponent(name) + "=" + encodeURIComponent(value)` parses to that pair. */
  lemma ParsePieceEncoded(name: string, value: string)
    ensures ParsePiece(UriComponent.Encode(name) + "=" + UriComponent.Encode(value)) == Some(Param(name, value))
  {
    var n, v := UriComponent.Encode(name), UriComponent.Encode(value);
    CutAtFirst(n, '=', v);
    UriComponent.DecodeEncode(name);
    UriComponent.DecodeEncode(value);
  }
}
