/** The JavaScript string built-ins the handlers rely on: `startsWith`,
    `split` on one character, `trim`, ASCII case mapping, `\s`, and the
    decimal rendering of a non-negative integer. */
module JsText {

  /** `\s` in a JavaScript regular expression, which is also what
      `String.prototype.trim` strips: WhiteSpace and LineTerminator. */
  predicate IsWhitespace(c: char)
  {
    var n := c as int;
    (0x09 <= n <= 0x0D) || n == 0x20 || n == 0xA0 || n == 0x1680
    || (0x2000 <= n <= 0x200A) || n == 0x2028 || n == 0x2029
    || n == 0x202F || n == 0x205F || n == 0x3000 || n == 0xFEFF
  }

  predicate IsAsciiUpper(c: char) { 'A' <= c <= 'Z' }
  predicate IsAsciiLower(c: char) { 'a' <= c <= 'z' }
  predicate IsAsciiDigit(c: char) { '0' <= c <= '9' }

  function UpperChar(c: char): char
  {
    if IsAsciiLower(c) then (c as int - 32) as char else c
  }

  function LowerChar(c: char): char
  {
    if IsAsciiUpper(c) then (c as int + 32) as char else c
  }

  /** `toUpperCase`, on the ASCII letters. */
  function ToUpper(s: string): string
  {
    seq(|s|, i requires 0 <= i < |s| => UpperChar(s[i]))
  }

  /** `toLowerCase`, on the ASCII letters. */
  function ToLower(s: string): string
  {
    seq(|s|, i requires 0 <= i < |s| => LowerChar(s[i]))
  }

  predicate StartsWith(s: string, prefix: string)
  {
    |prefix| <= |s| && s[..|prefix|] == prefix
  }

  /** `s.split(sep)` for a one-character separator: the pieces between
      separators, so that `"".split(sep)` is `[""]` and adjacent
      separators give empty pieces. */
  function Split(s: string, sep: char): (pieces: seq<string>)
    ensures |pieces| >= 1
  {
    if s == [] then [""]
    else if s[0] == sep then [""] + Split(s[1..], sep)
    else
      var rest := Split(s[1..], sep);
      [[s[0]] + rest[0]] + rest[1..]
  }

  /** `s.lastIndexOf(c)`: the greatest index holding `c`, or -1. */
  function LastIndexOf(s: string, c: char): (k: int)
    ensures -1 <= k < |s|
    ensures k >= 0 ==> s[k] == c
  {
    if s == [] then -1
    else
      var k := LastIndexOf(s[1..], c);
      if k >= 0 then k + 1 else if s[0] == c then 0 else -1
  }

  /** A string with no separator splits into itself alone. */
  lemma {:induction false} SplitWithoutSeparator(s: string, c: char)
    requires LastIndexOf(s, c) < 0
    ensures Split(s, c) == [s]
  {
    if s != [] {
      SplitWithoutSeparator(s[1..], c);
      assert [s[0]] + s[1..] == s;
    }
  }

  /** A string holding the separator splits into at least two pieces. */
  lemma {:induction false} SplitWithSeparator(s: string, c: char)
    requires LastIndexOf(s, c) >= 0
    ensures |Split(s, c)| >= 2
  {
    if s[0] != c {
      SplitWithSeparator(s[1..], c);
    }
  }

  /** The last piece of a split is the text after the last separator;
      with no separator it is the whole string. */
  lemma {:induction false} SplitLast(s: string, c: char)
    ensures Last(Split(s, c)) == s[LastIndexOf(s, c) + 1..]
  {
    if s != [] && (s[0] == c || LastIndexOf(s[1..], c) >= 0) {
      SplitLast(s[1..], c);
      SliceOfTail(s, LastIndexOf(s[1..], c) + 1);
      SplitLastStep(s, c);
    } else {
      SplitLastNone(s, c);
    }
  }

  /** `SplitLast` when the string holds no separator at all. */
  lemma SplitLastNone(s: string, c: char)
    requires s == [] || (s[0] != c && LastIndexOf(s[1..], c) < 0)
    ensures Last(Split(s, c)) == s[LastIndexOf(s, c) + 1..]
  {
    assert LastIndexOf(s, c) == -1;
    SplitWithoutSeparator(s, c);
  }

  /** The inductive step of `SplitLast`, when the head is a separator or
      the tail holds one. */
  lemma SplitLastStep(s: string, c: char)
    requires s != [] && (s[0] == c || LastIndexOf(s[1..], c) >= 0)
    requires Last(Split(s[1..], c)) == s[LastIndexOf(s[1..], c) + 2..]
    ensures Last(Split(s, c)) == s[LastIndexOf(s, c) + 1..]
  {
    LastIndexOfHead(s, c);
    if LastIndexOf(s[1..], c) >= 0 {
      SplitWithSeparator(s[1..], c);
    }
    LastPieceOfTail(s, c);
  }

  lemma LastIndexOfHead(s: string, c: char)
    requires s != [] && (s[0] == c || LastIndexOf(s[1..], c) >= 0)
    ensures LastIndexOf(s, c) == LastIndexOf(s[1..], c) + 1
  {
  }

  /** The last piece of `s` is the last piece of its tail, unless the head
      is glued to a tail that splits into a single piece. */
  lemma LastPieceOfTail(s: string, c: char)
    requires s != [] && (s[0] == c || |Split(s[1..], c)| >= 2)
    ensures Last(Split(s, c)) == Last(Split(s[1..], c))
  {
  }

  lemma SliceOfTail(s: string, j: nat)
    requires s != [] && j <= |s| - 1
    ensures s[1..][j..] == s[j + 1..]
  {
  }

  /** No occurrence of the character follows the one `LastIndexOf` finds. */
  lemma {:induction false} LastIndexOfIsLast(s: string, c: char)
    ensures forall j :: LastIndexOf(s, c) < j < |s| ==> s[j] != c
  {
    if s != [] {
      LastIndexOfIsLast(s[1..], c);
      assert forall j :: 0 < j < |s| ==> s[j] == s[1..][j - 1];
    }
  }

  /** The separator placed right before a separator-free tail is the last one. */
  lemma {:induction false} LastIndexOfBeforeTail(p: string, c: char, e: string)
    requires c !in e
    ensures LastIndexOf(p + [c] + e, c) == |p|
  {
    if p == [] {
      assert forall j :: 0 < j < |[c] + e| ==> ([c] + e)[j] == e[j - 1];
    } else {
      LastIndexOfBeforeTail(p[1..], c, e);
      assert (p + [c] + e)[1..] == p[1..] + [c] + e;
    }
  }

  function Last<T>(s: seq<T>): T
    requires |s| >= 1
  {
    s[|s| - 1]
  }

  /** Every piece of a split is free of the separator, and joining the
      pieces with the separator gives back the string. */
  lemma {:induction false} SplitJoin(s: string, c: char)
    ensures forall i :: 0 <= i < |Split(s, c)| ==> c !in Split(s, c)[i]
    ensures Join(Split(s, c), c) == s
  {
    if s != [] {
      SplitJoin(s[1..], c);
      var rest := Split(s[1..], c);
      if s[0] == c {
        assert Split(s, c) == [""] + rest;
        assert Join([""] + rest, c) == [c] + Join(rest, c);
      } else {
        JoinHead(rest, [s[0]], c);
        assert [s[0]] + s[1..] == s;
      }
    }
  }

  /** The inverse of `Split`: the pieces with the separator between them. */
  function Join(pieces: seq<string>, sep: char): string
  {
    if |pieces| == 0 then ""
    else if |pieces| == 1 then pieces[0]
    else pieces[0] + [sep] + Join(pieces[1..], sep)
  }

  lemma JoinHead(pieces: seq<string>, h: string, sep: char)
    requires |pieces| >= 1
    ensures Join([h + pieces[0]] + pieces[1..], sep) == h + Join(pieces, sep)
  {
    var p := [h + pieces[0]] + pieces[1..];
    assert p[1..] == pieces[1..];
  }

  /** `trim`: leading and trailing whitespace removed. */
  function Trim(s: string): string
  {
    TrimEnd(TrimStart(s))
  }

  function TrimStart(s: string): string
  {
    if s != [] && IsWhitespace(s[0]) then TrimStart(s[1..]) else s
  }

  function TrimEnd(s: string): string
  {
    if s != [] && IsWhitespace(s[|s| - 1]) then TrimEnd(s[..|s| - 1]) else s
  }

  function DigitChar(d: nat): char
    requires d < 10
  {
    ('0' as int + d) as char
  }

  /** The decimal rendering of a non-negative integer, as template
      literals and `String(n)` give it: no leading zero but for 0 itself. */
  function NatToString(n: nat): (s: string)
    ensures |s| >= 1
    ensures forall i :: 0 <= i < |s| ==> IsAsciiDigit(s[i])
    ensures s[0] == '0' <==> n == 0
  {
    if n < 10 then [DigitChar(n)] else NatToString(n / 10) + [DigitChar(n % 10)]
  }

  function DigitValue(c: char): int
  {
    c as int - '0' as int
  }

  /** Reading decimal digits left to right, as `parseInt` does, starting
      from the value `acc` of the digits already read. */
  function DecimalFold(acc: int, s: string): int
    decreases |s|
  {
    if s == [] then acc else DecimalFold(acc * 10 + DigitValue(s[0]), s[1..])
  }

  function DecimalValue(s: string): int
  {
    DecimalFold(0, s)
  }

  /** Reading one more digit at the end multiplies by ten and adds it. */
  lemma {:induction false} DecimalFoldSnoc(acc: int, s: string, c: char)
    ensures DecimalFold(acc, s + [c]) == DecimalFold(acc, s) * 10 + DigitValue(c)
    decreases |s|
  {
    if s == [] {
      assert DecimalFold(acc * 10 + DigitValue(c), []) == acc * 10 + DigitValue(c);
    } else {
      assert (s + [c])[1..] == s[1..] + [c];
      DecimalFoldSnoc(acc * 10 + DigitValue(s[0]), s[1..], c);
    }
  }

  /** Reading the rendering back gives the number. */
  lemma {:induction false} NatToStringValue(n: nat)
    ensures DecimalValue(NatToString(n)) == n
  {
    if n < 10 {
      assert DecimalFold(0, [DigitChar(n)]) == DecimalFold(n, []);
    } else {
      NatToStringValue(n / 10);
      DecimalFoldSnoc(0, NatToString(n / 10), DigitChar(n % 10));
    }
  }

  /** The characters `encodeURIComponent` leaves as they are. */
  predicate IsUriUnreserved(c: char)
  {
    IsAsciiUpper(c) || IsAsciiLower(c) || IsAsciiDigit(c) || c in "-_.!~*'()"
  }

  predicate IsAscii(c: char) { c as int < 128 }

  /** The value of an upper-case hexadecimal digit; 0 for any other
      character. */
  function HexValue(c: char): (v: nat)
    ensures v < 16
  {
    if IsAsciiDigit(c) then c as int - '0' as int
    else if 'A' <= c <= 'F' then c as int - 'A' as int + 10
    else 0
  }

  function HexDigit(n: nat): (c: char)
    requires n < 16
    ensures IsAsciiDigit(c) || 'A' <= c <= 'F'
    ensures HexValue(c) == n
  {
    if n < 10 then DigitChar(n) else ('A' as int + n - 10) as char
  }

  /** `encodeURIComponent` on ASCII text: unreserved characters stay, every
      other character becomes `%` and two upper-case hex digits. */
  function EncodeUriComponent(s: string): (r: string)
    requires forall i :: 0 <= i < |s| ==> IsAscii(s[i])
    ensures |r| >= |s|
    ensures forall i :: 0 <= i < |r| ==> IsUriUnreserved(r[i]) || r[i] == '%'
  {
    if s == [] then ""
    else
      assert IsAscii(s[0]);
      var head := if IsUriUnreserved(s[0]) then [s[0]]
        else ['%', HexDigit(s[0] as int / 16), HexDigit(s[0] as int % 16)];
      head + EncodeUriComponent(s[1..])
  }

  /** `decodeURIComponent` on what `EncodeUriComponent` produces: a `%`
      with two hex digits is the character of that code, anything else is
      itself. */
  function DecodeUriComponent(r: string): (s: string)
    ensures |s| <= |r|
  {
    if r == [] then ""
    else if r[0] == '%' && |r| >= 3 then [(HexValue(r[1]) * 16 + HexValue(r[2])) as char] + DecodeUriComponent(r[3..])
    else [r[0]] + DecodeUriComponent(r[1..])
  }

  /** Decoding an encoding gives the text back, so no two texts share an
      encoding. */
  lemma {:induction false} EncodeDecode(s: string)
    requires forall i :: 0 <= i < |s| ==> IsAscii(s[i])
    ensures DecodeUriComponent(EncodeUriComponent(s)) == s
  {
    if s != [] {
      EncodeDecode(s[1..]);
      assert IsAscii(s[0]);
      if IsUriUnreserved(s[0]) {
        DecodePlain(s[0], EncodeUriComponent(s[1..]));
      } else {
        DecodeEscape(s[0], EncodeUriComponent(s[1..]));
      }
      assert s == [s[0]] + s[1..];
    }
  }

  lemma DecodePlain(c: char, rest: string)
    requires c != '%'
    ensures DecodeUriComponent([c] + rest) == [c] + DecodeUriComponent(rest)
  {
    assert ([c] + rest)[1..] == rest;
  }

  lemma DecodeEscape(c: char, rest: string)
    requires IsAscii(c)
    ensures DecodeUriComponent(['%', HexDigit(c as int / 16), HexDigit(c as int % 16)] + rest)
      == [c] + DecodeUriComponent(rest)
  {
    var code := c as int;
    var enc := ['%', HexDigit(code / 16), HexDigit(code % 16)] + rest;
    assert enc[1] == HexDigit(code / 16) && enc[2] == HexDigit(code % 16);
    assert enc[3..] == rest;
    assert (code / 16 * 16 + code % 16) as char == c;
  }

  /** Text made only of unreserved characters is not changed by encoding. */
  lemma {:induction false} EncodeUnreservedIdentity(s: string)
    requires forall i :: 0 <= i < |s| ==> IsUriUnreserved(s[i])
    ensures forall i :: 0 <= i < |s| ==> IsAscii(s[i])
    ensures EncodeUriComponent(s) == s
  {
    if s != [] {
      EncodeUnreservedIdentity(s[1..]);
      assert [s[0]] + s[1..] == s;
    }
  }
}
