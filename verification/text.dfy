/** The few JavaScript string primitives the controllers rely on: `trim()` used as a
    truth test, `startsWith`, `split` on one separator, `parseInt` without a radix, and
    the decimal numerals `String(n)` writes and `Number(s)` reads. */
module Text {
  import opened Wrappers

  /** The characters `String.prototype.trim` removes: ECMAScript WhiteSpace and LineTerminator. */
  predicate IsSpace(c: char) {
    || c == ' ' || c == '\t' || c == '\n' || c == '\r'
    || c == '\U{000B}' || c == '\U{000C}' || c == '\U{00A0}' || c == '\U{1680}'
    || ('\U{2000}' <= c <= '\U{200A}')
    || c == '\U{2028}' || c == '\U{2029}' || c == '\U{202F}' || c == '\U{205F}'
    || c == '\U{3000}' || c == '\U{FEFF}'
  }

  /** `s.trim()` is the empty (falsy) string. */
  predicate IsBlank(s: string) {
    forall i :: 0 <= i < |s| ==> IsSpace(s[i])
  }

  predicate StartsWith(s: string, prefix: string) {
    |prefix| <= |s| && s[..|prefix|] == prefix
  }

  predicate IsDigit(c: char) {
    '0' <= c <= '9'
  }

  function DigitValue(c: char): nat
    requires IsDigit(c)
  {
    c as int - '0' as int
  }

  function DigitChar(d: nat): (c: char)
    requires d < 10
    ensures IsDigit(c) && DigitValue(c) == d
  {
    ('0' as int + d) as char
  }

  /** A digit of base `radix`, which is 10 or 16 (letters in either case). */
  predicate IsDigitIn(c: char, radix: nat) {
    IsDigit(c) || (radix == 16 && ('a' <= c <= 'f' || 'A' <= c <= 'F'))
  }

  /** The value of a decimal or hexadecimal digit (0 for any other character). */
  function DigitWeight(c: char): (w: nat)
    ensures IsDigit(c) ==> w == DigitValue(c)
    ensures w < 16
  {
    if IsDigit(c) then DigitValue(c)
    else if 'a' <= c <= 'f' then c as int - 'a' as int + 10
    else if 'A' <= c <= 'F' then c as int - 'A' as int + 10
    else 0
  }

  /** Length of the run of base-`radix` digits at the start of `s`. */
  function RunIn(s: string, radix: nat): (n: nat)
    ensures n <= |s|
    ensures forall i :: 0 <= i < n ==> IsDigitIn(s[i], radix)
    ensures n < |s| ==> !IsDigitIn(s[n], radix)
  {
    if |s| == 0 || !IsDigitIn(s[0], radix) then 0 else 1 + RunIn(s[1..], radix)
  }

  /** The number a string of decimal digits writes (most significant first). */
  function DecimalValue(s: string): nat {
    if |s| == 0 then 0 else DecimalValue(s[..|s| - 1]) * 10 + DigitWeight(s[|s| - 1])
  }

  /** The number a string of hexadecimal digits writes. */
  function HexValue(s: string): nat {
    if |s| == 0 then 0 else HexValue(s[..|s| - 1]) * 16 + DigitWeight(s[|s| - 1])
  }

  /** The number a string of base-`radix` digits writes, `radix` being 10 or 16. Only
      applied to strings of such digits. */
  function ValueIn(s: string, radix: nat): nat {
    if radix == 16 then HexValue(s) else DecimalValue(s)
  }

  /** The value of the longest run of base-`radix` digits at the start of `s`; `None` when
      `s` does not start with one. */
  function ReadDigits(s: string, radix: nat): (r: Option<nat>)
    ensures r.Some? <==> |s| > 0 && IsDigitIn(s[0], radix)
    ensures |s| > 0 && (forall i :: 0 <= i < |s| ==> IsDigitIn(s[i], radix)) ==> r == Some(ValueIn(s, radix))
  {
    var n := RunIn(s, radix);
    if n == 0 then None
    else
      assert n == |s| ==> s[..n] == s;
      Some(ValueIn(s[..n], radix))
  }

  /** Length of the run of white space at the start of `s`. */
  function SpaceRun(s: string): (n: nat)
    ensures n <= |s|
    ensures forall i :: 0 <= i < n ==> IsSpace(s[i])
    ensures n < |s| ==> !IsSpace(s[n])
  {
    if |s| == 0 || !IsSpace(s[0]) then 0 else 1 + SpaceRun(s[1..])
  }

  /** `parseInt` reads a minus sign after the leading white space. */
  predicate Negative(s: string) {
    var n := SpaceRun(s);
    n < |s| && s[n] == '-'
  }

  /** What `parseInt` reads its digits from: `s` without leading white space and one sign. */
  function Unsigned(s: string): string {
    var n := SpaceRun(s);
    if n < |s| && (s[n] == '-' || s[n] == '+') then s[n + 1..] else s[n..]
  }

  /** The `0x` or `0X` that makes `parseInt` without a radix read base 16. */
  predicate HexPrefixed(t: string) {
    |t| >= 2 && t[0] == '0' && (t[1] == 'x' || t[1] == 'X')
  }

  /** `parseInt(s)` with no radix: leading white space, an optional sign, then base 16
      after a `0x`/`0X` prefix and base 10 otherwise, reading the longest run of digits of
      that base. `None` stands for `NaN` (no digit where one is needed). */
  function ParseInt(s: string): (r: Option<int>)
    ensures !HexPrefixed(Unsigned(s)) ==> (r.Some? <==> |Unsigned(s)| > 0 && IsDigit(Unsigned(s)[0]))
    ensures HexPrefixed(Unsigned(s)) ==> (r.Some? <==> |Unsigned(s)| > 2 && IsDigitIn(Unsigned(s)[2], 16))
    ensures r.Some? && !Negative(s) ==> r.value >= 0
    ensures r.Some? && Negative(s) ==> r.value <= 0
  {
    var body := Unsigned(s);
    var magnitude := if HexPrefixed(body) then ReadDigits(body[2..], 16) else ReadDigits(body, 10);
    match magnitude
    case None => None
    case Some(v) => Some(if Negative(s) then -(v as int) else v)
  }

  /** A string that does not start with white space has no leading run of it. */
  lemma NoLeadingSpace(s: string)
    requires |s| == 0 || !IsSpace(s[0])
    ensures SpaceRun(s) == 0
  {
  }

  /** How `ParseInt` reads a string that has no leading white space or sign. */
  lemma ParseBare(s: string)
    requires |s| > 0 && s[0] != '-' && s[0] != '+' && !IsSpace(s[0])
    ensures ParseInt(s) == if HexPrefixed(s) then ReadDigits(s[2..], 16) else ReadDigits(s, 10)
  {
    NoLeadingSpace(s);
    assert Unsigned(s) == s;
    assert !Negative(s);
  }

  /** A plain numeral never carries the `0x` prefix. */
  lemma NumeralNotHex(s: string)
    requires |s| > 0 && forall i :: 0 <= i < |s| ==> IsDigit(s[i])
    ensures !HexPrefixed(s)
  {
    if |s| >= 2 { assert IsDigit(s[1]); }
  }

  /** A plain numeral is one run of decimal digits. */
  lemma ReadNumeral(s: string)
    requires |s| > 0 && forall i :: 0 <= i < |s| ==> IsDigit(s[i])
    ensures ReadDigits(s, 10) == Some(ValueIn(s, 10))
  {
    assert forall i :: 0 <= i < |s| ==> IsDigitIn(s[i], 10);
  }

  /** A plain numeral reads as its decimal value, leading zeros included. */
  lemma ParseNumeral(s: string)
    requires |s| > 0 && forall i :: 0 <= i < |s| ==> IsDigit(s[i])
    ensures ParseInt(s) == Some(ValueIn(s, 10))
  {
    assert IsDigit(s[0]);
    ParseBare(s);
    NumeralNotHex(s);
    ReadNumeral(s);
  }

  /** `-` in front of `s` is the sign `parseInt` reads, and `s` what it reads digits from. */
  lemma MinusSign(s: string)
    ensures Unsigned("-" + s) == s && Negative("-" + s)
  {
    var t := "-" + s;
    NoLeadingSpace(t);
    assert t[1..] == s;
  }

  /** `ParseInt` negates the decimal magnitude it reads after a minus sign. */
  lemma ParseNegated(s: string, v: nat)
    requires !HexPrefixed(s) && ReadDigits(s, 10) == Some(v)
    ensures ParseInt("-" + s) == Some(-(v as int))
  {
    MinusSign(s);
  }

  /** A minus sign before a plain numeral of value `v` reads as `-v`. */
  lemma ParseNegativeNumeral(s: string, v: nat)
    requires |s| > 0 && forall i :: 0 <= i < |s| ==> IsDigit(s[i])
    requires v == ValueIn(s, 10)
    ensures ParseInt("-" + s) == Some(-(v as int))
  {
    NumeralNotHex(s);
    ReadNumeral(s);
    ParseNegated(s, v);
  }

  /** After `0x`, hexadecimal digits read in base 16. */
  lemma ParseHexNumeral(s: string)
    requires HexPrefixed(s) && |s| > 2 && forall i :: 2 <= i < |s| ==> IsDigitIn(s[i], 16)
    ensures ParseInt(s) == Some(ValueIn(s[2..], 16))
  {
    ParseBare(s);
    var d := s[2..];
    assert forall i :: 0 <= i < |d| ==> IsDigitIn(d[i], 16) by {
      forall i | 0 <= i < |d| ensures IsDigitIn(d[i], 16) { assert d[i] == s[i + 2]; }
    }
  }

  /** `String(n)` for a whole number: its shortest decimal numeral, `-` first when negative. */
  function IntString(n: int): (s: string)
    ensures |s| > 0
    ensures n >= 0 ==> (forall i :: 0 <= i < |s| ==> IsDigit(s[i])) && ValueIn(s, 10) == n
    ensures n >= 0 && |s| > 1 ==> s[0] != '0'
    ensures n < 0 ==> s == "-" + IntString(-n)
    decreases if n < 0 then 1 - n else n
  {
    if n < 0 then "-" + IntString(-n)
    else if n < 10 then
      var c := DigitChar(n);
      assert [c][..0] == [];
      assert DecimalValue([c]) == DigitWeight(c);
      [c]
    else
      var front := IntString(n / 10);
      var s := front + [DigitChar(n % 10)];
      assert s[..|s| - 1] == front;
      s
  }

  /** A numeral as `Number(s)` reads it when it is an optional `-` and decimal digits;
      `None` for every other string. */
  function DecimalInt(s: string): (r: Option<int>)
    ensures r.Some? <==>
      var digits := if |s| > 0 && s[0] == '-' then s[1..] else s;
      |digits| > 0 && forall i :: 0 <= i < |digits| ==> IsDigit(digits[i])
  {
    var negative := |s| > 0 && s[0] == '-';
    var digits := if negative then s[1..] else s;
    if |digits| > 0 && forall i :: 0 <= i < |digits| ==> IsDigit(digits[i]) then
      var v: int := ValueIn(digits, 10);
      Some(if negative then -v else v)
    else None
  }

  /** `Number` reads a plain numeral, with or without a minus sign, as its decimal value. */
  lemma DecimalNumeral(s: string)
    requires |s| > 0 && forall i :: 0 <= i < |s| ==> IsDigit(s[i])
    ensures DecimalInt(s) == Some(ValueIn(s, 10))
    ensures DecimalInt("-" + s) == Some(-(ValueIn(s, 10) as int))
  {
    assert s[0] != '-' by { assert IsDigit(s[0]); }
    assert ("-" + s)[1..] == s;
  }

  /** Both readers give back the number `String(n)` writes. */
  lemma IntStringRoundTrip(n: int)
    ensures DecimalInt(IntString(n)) == Some(n)
    ensures ParseInt(IntString(n)) == Some(n)
  {
    var d := IntString(if n < 0 then -n else n);
    DecimalNumeral(d);
    if n < 0 {
      ParseNegativeNumeral(d, -n);
    } else {
      ParseNumeral(d);
    }
  }

  /** Without a radix, a `0x` month reads in base 16: "0x0C" is 12. */
  lemma HexPrefixExamples()
    ensures ParseInt("0x0C") == Some(12)
  {
    ParseHexNumeral("0x0C");
    assert "0x0C"[2..] == "0C";
    assert ValueIn("0C", 16) == 12 by {
      assert "0C"[..1] == "0";
      assert ValueIn("0", 16) == 0 by { assert "0"[..0] == ""; }
    }
  }

  /** A leading zero alone does not switch base: "08" is 8. */
  lemma LeadingZeroExample()
    ensures ParseInt("08") == Some(8)
  {
    ParseNumeral("08");
    assert ValueIn("08", 10) == 8 by {
      assert "08"[..1] == "0";
      assert ValueIn("0", 10) == 0 by { assert "0"[..0] == ""; }
    }
  }

  /** A run of digits ends where the first non-digit stands. */
  lemma {:induction false} RunAppend(d: string, rest: string, radix: nat)
    requires forall i :: 0 <= i < |d| ==> IsDigitIn(d[i], radix)
    requires |rest| == 0 || !IsDigitIn(rest[0], radix)
    ensures RunIn(d + rest, radix) == |d|
  {
    if |d| == 0 {
      assert d + rest == rest;
    } else {
      assert (d + rest)[1..] == d[1..] + rest;
      RunAppend(d[1..], rest, radix);
    }
  }

  /** `parseInt` reads a numeral up to the first character that is not a digit and
      ignores the rest. */
  lemma ParseStopsAtNonDigit(d: string, rest: string)
    requires |d| > 0 && forall i :: 0 <= i < |d| ==> IsDigit(d[i])
    requires |rest| == 0 || !IsDigit(rest[0])
    requires !HexPrefixed(d + rest)
    ensures ParseInt(d + rest) == Some(ValueIn(d, 10))
  {
    var s := d + rest;
    assert IsDigit(s[0]);
    ParseBare(s);
    RunAppend(d, rest, 10);
    assert s[..|d|] == d;
  }

  /** A `0x` with no hexadecimal digit right after it is `NaN`. */
  lemma HexWithoutDigits(s: string)
    requires HexPrefixed(s) && (|s| == 2 || !IsDigitIn(s[2], 16))
    ensures ParseInt(s) == None
  {
    ParseBare(s);
    assert |s| > 2 ==> s[2..][0] == s[2];
  }

  /** The piece before the first `sep` (the whole string when there is none): `s.split(sep)[0]`. */
  function FirstPiece(s: string, sep: char): (r: string)
    ensures |r| <= |s| && r == s[..|r|]
    ensures sep !in r
    ensures |r| < |s| ==> s[|r|] == sep
  {
    if |s| == 0 || s[0] == sep then "" else [s[0]] + FirstPiece(s[1..], sep)
  }

  /** `s.split(sep)[1]`: the piece between the first and the second `sep`, absent
      (`undefined`) when `s` holds no `sep`. */
  function SecondPiece(s: string, sep: char): (r: Option<string>)
    ensures r.None? <==> sep !in s
  {
    var first := FirstPiece(s, sep);
    if |first| == |s| then None else Some(FirstPiece(s[|first| + 1..], sep))
  }

  /** A piece ending where `sep` first occurs is everything before it. */
  lemma {:induction false} FirstPieceOfJoin(a: string, sep: char, b: string)
    requires sep !in a
    ensures FirstPiece(a + [sep] + b, sep) == a
  {
    if |a| > 0 {
      assert (a + [sep] + b)[1..] == a[1..] + [sep] + b;
      FirstPieceOfJoin(a[1..], sep, b);
    }
  }
}
