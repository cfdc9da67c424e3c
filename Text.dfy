/** The string primitives the routes and the table rely on, with the
    behaviour of the JavaScript and SQLite built-ins they stand for:
    `String.prototype.trim`, `.length` (UTF-16 code units), `toUpperCase`
    as far as a comparison with "YES" can see it, `split("\n")`,
    `startsWith`, SQLite's `LOWER` (ASCII only), and the decimal numerals
    read by `parseInt`/`parseFloat` and written by template strings. */
module Text {
  import opened Wrappers

  // ---------------------------------------------------------------------
  // trim

  /** The characters ECMAScript's `trim` removes: WhiteSpace (tab, vertical
      tab, form feed, space, no-break space, byte order mark and every
      Unicode space separator) and LineTerminator (LF, CR, U+2028, U+2029). */
  predicate IsJsWhitespace(c: char) {
    var n := c as int;
    (9 <= n <= 13) || n == 0x20 || n == 0xA0 || n == 0x1680 || (0x2000 <= n <= 0x200A)
    || n == 0x2028 || n == 0x2029 || n == 0x202F || n == 0x205F || n == 0x3000 || n == 0xFEFF
  }

  /** `s` with its leading whitespace removed. */
  function TrimStart(s: string): (r: string)
    ensures |r| <= |s| && r == s[|s| - |r|..]
    ensures forall k :: 0 <= k < |s| - |r| ==> IsJsWhitespace(s[k])
    ensures r == [] || !IsJsWhitespace(r[0])
  {
    if |s| > 0 && IsJsWhitespace(s[0]) then TrimStart(s[1..]) else s
  }

  /** `s` with its trailing whitespace removed. */
  function TrimEnd(s: string): (r: string)
    ensures |r| <= |s| && r == s[..|r|]
    ensures forall k :: |r| <= k < |s| ==> IsJsWhitespace(s[k])
    ensures r == [] || !IsJsWhitespace(r[|r| - 1])
  {
    if |s| > 0 && IsJsWhitespace(s[|s| - 1]) then TrimEnd(s[..|s| - 1]) else s
  }

  /** `r` is the part of `s` starting at `i`, and only whitespace lies
      before and after it. */
  predicate BlankAround(s: string, i: nat, r: string) {
    i + |r| <= |s| && s[i..i + |r|] == r
    && (forall k :: 0 <= k < i ==> IsJsWhitespace(s[k]))
    && (forall k :: i + |r| <= k < |s| ==> IsJsWhitespace(s[k]))
  }

  /** JavaScript's `s.trim()`: the part of `s` between its leading and its
      trailing whitespace. */
  function Trim(s: string): (r: string)
    ensures |r| <= |s|
    ensures exists i :: BlankAround(s, i, r)
    ensures r == [] || (!IsJsWhitespace(r[0]) && !IsJsWhitespace(r[|r| - 1]))
    ensures r == [] <==> forall k :: 0 <= k < |s| ==> IsJsWhitespace(s[k])
  {
    TrimEndOfTrimStart(s);
    TrimEndOfTrimStartAround(s);
    TrimEnd(TrimStart(s))
  }

  /** Both trims together leave the middle of the string. */
  lemma TrimEndOfTrimStartAround(s: string)
    ensures BlankAround(s, |s| - |TrimStart(s)|, TrimEnd(TrimStart(s)))
  {
    BlankAroundOfParts(s, TrimStart(s), TrimEnd(TrimStart(s)));
  }

  /** A suffix `t` of `s` after blanks, and a prefix `u` of `t` before
      blanks: `u` lies between blanks in `s`. */
  lemma BlankAroundOfParts(s: string, t: string, u: string)
    requires |t| <= |s| && t == s[|s| - |t|..]
    requires forall k :: 0 <= k < |s| - |t| ==> IsJsWhitespace(s[k])
    requires |u| <= |t| && u == t[..|u|]
    requires forall k :: |u| <= k < |t| ==> IsJsWhitespace(t[k])
    ensures BlankAround(s, |s| - |t|, u)
  {
    var i := |s| - |t|;
    assert s[i..i + |u|] == u by {
      assert forall j :: 0 <= j < |u| ==> s[i + j] == t[j] == u[j];
    }
    forall k | i + |u| <= k < |s| ensures IsJsWhitespace(s[k]) {
      assert s[k] == t[k - i];
    }
  }

  lemma TrimEndOfTrimStart(s: string)
    ensures var u := TrimEnd(TrimStart(s));
      (u == [] || (!IsJsWhitespace(u[0]) && !IsJsWhitespace(u[|u| - 1])))
      && (u == [] <==> forall k :: 0 <= k < |s| ==> IsJsWhitespace(s[k]))
  {
    var t := TrimStart(s);
    var u := TrimEnd(t);
    if u == [] {
      assert t == [];
    } else {
      assert u[0] == t[0];
      assert s[|s| - |t|] == u[0];
    }
  }

  /** A string without whitespace at either end is its own trim. */
  lemma TrimOfTrimmed(s: string)
    requires s == [] || (!IsJsWhitespace(s[0]) && !IsJsWhitespace(s[|s| - 1]))
    ensures Trim(s) == s
  {
    if s != [] {
      assert TrimStart(s) == s;
      assert TrimEnd(s) == s;
    }
  }

  /** Trimming twice is trimming once. */
  lemma TrimIdempotent(s: string)
    ensures Trim(Trim(s)) == Trim(s)
  {
    TrimOfTrimmed(Trim(s));
  }

  // ---------------------------------------------------------------------
  // length, case

  /** JavaScript's `s.length`: characters outside the Basic Multilingual
      Plane are stored as a surrogate pair and count twice. */
  function Utf16Length(s: string): (n: nat)
    ensures |s| <= n <= 2 * |s|
  {
    if |s| == 0 then 0
    else Utf16Length(s[..|s| - 1]) + (if s[|s| - 1] as int >= 0x1_0000 then 2 else 1)
  }

  /** SQLite's `LOWER` on one character: it folds the 26 ASCII capitals only. */
  function LowerChar(c: char): char {
    if 'A' <= c <= 'Z' then (c as int + 32) as char else c
  }

  /** SQLite's built-in `LOWER(s)`. */
  function AsciiLower(s: string): (r: string)
    ensures |r| == |s|
    ensures forall i :: 0 <= i < |s| ==> r[i] == LowerChar(s[i])
  {
    seq(|s|, i requires 0 <= i < |s| => LowerChar(s[i]))
  }

  /** Two characters are the same letter up to ASCII case. */
  predicate SameLetter(c: char, d: char) {
    c == d
    || ('A' <= c <= 'Z' && d as int == c as int + 32)
    || ('A' <= d <= 'Z' && c as int == d as int + 32)
  }

  /** Equality that ignores the case of ASCII letters, position by position. */
  predicate EqualIgnoringAsciiCase(a: string, b: string) {
    |a| == |b| && forall i :: 0 <= i < |a| ==> SameLetter(a[i], b[i])
  }

  /** Comparing `LOWER(a)` with `LOWER(b)` is exactly equality up to ASCII case. */
  lemma AsciiLowerMatchesIgnoringCase(a: string, b: string)
    ensures AsciiLower(a) == AsciiLower(b) <==> EqualIgnoringAsciiCase(a, b)
  {
    if AsciiLower(a) == AsciiLower(b) {
      forall i | 0 <= i < |a| ensures SameLetter(a[i], b[i]) {
        assert AsciiLower(a)[i] == AsciiLower(b)[i];
      }
    }
    if EqualIgnoringAsciiCase(a, b) {
      assert forall i :: 0 <= i < |a| ==> AsciiLower(a)[i] == AsciiLower(b)[i];
    }
  }

  /** Case changes do not touch whitespace, so they commute with trimming. */
  lemma TrimOfCaseVariant(a: string, b: string)
    requires EqualIgnoringAsciiCase(a, b)
    ensures EqualIgnoringAsciiCase(Trim(a), Trim(b))
  {
    TrimStartOfCaseVariant(a, b);
    TrimEndOfCaseVariant(TrimStart(a), TrimStart(b));
  }

  lemma {:induction false} TrimStartOfCaseVariant(a: string, b: string)
    requires EqualIgnoringAsciiCase(a, b)
    ensures EqualIgnoringAsciiCase(TrimStart(a), TrimStart(b))
    decreases |a|
  {
    if |a| > 0 {
      assert SameLetter(a[0], b[0]);
      if IsJsWhitespace(a[0]) {
        assert EqualIgnoringAsciiCase(a[1..], b[1..]) by {
          forall i | 0 <= i < |a| - 1 ensures SameLetter(a[1..][i], b[1..][i]) {
            assert SameLetter(a[i + 1], b[i + 1]);
          }
        }
        TrimStartOfCaseVariant(a[1..], b[1..]);
      }
    }
  }

  lemma {:induction false} TrimEndOfCaseVariant(a: string, b: string)
    requires EqualIgnoringAsciiCase(a, b)
    ensures EqualIgnoringAsciiCase(TrimEnd(a), TrimEnd(b))
    decreases |a|
  {
    if |a| > 0 {
      var n := |a| - 1;
      SameLetterWhitespace(a[n], b[n]);
      TrimEndStep(a);
      TrimEndStep(b);
      if IsJsWhitespace(a[n]) {
        assert EqualIgnoringAsciiCase(a[..n], b[..n]) by {
          forall i | 0 <= i < n ensures SameLetter(a[..n][i], b[..n][i]) {
            assert SameLetter(a[i], b[i]);
          }
        }
        TrimEndOfCaseVariant(a[..n], b[..n]);
      }
    }
  }

  /** One step of `TrimEnd`: a trailing blank goes, anything else stops it. */
  lemma TrimEndStep(s: string)
    requires |s| > 0
    ensures TrimEnd(s) == if IsJsWhitespace(s[|s| - 1]) then TrimEnd(s[..|s| - 1]) else s
  {
  }

  /** Letters that differ only in ASCII case are both blank or neither. */
  lemma SameLetterWhitespace(c: char, d: char)
    requires SameLetter(c, d)
    ensures IsJsWhitespace(c) <==> IsJsWhitespace(d)
  {
  }

  /** JavaScript's `toUpperCase` on one character, as far as a comparison
      with "YES" can tell: the ASCII letters, and the long s (U+017F) whose
      capital is 'S'. Every other character is left as it is: no other single
      character has 'Y', 'E' or 'S' as its capital (the dotless i's capital
      'I' is not among them), and no character whose capital is longer than
      one character (the sharp s to "SS", the ligatures) spells "YE", "ES"
      or "YES". */
  function UpperChar(c: char): char {
    if 'a' <= c <= 'z' then (c as int - 32) as char
    else if c as int == 0x17F then 'S'
    else c
  }

  function UpperCase(s: string): (r: string)
    ensures |r| == |s|
    ensures forall i :: 0 <= i < |s| ==> r[i] == UpperChar(s[i])
  {
    seq(|s|, i requires 0 <= i < |s| => UpperChar(s[i]))
  }

  /** JavaScript's `s.startsWith(prefix)`. */
  predicate StartsWith(s: string, prefix: string) {
    |prefix| <= |s| && s[..|prefix|] == prefix
  }

  // ---------------------------------------------------------------------
  // lines

  /** The inverse of `split("\n")`: the pieces joined by line feeds. */
  function JoinLines(lines: seq<string>): string
    requires |lines| >= 1
  {
    if |lines| == 1 then lines[0] else lines[0] + "\n" + JoinLines(lines[1..])
  }

  predicate NoLineFeed(s: string) {
    forall k :: 0 <= k < |s| ==> s[k] != '\n'
  }

  /** JavaScript's `s.split("\n")`: never empty, pieces free of line feeds,
      and joining them back gives `s`. */
  function Split(s: string): (r: seq<string>)
    ensures |r| >= 1
    ensures forall i :: 0 <= i < |r| ==> NoLineFeed(r[i])
    ensures JoinLines(r) == s
    decreases |s|
  {
    if |s| == 0 then [""]
    else
      var rest := Split(s[1..]);
      if s[0] == '\n' then
        assert JoinLines([""] + rest) == "" + "\n" + JoinLines(rest);
        [""] + rest
      else
        var r := [[s[0]] + rest[0]] + rest[1..];
        assert r[1..] == rest[1..];
        assert JoinLines(r) == s by {
          if |rest| > 1 {
            assert JoinLines(rest) == rest[0] + "\n" + JoinLines(rest[1..]);
            assert JoinLines(r) == ([s[0]] + rest[0]) + "\n" + JoinLines(rest[1..]);
          }
        }
        r
  }

  /** Where the first line of a joined text ends. */
  lemma FirstLine(a: seq<string>)
    requires |a| >= 1
    requires forall i :: 0 <= i < |a| ==> NoLineFeed(a[i])
    ensures |a| == 1 ==> NoLineFeed(JoinLines(a))
    ensures |a| > 1 ==> var s := JoinLines(a);
      |a[0]| < |s| && s[|a[0]|] == '\n' && s[..|a[0]|] == a[0]
      && s[|a[0]| + 1..] == JoinLines(a[1..])
  {
    if |a| > 1 {
      var s := JoinLines(a);
      assert s == a[0] + "\n" + JoinLines(a[1..]);
    }
  }

  /** Two ways of cutting one string at its line feeds are the same. */
  lemma {:induction false} JoinLinesInjective(a: seq<string>, b: seq<string>)
    requires |a| >= 1 && |b| >= 1
    requires forall i :: 0 <= i < |a| ==> NoLineFeed(a[i])
    requires forall i :: 0 <= i < |b| ==> NoLineFeed(b[i])
    requires JoinLines(a) == JoinLines(b)
    ensures a == b
    decreases |a|
  {
    FirstLine(a);
    FirstLine(b);
    if |a| > 1 && |b| > 1 {
      var s := JoinLines(a);
      if |a[0]| < |b[0]| {
        assert false;
      } else if |b[0]| < |a[0]| {
        assert false;
      }
      JoinLinesInjective(a[1..], b[1..]);
      assert a == [a[0]] + a[1..];
      assert b == [b[0]] + b[1..];
    } else if |a| > 1 || |b| > 1 {
      assert false;
    }
  }

  /** Splitting lines that were joined gives the lines back. */
  lemma SplitJoinLines(lines: seq<string>)
    requires |lines| >= 1
    requires forall i :: 0 <= i < |lines| ==> NoLineFeed(lines[i])
    ensures Split(JoinLines(lines)) == lines
  {
    JoinLinesInjective(Split(JoinLines(lines)), lines);
  }

  // ---------------------------------------------------------------------
  // decimal numerals

  predicate IsDigit(c: char) { '0' <= c <= '9' }

  predicate IsDigits(s: string) {
    forall k :: 0 <= k < |s| ==> IsDigit(s[k])
  }

  function DigitValue(c: char): nat
    requires IsDigit(c)
  {
    c as int - '0' as int
  }

  function DigitChar(d: nat): (c: char)
    requires d < 10
    ensures IsDigit(c) && DigitValue(c) == d
  {
    ('0' as int + d) as char
  }

  /** The value of a decimal numeral, as `parseInt` reads a run of digits. */
  function DigitsValue(s: string): nat
    requires IsDigits(s)
  {
    if |s| == 0 then 0 else DigitsValue(s[..|s| - 1]) * 10 + DigitValue(s[|s| - 1])
  }

  /** The decimal numeral of `n` as a template string writes it: digits only,
      no leading zero, and read back it is `n` again. */
  function NatToString(n: nat): (r: string)
    ensures |r| >= 1 && IsDigits(r)
    ensures (r[0] == '0') == (n == 0)
    ensures DigitsValue(r) == n
  {
    if n < 10 then [DigitChar(n)]
    else
      var t := NatToString(n / 10);
      var r := t + [DigitChar(n % 10)];
      assert r[..|r| - 1] == t;
      r
  }

  /** The longest run of digits at the front of `s`. */
  function LeadingDigits(s: string): (r: string)
    ensures |r| <= |s| && r == s[..|r|] && IsDigits(r)
    ensures |r| == |s| || !IsDigit(s[|r|])
  {
    if |s| > 0 && IsDigit(s[0]) then [s[0]] + LeadingDigits(s[1..]) else []
  }

  function Pow10(k: nat): (r: nat)
    ensures r >= 1
  {
    if k == 0 then 1 else 10 * Pow10(k - 1)
  }

  /** `parseFloat(s)` on the numerals it can meet here: leading whitespace,
      an optional sign, digits, and an optional fraction, read as far as they
      go; `None` where JavaScript yields NaN (no digit at all). Exponents and
      the word Infinity are not read. */
  function ParseFloat(s: string): (r: Option<real>)
    ensures r.None? <==> !StartsNumeral(Unsigned(TrimStart(s)))
  {
    var t := TrimStart(s);
    if |t| > 0 && t[0] == '-' then
      match ParseUnsigned(t[1..])
      case Some(m) => Some(-m)
      case None => None
    else if |t| > 0 && t[0] == '+' then ParseUnsigned(t[1..])
    else ParseUnsigned(t)
  }

  /** What follows the sign, if any. */
  function Unsigned(t: string): string {
    if |t| > 0 && (t[0] == '-' || t[0] == '+') then t[1..] else t
  }

  /** `s` starts with a digit, or with a point and a digit. */
  predicate StartsNumeral(s: string) {
    (|s| > 0 && IsDigit(s[0])) || (|s| > 1 && s[0] == '.' && IsDigit(s[1]))
  }

  /** Digits with an optional fraction, read as far as they go: a value
      that is never negative, and none exactly when `s` does not start
      with a numeral. */
  function ParseUnsigned(s: string): (r: Option<real>)
    ensures r.None? <==> !StartsNumeral(s)
    ensures r.Some? ==> r.value >= 0.0
  {
    var whole := LeadingDigits(s);
    var after := s[|whole|..];
    var fraction := if |after| > 0 && after[0] == '.' then LeadingDigits(after[1..]) else [];
    if |whole| == 0 && |fraction| == 0 then None
    else Some(DigitsValue(whole) as real + FractionValue(fraction))
  }

  /** The value of the digits after a decimal point: less than one. */
  function FractionValue(digits: string): (r: real)
    requires IsDigits(digits)
    ensures 0.0 <= r < 1.0
  {
    DigitsBelowPow10(digits);
    var r := DigitsValue(digits) as real / Pow10(|digits|) as real;
    QuotientBelowOne(DigitsValue(digits) as real, Pow10(|digits|) as real);
    r
  }

  lemma QuotientBelowOne(a: real, b: real)
    requires 0.0 <= a < b
    ensures 0.0 <= a / b < 1.0
  {
    assert (a / b) * b == a;
  }

  /** `k` digits are worth less than `10^k`. */
  lemma {:induction false} DigitsBelowPow10(s: string)
    requires IsDigits(s)
    ensures DigitsValue(s) < Pow10(|s|)
  {
    if |s| > 0 {
      DigitsBelowPow10(s[..|s| - 1]);
    }
  }

  /** Digits followed by something other than a digit: the digits are the
      leading digits. */
  lemma {:induction false} LeadingDigitsThen(w: string, rest: string)
    requires IsDigits(w) && (rest == [] || !IsDigit(rest[0]))
    ensures LeadingDigits(w + rest) == w
    decreases |w|
  {
    if |w| > 0 {
      assert (w + rest)[1..] == w[1..] + rest;
      LeadingDigitsThen(w[1..], rest);
      assert w == [w[0]] + w[1..];
    } else {
      assert w + rest == rest;
    }
  }

  lemma {:induction false} LeadingDigitsOfDigits(s: string)
    requires IsDigits(s) && |s| > 0
    ensures LeadingDigits(s) == s
  {
    if |s| > 1 {
      LeadingDigitsOfDigits(s[1..]);
    }
  }

  lemma ParseUnsignedOfNumeral(s: string)
    requires IsDigits(s) && |s| > 0
    ensures ParseUnsigned(s) == Some(DigitsValue(s) as real)
  {
    LeadingDigitsOfDigits(s);
    assert s[|s|..] == [];
  }

  /** `parseFloat` reads back every numeral `NatToString` writes. */
  lemma ParseFloatOfNumeral(n: nat)
    ensures ParseFloat(NatToString(n)) == Some(n as real)
  {
    var s := NatToString(n);
    assert TrimStart(s) == s;
    assert IsDigit(s[0]);
    ParseUnsignedOfNumeral(s);
  }

  /** The value of `whole.fraction`: the whole part plus the fraction. */
  function DecimalValue(whole: string, fraction: string): real
    requires IsDigits(whole) && IsDigits(fraction)
  {
    DigitsValue(whole) as real + FractionValue(fraction)
  }

  /** The numeral `whole.fraction`. */
  function Decimal(whole: string, fraction: string): string {
    whole + "." + fraction
  }

  /** `parseFloat` reads a weight written with a fraction, like "0.5":
      its whole part plus its fraction. */
  lemma ParseFloatOfDecimal(whole: string, fraction: string)
    requires IsDigits(whole) && IsDigits(fraction) && |whole| > 0 && |fraction| > 0
    ensures ParseFloat(Decimal(whole, fraction)) == Some(DecimalValue(whole, fraction))
  {
    ParseUnsignedOfDecimal(whole, fraction);
    DecimalStart(whole, fraction);
    ParseFloatOfDigits(Decimal(whole, fraction));
  }

  /** A numeral that starts with a digit reads as itself. */
  lemma ParseFloatOfDigits(s: string)
    requires |s| > 0 && IsDigit(s[0])
    ensures ParseFloat(s) == ParseUnsigned(s)
  {
    TrimStartOfNonBlank(s);
  }

  lemma DecimalStart(whole: string, fraction: string)
    requires IsDigits(whole) && |whole| > 0
    ensures |Decimal(whole, fraction)| > 0 && IsDigit(Decimal(whole, fraction)[0])
  {
    assert Decimal(whole, fraction)[0] == whole[0];
  }

  /** After a minus, a numeral reads as its negation ("-1.25" with
      `ParseFloatOfDecimal`). */
  lemma ParseFloatOfNegative(s: string, m: real)
    requires ParseUnsigned(s) == Some(m)
    ensures ParseFloat("-" + s) == Some(-m)
  {
    var t := "-" + s;
    TrimStartOfNonBlank(t);
    assert t[1..] == s;
  }

  /** A string that starts with a non-blank keeps its start. */
  lemma TrimStartOfNonBlank(s: string)
    requires |s| > 0 && !IsJsWhitespace(s[0])
    ensures TrimStart(s) == s
  {
  }

  lemma ParseUnsignedOfDecimal(whole: string, fraction: string)
    requires IsDigits(whole) && IsDigits(fraction) && |whole| > 0 && |fraction| > 0
    ensures ParseUnsigned(Decimal(whole, fraction)) == Some(DecimalValue(whole, fraction))
  {
    var numeral, after := Decimal(whole, fraction), "." + fraction;
    assert numeral == whole + after;
    LeadingDigitsThen(whole, after);
    assert numeral[|whole|..] == after;
    assert after[1..] == fraction;
    LeadingDigitsOfDigits(fraction);
    ParseUnsignedWith(numeral, whole, fraction);
  }

  /** Leading digits `w`, a point, and fraction digits `f` read as `w.f`. */
  lemma ParseUnsignedWith(s: string, w: string, f: string)
    requires IsDigits(w) && IsDigits(f) && |w| > 0
    requires LeadingDigits(s) == w && |w| < |s| && s[|w|] == '.'
    requires LeadingDigits(s[|w|..][1..]) == f
    ensures ParseUnsigned(s) == Some(DigitsValue(w) as real + FractionValue(f))
  {
  }

}
