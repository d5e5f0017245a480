/** The few ECMAScript string operations the bug tracker relies on, written out
    over Dafny strings (sequences of Unicode scalar values):
    `String.prototype.trim`, the `length` property (UTF-16 code units),
    `toUpperCase` on ASCII letters, `Array.prototype.join` on strings, and
    `parseInt` with no radix argument. */
module JsStrings {
  import opened Wrappers

  // ---------------------------------------------------------------------------
  // Whitespace and trim
  // ---------------------------------------------------------------------------

  /** The code points ECMAScript classes as WhiteSpace or LineTerminator: the
      characters `trim` strips and `parseInt` skips. */
  predicate IsWhitespace(c: char) {
    || c == '\t' || c == '\n' || c == '\U{000B}' || c == '\U{000C}' || c == '\r'
    || c == ' ' || c == '\U{00A0}' || c == '\U{1680}'
    || ('\U{2000}' <= c <= '\U{200A}')
    || c == '\U{2028}' || c == '\U{2029}' || c == '\U{202F}' || c == '\U{205F}'
    || c == '\U{3000}' || c == '\U{FEFF}'
  }

  predicate AllWhitespace(s: string) {
    forall i :: 0 <= i < |s| ==> IsWhitespace(s[i])
  }

  /** Neither begins nor ends with whitespace. */
  predicate Trimmed(s: string) {
    |s| == 0 || (!IsWhitespace(s[0]) && !IsWhitespace(s[|s| - 1]))
  }

  /** `s` is `r` with whitespace-only padding `s[..i]` before it and `s[i + |r|..]` after it. */
  predicate PaddedAt(s: string, r: string, i: int) {
    && 0 <= i && i + |r| <= |s|
    && s[i..i + |r|] == r
    && AllWhitespace(s[..i])
    && AllWhitespace(s[i + |r|..])
  }

  /** Number of whitespace characters at the start of `s`. */
  function LeadingWhitespace(s: string): (n: nat)
    ensures n <= |s|
    ensures forall k :: 0 <= k < n ==> IsWhitespace(s[k])
    ensures n < |s| ==> !IsWhitespace(s[n])
  {
    if |s| == 0 || !IsWhitespace(s[0]) then 0 else 1 + LeadingWhitespace(s[1..])
  }

  /** Number of whitespace characters at the end of `s`. */
  function TrailingWhitespace(s: string): (n: nat)
    ensures n <= |s|
    ensures forall k :: |s| - n <= k < |s| ==> IsWhitespace(s[k])
    ensures n < |s| ==> !IsWhitespace(s[|s| - n - 1])
  {
    if |s| == 0 || !IsWhitespace(s[|s| - 1]) then 0 else 1 + TrailingWhitespace(s[..|s| - 1])
  }

  /** `String.prototype.trim`: the unique trimmed infix of `s` whose padding is whitespace. */
  function Trim(s: string): (r: string)
    ensures Trimmed(r)
    ensures exists i :: PaddedAt(s, r, i)
    ensures |r| == 0 <==> AllWhitespace(s)
    ensures Trimmed(s) ==> r == s
  {
    var lead := LeadingWhitespace(s);
    var t := s[lead..];
    var r := t[..|t| - TrailingWhitespace(t)];
    assert s[lead..lead + |r|] == r;
    assert PaddedAt(s, r, lead);
    r
  }

  lemma TrimIdempotent(s: string)
    ensures Trim(Trim(s)) == Trim(s)
  {
  }

  /** `trim` removes exactly the whitespace padding around a trimmed core. */
  lemma TrimOfPadded(before: string, core: string, after: string)
    requires AllWhitespace(before) && AllWhitespace(after)
    requires |core| > 0 && Trimmed(core)
    ensures Trim(before + core + after) == core
  {
    var s := before + core + after;
    var t := core + after;
    assert s == before + t;
    LeadingWhitespaceOfPadded(before, t);
    assert s[|before|..] == t;
    TrailingWhitespaceOfPadded(core, after);
    assert t[..|core|] == core;
  }

  lemma TrailingWhitespaceOfPadded(t: string, ws: string)
    requires AllWhitespace(ws)
    requires |t| > 0 && !IsWhitespace(t[|t| - 1])
    ensures TrailingWhitespace(t + ws) == |ws|
  {
    var s := t + ws;
    assert s[|t| - 1] == t[|t| - 1];
    assert forall k :: 0 <= k < |ws| ==> s[|t| + k] == ws[k];
  }

  // ---------------------------------------------------------------------------
  // Length in UTF-16 code units
  // ---------------------------------------------------------------------------

  /** Scalar values above U+FFFF take a surrogate pair in UTF-16. */
  predicate InBasicPlane(c: char) {
    c as int <= 0xFFFF
  }

  /** JavaScript's `length` of a string: the number of UTF-16 code units. */
  function Utf16Length(s: string): (n: nat)
    ensures |s| <= n <= 2 * |s|
  {
    if |s| == 0 then 0
    else Utf16Length(s[..|s| - 1]) + (if InBasicPlane(s[|s| - 1]) then 1 else 2)
  }

  /** Outside the supplementary planes every code point is one code unit. */
  lemma {:induction false} Utf16LengthOfBasicPlane(s: string)
    requires forall i :: 0 <= i < |s| ==> InBasicPlane(s[i])
    ensures Utf16Length(s) == |s|
  {
    if |s| > 0 {
      Utf16LengthOfBasicPlane(s[..|s| - 1]);
    }
  }

  // ---------------------------------------------------------------------------
  // Upper case
  // ---------------------------------------------------------------------------

  predicate IsLowerAscii(c: char) {
    'a' <= c <= 'z'
  }

  function UpperChar(c: char): (u: char)
    ensures !IsLowerAscii(u)
    ensures IsLowerAscii(c) ==> u as int == c as int - 32
    ensures !IsLowerAscii(c) ==> u == c
  {
    if IsLowerAscii(c) then (c as int - 32) as char else c
  }

  /** `String.prototype.toUpperCase`, on ASCII letters. */
  function ToUpperCase(s: string): (r: string)
    ensures |r| == |s|
    ensures forall i :: 0 <= i < |s| ==> r[i] == UpperChar(s[i])
  {
    if |s| == 0 then [] else [UpperChar(s[0])] + ToUpperCase(s[1..])
  }

  lemma {:induction false} ToUpperCaseIdempotent(s: string)
    ensures ToUpperCase(ToUpperCase(s)) == ToUpperCase(s)
  {
    var u := ToUpperCase(s);
    assert forall i :: 0 <= i < |u| ==> !IsLowerAscii(u[i]);
  }

  // ---------------------------------------------------------------------------
  // Join
  // ---------------------------------------------------------------------------

  /** The total length of the parts. */
  function TotalLength(parts: seq<string>): nat
  {
    if |parts| == 0 then 0 else TotalLength(parts[..|parts| - 1]) + |parts[|parts| - 1]|
  }

  /** `parts.join(sep)`. */
  function Join(parts: seq<string>, sep: string): (r: string)
    ensures |parts| == 0 ==> r == ""
    ensures |parts| > 0 ==> |r| == TotalLength(parts) + (|parts| - 1) * |sep|
  {
    if |parts| == 0 then ""
    else if |parts| == 1 then parts[0]
    else Join(parts[..|parts| - 1], sep) + sep + parts[|parts| - 1]
  }

  predicate OccursAt(part: string, whole: string, k: int) {
    0 <= k && k + |part| <= |whole| && whole[k..k + |part|] == part
  }

  ghost predicate OccursIn(part: string, whole: string) {
    exists k :: OccursAt(part, whole, k)
  }

  /** Every part can be read back out of the joined string. */
  lemma {:induction false} JoinContainsEach(parts: seq<string>, sep: string)
    ensures forall i :: 0 <= i < |parts| ==> OccursIn(parts[i], Join(parts, sep))
  {
    if |parts| == 1 {
      assert OccursAt(parts[0], Join(parts, sep), 0);
    } else if |parts| > 1 {
      var init := parts[..|parts| - 1];
      var head := Join(init, sep);
      var whole := Join(parts, sep);
      assert whole == head + sep + parts[|parts| - 1];
      JoinContainsEach(init, sep);
      forall i | 0 <= i < |parts| ensures OccursIn(parts[i], whole) {
        if i == |parts| - 1 {
          assert OccursAt(parts[i], whole, |head| + |sep|);
        } else {
          assert OccursIn(init[i], head);
          var k :| OccursAt(init[i], head, k);
          assert whole[k..k + |parts[i]|] == head[k..k + |parts[i]|];
          assert OccursAt(parts[i], whole, k);
        }
      }
    }
  }

  // ---------------------------------------------------------------------------
  // parseInt
  // ---------------------------------------------------------------------------

  predicate IsDecimalDigit(c: char) {
    '0' <= c <= '9'
  }

  /** Value of `c` as a digit in bases up to 36 (letters either case); 36 when it is none. */
  function DigitValue(c: char): (d: nat)
    ensures d <= 36
    ensures IsDecimalDigit(c) <==> d < 10
  {
    if IsDecimalDigit(c) then c as int - '0' as int
    else if 'a' <= c <= 'z' then c as int - 'a' as int + 10
    else if 'A' <= c <= 'Z' then c as int - 'A' as int + 10
    else 36
  }

  /** Length of the longest prefix of `s` made of digits of base `radix`. */
  function DigitRun(s: string, radix: nat): (n: nat)
    ensures n <= |s|
    ensures n < |s| ==> DigitValue(s[n]) >= radix
  {
    if |s| == 0 || DigitValue(s[0]) >= radix then 0 else 1 + DigitRun(s[1..], radix)
  }

  /** Every character of the run is a digit of the radix. */
  lemma {:induction false} DigitRunAllDigits(s: string, radix: nat)
    ensures forall k :: 0 <= k < DigitRun(s, radix) ==> DigitValue(s[k]) < radix
  {
    if |s| > 0 && DigitValue(s[0]) < radix {
      DigitRunAllDigits(s[1..], radix);
    }
  }

  /** The number the digit string `ds` denotes in base `radix`. */
  function NumeralValue(ds: string, radix: nat): nat
  {
    if |ds| == 0 then 0
    else NumeralValue(ds[..|ds| - 1], radix) * radix + DigitValue(ds[|ds| - 1])
  }

  /** The numeral at the start of `w` in base `radix`; `None` when `w` does not start with a digit. */
  function ParseNumeral(w: string, radix: nat): Option<nat>
  {
    var n := DigitRun(w, radix);
    if n == 0 then None else Some(NumeralValue(w[..n], radix))
  }

  /** An unsigned numeral: hexadecimal after a `0x`/`0X` prefix, decimal otherwise. */
  function ParseUnsigned(u: string): Option<nat>
  {
    if |u| >= 2 && u[0] == '0' && (u[1] == 'x' || u[1] == 'X') then ParseNumeral(u[2..], 16)
    else ParseNumeral(u, 10)
  }

  /** `parseInt(s)` with no radix: skip leading whitespace, take one optional
      sign, then an unsigned numeral, ignoring whatever follows its digits;
      `None` is `NaN`. */
  function ParseInt(s: string): (r: Option<int>)
    ensures AllWhitespace(s) ==> r == None
  {
    var t := s[LeadingWhitespace(s)..];
    if |t| > 0 && t[0] == '-' then
      match ParseUnsigned(t[1..])
      case None => None
      case Some(m) => Some(-(m as int))
    else if |t| > 0 && t[0] == '+' then ParseUnsigned(t[1..])
    else ParseUnsigned(t)
  }

  function DecimalDigit(d: nat): (c: char)
    requires d < 10
    ensures IsDecimalDigit(c) && DigitValue(c) == d
  {
    ('0' as int + d) as char
  }

  /** The decimal numeral of `n`, as `String(n)` writes it. */
  function NatToDecimal(n: nat): (s: string)
    ensures |s| > 0
    ensures forall i :: 0 <= i < |s| ==> IsDecimalDigit(s[i])
  {
    if n < 10 then [DecimalDigit(n)] else NatToDecimal(n / 10) + [DecimalDigit(n % 10)]
  }

  lemma {:induction false} NumeralValueOfDecimal(n: nat)
    ensures NumeralValue(NatToDecimal(n), 10) == n
  {
    var s := NatToDecimal(n);
    if n >= 10 {
      NumeralValueOfDecimal(n / 10);
      assert s[..|s| - 1] == NatToDecimal(n / 10);
    } else {
      assert s[..|s| - 1] == [];
    }
  }

  lemma LeadingWhitespaceOfPadded(ws: string, t: string)
    requires AllWhitespace(ws)
    requires |t| > 0 && !IsWhitespace(t[0])
    ensures LeadingWhitespace(ws + t) == |ws|
  {
    var s := ws + t;
    assert s[|ws|] == t[0];
    assert forall k :: 0 <= k < |ws| ==> s[k] == ws[k];
  }

  lemma {:induction false} DigitRunOfDecimal(d: string, rest: string)
    requires forall i :: 0 <= i < |d| ==> IsDecimalDigit(d[i])
    requires |rest| > 0 ==> !IsDecimalDigit(rest[0])
    ensures DigitRun(d + rest, 10) == |d|
  {
    if |d| > 0 {
      assert (d + rest)[0] == d[0];
      assert (d + rest)[1..] == d[1..] + rest;
      DigitRunOfDecimal(d[1..], rest);
    } else {
      assert d + rest == rest;
    }
  }

  lemma ParseUnsignedOfDecimal(n: nat, rest: string)
    requires |rest| > 0 ==> !IsDecimalDigit(rest[0]) && rest[0] != 'x' && rest[0] != 'X'
    ensures ParseUnsigned(NatToDecimal(n) + rest) == Some(n)
  {
    var d := NatToDecimal(n);
    var t := d + rest;
    assert t[0] == d[0];
    assert !(|t| >= 2 && t[0] == '0' && (t[1] == 'x' || t[1] == 'X')) by {
      if |d| == 1 {
        assert |t| >= 2 ==> t[1] == rest[0];
      } else {
        assert t[1] == d[1];
      }
    }
    DigitRunOfDecimal(d, rest);
    assert t[..|d|] == d;
    NumeralValueOfDecimal(n);
  }

  /** `parseInt` reads back the decimal numeral of a natural number, whatever
      whitespace precedes it and whatever non-digit text follows it. */
  lemma ParseIntOfDecimal(ws: string, n: nat, rest: string)
    requires AllWhitespace(ws)
    requires |rest| > 0 ==> !IsDecimalDigit(rest[0]) && rest[0] != 'x' && rest[0] != 'X'
    ensures ParseInt(ws + NatToDecimal(n) + rest) == Some(n)
  {
    var d := NatToDecimal(n);
    var t := d + rest;
    assert ws + d + rest == ws + t;
    LeadingWhitespaceOfPadded(ws, t);
    assert (ws + t)[|ws|..] == t;
    assert t[0] == d[0];
    ParseUnsignedOfDecimal(n, rest);
  }

  /** A minus sign after the whitespace negates the unsigned numeral that follows. */
  lemma ParseIntOfMinus(s: string, t: string, m: nat)
    requires t == s[LeadingWhitespace(s)..]
    requires |t| > 0 && t[0] == '-'
    requires ParseUnsigned(t[1..]) == Some(m)
    ensures ParseInt(s) == Some(-(m as int))
  {
  }

  /** `parseInt` reads a minus sign followed by a decimal numeral as the negated number. */
  lemma ParseIntOfNegativeDecimal(ws: string, n: nat, rest: string)
    requires AllWhitespace(ws)
    requires |rest| > 0 ==> !IsDecimalDigit(rest[0]) && rest[0] != 'x' && rest[0] != 'X'
    ensures ParseInt(ws + "-" + NatToDecimal(n) + rest) == Some(-(n as int))
  {
    var d := NatToDecimal(n);
    var t := "-" + d + rest;
    var s := ws + t;
    assert ws + "-" + d + rest == s;
    LeadingWhitespaceOfPadded(ws, t);
    assert s[|ws|..] == t;
    assert t[1..] == d + rest;
    ParseUnsignedOfDecimal(n, rest);
    ParseIntOfMinus(s, t, n);
  }

  /** Text that, after the whitespace, starts with neither a sign nor a digit is `NaN`. */
  lemma ParseIntOfNonNumeral(ws: string, rest: string)
    requires AllWhitespace(ws)
    requires |rest| > 0 && !IsWhitespace(rest[0]) && !IsDecimalDigit(rest[0])
    requires rest[0] != '-' && rest[0] != '+'
    ensures ParseInt(ws + rest) == None
  {
    LeadingWhitespaceOfPadded(ws, rest);
    assert (ws + rest)[|ws|..] == rest;
  }
}
