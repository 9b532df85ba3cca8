/** The JavaScript string operations the timetable code relies on, on `seq<char>`. */
module Text {
  import opened Base

  predicate IsDigit(c: char) { '0' <= c <= '9' }
  predicate IsUpper(c: char) { 'A' <= c <= 'Z' }
  predicate IsLower(c: char) { 'a' <= c <= 'z' }

  /** The characters `String.prototype.trim` removes: ECMAScript WhiteSpace and LineTerminator. */
  predicate IsJsWhitespace(c: char) {
    c == ' ' || c == '\t' || c == '\n' || c == '\r' || c == '\U{B}' || c == '\U{C}'
    || c == '\U{A0}' || c == '\U{1680}' || ('\U{2000}' <= c <= '\U{200A}')
    || c == '\U{2028}' || c == '\U{2029}' || c == '\U{202F}' || c == '\U{205F}'
    || c == '\U{3000}' || c == '\U{FEFF}'
  }

  predicate StartsWith(s: string, prefix: string) {
    |prefix| <= |s| && s[..|prefix|] == prefix
  }

  /** Leading whitespace removed. */
  function TrimStart(s: string): (r: string)
    ensures |r| <= |s| && r == s[|s| - |r|..]
    ensures r == [] || !IsJsWhitespace(r[0])
    ensures forall i :: 0 <= i < |s| - |r| ==> IsJsWhitespace(s[i])
  {
    if s != [] && IsJsWhitespace(s[0]) then TrimStart(s[1..]) else s
  }

  /** Trailing whitespace removed. */
  function TrimEnd(s: string): (r: string)
    ensures |r| <= |s| && r == s[..|r|]
    ensures r == [] || !IsJsWhitespace(r[|r| - 1])
    ensures forall i :: |r| <= i < |s| ==> IsJsWhitespace(s[i])
  {
    if s != [] && IsJsWhitespace(s[|s| - 1]) then TrimEnd(s[..|s| - 1]) else s
  }

  /** `String.prototype.trim`. */
  function Trim(s: string): (r: string)
    ensures r == [] || (!IsJsWhitespace(r[0]) && !IsJsWhitespace(r[|r| - 1]))
    ensures r == [] <==> forall i :: 0 <= i < |s| ==> IsJsWhitespace(s[i])
  {
    var t := TrimStart(s);
    var r := TrimEnd(t);
    assert r != [] ==> r[0] == t[0];
    r
  }

  function UpperChar(c: char): char {
    if IsLower(c) then (c as int - 32) as char else c
  }

  function LowerChar(c: char): char {
    if IsUpper(c) then (c as int + 32) as char else c
  }

  /** `toUpperCase` on the ASCII letters; other characters are kept. */
  function Upper(s: string): (r: string)
    ensures |r| == |s| && forall i :: 0 <= i < |s| ==> r[i] == UpperChar(s[i])
  {
    seq(|s|, i requires 0 <= i < |s| => UpperChar(s[i]))
  }

  /** `toLowerCase` on the ASCII letters; other characters are kept. */
  function Lower(s: string): (r: string)
    ensures |r| == |s| && forall i :: 0 <= i < |s| ==> r[i] == LowerChar(s[i])
  {
    seq(|s|, i requires 0 <= i < |s| => LowerChar(s[i]))
  }

  lemma {:induction false} UpperOfLower(s: string)
    ensures Upper(Lower(s)) == Upper(s) && Lower(Lower(s)) == Lower(s) && Upper(Upper(s)) == Upper(s)
  {
  }

  /** JavaScript's `a < b` on strings: lexicographic by character. */
  predicate LexLess(a: string, b: string) {
    if a == [] then b != []
    else if b == [] then false
    else if a[0] != b[0] then a[0] < b[0]
    else LexLess(a[1..], b[1..])
  }

  predicate LexLessEq(a: string, b: string) {
    a == b || LexLess(a, b)
  }

  lemma {:induction false} LexLessIrreflexive(a: string)
    ensures !LexLess(a, a)
  {
    if a != [] { LexLessIrreflexive(a[1..]); }
  }

  lemma {:induction false} LexLessTotal(a: string, b: string)
    ensures LexLess(a, b) || a == b || LexLess(b, a)
  {
    if a != [] && b != [] && a[0] == b[0] {
      LexLessTotal(a[1..], b[1..]);
      assert a == [a[0]] + a[1..] && b == [b[0]] + b[1..];
    }
  }

  lemma {:induction false} LexLessAsymmetric(a: string, b: string)
    ensures !(LexLess(a, b) && LexLess(b, a))
  {
    if a != [] && b != [] && a[0] == b[0] { LexLessAsymmetric(a[1..], b[1..]); }
  }

  lemma {:induction false} LexLessTransitive(a: string, b: string, c: string)
    requires LexLess(a, b) && LexLess(b, c)
    ensures LexLess(a, c)
  {
    if a != [] && b != [] && c != [] && a[0] == b[0] && b[0] == c[0] {
      LexLessTransitive(a[1..], b[1..], c[1..]);
    }
  }

  /** The decimal digit of `d`. */
  function DigitChar(d: nat): char
    requires d < 10
  {
    ('0' as int + d) as char
  }

  /** The value of a string of decimal digits; the empty string is 0. */
  function DigitsValue(s: string): nat
    requires forall i :: 0 <= i < |s| ==> IsDigit(s[i])
  {
    if s == [] then 0
    else
      assert IsDigit(s[|s| - 1]);
      DigitsValue(s[..|s| - 1]) * 10 + (s[|s| - 1] as int - '0' as int)
  }

  /** `String(n)` for a natural number: decimal, no leading zero. */
  function NatToString(n: nat): (r: string)
    ensures r != [] && forall i :: 0 <= i < |r| ==> IsDigit(r[i])
    ensures r[0] == '0' ==> n == 0 && r == "0"
  {
    if n < 10 then [DigitChar(n)] else NatToString(n / 10) + [DigitChar(n % 10)]
  }

  /** Reading back what `NatToString` wrote gives the number. */
  lemma {:induction false} NatToStringRoundTrip(n: nat)
    ensures DigitsValue(NatToString(n)) == n
  {
    if n >= 10 {
      NatToStringRoundTrip(n / 10);
      var s := NatToString(n);
      assert s[..|s| - 1] == NatToString(n / 10);
    }
  }

  /** The longest prefix of decimal digits. */
  function DigitPrefix(s: string): (r: string)
    ensures StartsWith(s, r) && forall i :: 0 <= i < |r| ==> IsDigit(r[i])
    ensures |r| < |s| ==> !IsDigit(s[|r|])
  {
    if s != [] && IsDigit(s[0]) then [s[0]] + DigitPrefix(s[1..]) else []
  }

  predicate AllDigits(s: string) {
    forall i :: 0 <= i < |s| ==> IsDigit(s[i])
  }

  /**
   * `Number(s)` on the strings a timetable holds: after trimming, the empty
   * string is 0 and an optionally signed run of decimal digits is its value;
   * anything else is `NaN`, written `None`.
   */
  function ToNumber(s: string): (r: Option<int>)
    ensures AllDigits(s) ==> r == Some(DigitsValue(s))
  {
    var t := Trim(s);
    assert AllDigits(s) ==> t == s;
    if AllDigits(t) then Some(DigitsValue(t))
    else if t[0] == '-' && |t| > 1 && AllDigits(t[1..]) then Some(-(DigitsValue(t[1..]) as int))
    else if t[0] == '+' && |t| > 1 && AllDigits(t[1..]) then Some(DigitsValue(t[1..]))
    else None
  }

  predicate IsHexDigit(c: char) { IsDigit(c) || 'a' <= c <= 'f' || 'A' <= c <= 'F' }

  function HexDigitValue(c: char): (v: nat)
    requires IsHexDigit(c)
    ensures v < 16
  {
    if IsDigit(c) then c as int - '0' as int
    else if 'a' <= c <= 'f' then c as int - 'a' as int + 10
    else c as int - 'A' as int + 10
  }

  /** The value of a string of hexadecimal digits; the empty string is 0. */
  function HexValue(s: string): nat
    requires forall i :: 0 <= i < |s| ==> IsHexDigit(s[i])
  {
    if s == [] then 0 else HexValue(s[..|s| - 1]) * 16 + HexDigitValue(s[|s| - 1])
  }

  /** The longest prefix of hexadecimal digits. */
  function HexPrefix(s: string): (r: string)
    ensures StartsWith(s, r) && forall i :: 0 <= i < |r| ==> IsHexDigit(r[i])
    ensures |r| < |s| ==> !IsHexDigit(s[|r|])
  {
    if s != [] && IsHexDigit(s[0]) then [s[0]] + HexPrefix(s[1..]) else []
  }

  /** `0x` or `0X`: with no radix given, `parseInt` then reads base 16. */
  predicate HasHexPrefix(u: string)
  {
    |u| >= 2 && u[0] == '0' && (u[1] == 'x' || u[1] == 'X')
  }

  /** What is left once `parseInt` has skipped leading whitespace and one sign. */
  function Unsigned(s: string): (u: string)
    ensures |u| <= |s|
  {
    var t := TrimStart(s);
    if t != [] && (t[0] == '-' || t[0] == '+') then t[1..] else t
  }

  /** The leading whitespace is followed by a minus sign. */
  predicate Negative(s: string)
  {
    var t := TrimStart(s); t != [] && t[0] == '-'
  }

  /** The value of the digits after the sign: base 16 after `0x`/`0X`, else base 10; `None` when no such digit follows. */
  function UnsignedValue(u: string): (r: Option<nat>)
    ensures r.Some? <==> if HasHexPrefix(u) then |u| > 2 && IsHexDigit(u[2]) else u != [] && IsDigit(u[0])
  {
    if HasHexPrefix(u) then
      var d := HexPrefix(u[2..]);
      if d == [] then None else Some(HexValue(d))
    else
      var d := DigitPrefix(u);
      if d == [] then None else Some(DigitsValue(d))
  }

  /**
   * `Number.parseInt(s)` with no radix: leading whitespace and one sign are
   * skipped, a `0x`/`0X` prefix then selects hexadecimal and otherwise the
   * digits are decimal; at least one digit of that base must follow, and the
   * longest run of them is the value. `None` is `NaN`.
   */
  function ParseInt(s: string): (r: Option<int>)
  {
    match UnsignedValue(Unsigned(s))
    case None => None
    case Some(v) => if Negative(s) then Some(-(v as int)) else Some(v)
  }

  /** `parseInt` is a number exactly when a digit of the chosen base follows the sign and any radix prefix. */
  lemma {:induction false} ParseIntDefined(s: string)
    ensures ParseInt(s).Some? <==> var u := Unsigned(s);
      if HasHexPrefix(u) then |u| > 2 && IsHexDigit(u[2]) else u != [] && IsDigit(u[0])
  {
    var u := Unsigned(s);
    assert ParseInt(s).Some? <==> UnsignedValue(u).Some?;
  }

  /** A run of hexadecimal digits is its own longest hexadecimal prefix. */
  lemma {:induction false} HexPrefixAll(d: string)
    requires forall i :: 0 <= i < |d| ==> IsHexDigit(d[i])
    ensures HexPrefix(d) == d
  {
    if d != [] {
      HexPrefixAll(d[1..]);
    }
  }

  /** The radix prefix: after "0x" the hexadecimal digits are the value ("0x1A" is 26). */
  lemma {:induction false} ParseIntHex(d: string)
    requires d != [] && forall i :: 0 <= i < |d| ==> IsHexDigit(d[i])
    ensures ParseInt("0x" + d) == Some(HexValue(d))
  {
    HexPrefixAll(d);
    var s := "0x" + d;
    assert s[0] == '0' && !IsJsWhitespace(s[0]);
    assert TrimStart(s) == s;
    assert Unsigned(s) == s && !Negative(s) && HasHexPrefix(s);
    assert s[2..] == d;
  }

  /** The sign comes before the prefix: "-0X" and hexadecimal digits is the negated value. */
  lemma {:induction false} ParseIntHexNegative(d: string)
    requires d != [] && forall i :: 0 <= i < |d| ==> IsHexDigit(d[i])
    ensures ParseInt("-0X" + d) == Some(-(HexValue(d) as int))
  {
    HexPrefixAll(d);
    var n := "-0X" + d;
    assert n[0] == '-' && !IsJsWhitespace(n[0]);
    assert TrimStart(n) == n;
    assert Negative(n) && Unsigned(n) == "0X" + d;
    assert HasHexPrefix("0X" + d) && ("0X" + d)[2..] == d;
  }

  /** A radix prefix with no digit after it is `NaN`, not 0. */
  lemma {:induction false} ParseIntHexEmpty()
    ensures ParseInt("0x") == None
  {
    var s := "0x";
    assert s[0] == '0' && !IsJsWhitespace(s[0]);
    assert TrimStart(s) == s;
    assert Unsigned(s) == s && !Negative(s);
    assert HasHexPrefix(s) && s[2..] == [];
    assert UnsignedValue(s) == None;
  }

  /** A run of decimal digits is its own longest decimal prefix. */
  lemma {:induction false} DigitPrefixAll(d: string)
    requires AllDigits(d)
    ensures DigitPrefix(d) == d
  {
    if d != [] {
      DigitPrefixAll(d[1..]);
    }
  }

  /** A run of decimal digits, leading zeros included, reads as its decimal value: "08" is 8, not octal. */
  lemma {:induction false} ParseIntDecimal(d: string)
    requires d != [] && AllDigits(d)
    ensures ParseInt(d) == Some(DigitsValue(d))
  {
    DigitPrefixAll(d);
    assert !IsJsWhitespace(d[0]);
    assert TrimStart(d) == d;
    assert Unsigned(d) == d && !Negative(d) && !HasHexPrefix(d);
  }

  /** Digits with a non-zero lead are worth at least one. */
  lemma {:induction false} DigitsValuePositive(s: string)
    requires s != [] && AllDigits(s) && s[0] != '0'
    ensures DigitsValue(s) >= 1
  {
    if |s| > 1 {
      DigitsValuePositive(s[..|s| - 1]);
    }
  }

  /** A string that starts with a non-zero digit parses to a positive integer; a lone digit to its value. */
  lemma {:induction false} ParseIntLeadingDigit(s: string)
    requires s != [] && '1' <= s[0] <= '9'
    ensures ParseInt(s).Some? && ParseInt(s).value >= 1
    ensures |s| == 1 ==> ParseInt(s) == Some(s[0] as int - '0' as int)
  {
    assert !IsJsWhitespace(s[0]);
    assert TrimStart(s) == s && Unsigned(s) == s && !Negative(s) && !HasHexPrefix(s);
    var d := DigitPrefix(s);
    assert d != [] && d[0] == s[0];
    DigitsValuePositive(d);
    assert UnsignedValue(s) == Some(DigitsValue(d));
    if |s| == 1 {
      assert d == s;
    }
  }

  /** `s.split(sep)`: the pieces between separators, at least one. */
  function Split(s: string, sep: char): (r: seq<string>)
    ensures |r| >= 1
    ensures sep !in s ==> r == [s]
  {
    if sep !in s then [s]
    else
      var k := IndexOf(s, sep);
      [s[..k]] + Split(s[k + 1..], sep)
  }

  /** The piece before the first `sep` (the whole string when there is none). */
  lemma {:induction false} SplitHead(s: string, sep: char)
    ensures var k := IndexOf(s, sep); Split(s, sep)[0] == if k < 0 then s else s[..k]
  {
  }

  /** A string that starts with a separator-free piece and the separator splits into that piece and the rest's pieces. */
  lemma {:induction false} SplitAt(a: string, rest: string, sep: char)
    requires sep !in a
    ensures Split(a + [sep] + rest, sep) == [a] + Split(rest, sep)
  {
    var s := a + [sep] + rest;
    assert s[|a|] == sep;
    var k := IndexOf(s, sep);
    assert s[..|a|] == a;
    assert k == |a|;
    assert s[k + 1..] == rest;
  }
}
