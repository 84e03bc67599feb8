/**
 * The pieces of JavaScript's string and number semantics that the two
 * source files rely on: the `\s` character class (also what `trim` removes),
 * the characters `.` refuses, `\w`, `String.prototype.split('\n')`,
 * `parseInt`, the decimal text of an integral number, ASCII `toUpperCase`
 * and the UTF-8 bytes of `Buffer.from(string)`.
 *
 * Strings are sequences of Unicode scalar values, not UTF-16 code units.
 */
module JsText {
  import opened Base

  /** JavaScript WhiteSpace or LineTerminator: the class `\s` and what `trim` strips. */
  predicate IsJsSpace(c: char) {
    || c == '\t' || c == '\n' || c == '\U{B}' || c == '\U{C}' || c == '\r' || c == ' '
    || c == '\U{A0}' || c == '\U{1680}' || ('\U{2000}' <= c <= '\U{200A}')
    || c == '\U{2028}' || c == '\U{2029}' || c == '\U{202F}' || c == '\U{205F}'
    || c == '\U{3000}' || c == '\U{FEFF}'
  }

  /** The characters a regular-expression `.` does not match (no `s` flag). */
  predicate IsLineTerminator(c: char) {
    c == '\n' || c == '\r' || c == '\U{2028}' || c == '\U{2029}'
  }

  /** The class `\w`: ASCII letters, digits and underscore. */
  predicate IsWordChar(c: char) {
    ('a' <= c <= 'z') || ('A' <= c <= 'Z') || ('0' <= c <= '9') || c == '_'
  }

  predicate AllSpace(s: string) {
    forall i :: 0 <= i < |s| ==> IsJsSpace(s[i])
  }

  predicate NoLineTerminator(s: string) {
    forall i :: 0 <= i < |s| ==> !IsLineTerminator(s[i])
  }

  /** The longest all-space prefix of `s` (what a greedy `\s*` consumes). */
  function LeadingSpace(s: string): (r: string)
    ensures IsPrefix(r, s) && AllSpace(r)
    ensures |r| < |s| ==> !IsJsSpace(s[|r|])
  {
    if s == [] || !IsJsSpace(s[0]) then [] else [s[0]] + LeadingSpace(s[1..])
  }

  /** `trimStart`: drop the leading spaces. */
  function TrimStart(s: string): (r: string)
    ensures |r| <= |s| && r == s[|s| - |r|..]
    ensures AllSpace(s[..|s| - |r|])
    ensures r != [] ==> !IsJsSpace(r[0])
  {
    s[|LeadingSpace(s)|..]
  }

  /** `trimEnd`: drop the trailing spaces. */
  function TrimEnd(s: string): (r: string)
    ensures IsPrefix(r, s)
    ensures AllSpace(s[|r|..])
    ensures r != [] ==> !IsJsSpace(r[|r| - 1])
  {
    if s == [] || !IsJsSpace(s[|s| - 1]) then s
    else
      var r := TrimEnd(s[..|s| - 1]);
      TrimEndStep(s, r);
      r
  }

  lemma TrimEndStep(s: string, r: string)
    requires s != [] && IsJsSpace(s[|s| - 1])
    requires IsPrefix(r, s[..|s| - 1]) && AllSpace(s[..|s| - 1][|r|..])
    ensures IsPrefix(r, s) && AllSpace(s[|r|..])
  {
    var p := s[..|s| - 1];
    assert p[..|r|] == s[..|r|];
    assert s[|r|..] == p[|r|..] + [s[|s| - 1]];
  }

  /** `String.prototype.trim`. */
  function Trim(s: string): (r: string)
    ensures exists i :: 0 <= i <= |s| - |r| && s[i..i + |r|] == r && AllSpace(s[..i]) && AllSpace(s[i + |r|..])
    ensures r != [] ==> !IsJsSpace(r[0]) && !IsJsSpace(r[|r| - 1])
    ensures r == [] <==> AllSpace(s)
  {
    var t := TrimStart(s);
    var r := TrimEnd(t);
    TrimParts(s, t, r);
    r
  }

  /** What `Trim` promises, from what `TrimStart` and `TrimEnd` promise. */
  lemma TrimParts(s: string, t: string, r: string)
    requires |t| <= |s| && t == s[|s| - |t|..] && AllSpace(s[..|s| - |t|])
    requires t != [] ==> !IsJsSpace(t[0])
    requires IsPrefix(r, t) && AllSpace(t[|r|..])
    ensures exists i :: 0 <= i <= |s| - |r| && s[i..i + |r|] == r && AllSpace(s[..i]) && AllSpace(s[i + |r|..])
    ensures r != [] ==> !IsJsSpace(r[0])
    ensures r == [] <==> AllSpace(s)
  {
    var i := |s| - |t|;
    assert s[i..i + |r|] == r;
    assert s[i + |r|..] == t[|r|..];
    TrimEmptyOnlyIfSpace(s, t, r);
    if r != [] {
      assert s[i] == r[0];
    }
  }

  lemma TrimEmptyOnlyIfSpace(s: string, t: string, r: string)
    requires |t| <= |s| && t == s[|s| - |t|..] && AllSpace(s[..|s| - |t|])
    requires IsPrefix(r, t) && AllSpace(t[|r|..])
    ensures r == [] ==> AllSpace(s)
  {
    if r == [] {
      forall k | 0 <= k < |s| ensures IsJsSpace(s[k]) {
        if k >= |s| - |t| { assert s[k] == t[k - (|s| - |t|)]; }
        else { assert s[k] == s[..|s| - |t|][k]; }
      }
    }
  }

  /** `String.prototype.split('\n')`: never empty, and no piece holds a newline. */
  function SplitLines(s: string): (r: seq<string>)
    ensures |r| >= 1
    ensures forall k :: 0 <= k < |r| ==> '\n' !in r[k]
  {
    if s == [] then [""]
    else if s[0] == '\n' then [""] + SplitLines(s[1..])
    else
      var t := SplitLines(s[1..]);
      [[s[0]] + t[0]] + t[1..]
  }

  /** `Array.prototype.join('\n')`, the inverse of `SplitLines`. */
  function JoinLines(parts: seq<string>): string
  {
    if parts == [] then "" else if |parts| == 1 then parts[0] else parts[0] + "\n" + JoinLines(parts[1..])
  }

  lemma {:induction false} JoinSplitLines(s: string)
    ensures JoinLines(SplitLines(s)) == s
  {
    if s == [] {
    } else if s[0] == '\n' {
      JoinSplitLines(s[1..]);
      assert s == "\n" + s[1..];
    } else {
      var t := SplitLines(s[1..]);
      JoinSplitLines(s[1..]);
      if |t| == 1 {
      } else {
        assert t == [t[0]] + t[1..];
        assert JoinLines(t) == t[0] + "\n" + JoinLines(t[1..]);
      }
    }
  }

  lemma {:induction false} SplitJoinLines(parts: seq<string>)
    requires |parts| >= 1
    requires forall k :: 0 <= k < |parts| ==> '\n' !in parts[k]
    ensures SplitLines(JoinLines(parts)) == parts
  {
    if |parts| == 1 {
      SplitLinesOfLine(parts[0], []);
    } else {
      SplitJoinLines(parts[1..]);
      SplitLinesOfLine(parts[0], parts[1..]);
    }
  }

  /** A newline-free piece followed by "\n" and more pieces splits into that piece and the rest. */
  lemma {:induction false} SplitLinesOfLine(p: string, rest: seq<string>)
    requires '\n' !in p
    requires rest != [] ==> SplitLines(JoinLines(rest)) == rest
    ensures SplitLines(if rest == [] then p else p + "\n" + JoinLines(rest)) == [p] + rest
  {
    var s := if rest == [] then p else p + "\n" + JoinLines(rest);
    if p == [] {
      if rest != [] {
        assert s == "\n" + JoinLines(rest);
        assert s[1..] == JoinLines(rest);
      }
    } else {
      var q := p[1..];
      SplitLinesOfLine(q, rest);
      assert s[1..] == (if rest == [] then q else q + "\n" + JoinLines(rest));
      assert [p[0]] + q == p;
    }
  }

  function AsciiUpperChar(c: char): char {
    if 'a' <= c <= 'z' then (c as int - 32) as char else c
  }

  function AsciiLowerChar(c: char): char {
    if 'A' <= c <= 'Z' then (c as int + 32) as char else c
  }

  /** `toLowerCase` restricted to ASCII letters (what the `i` flag of a regular expression folds). */
  function AsciiLower(s: string): (r: string)
    ensures |r| == |s|
    ensures forall k :: 0 <= k < |s| ==> r[k] == AsciiLowerChar(s[k])
  {
    if s == [] then [] else [AsciiLowerChar(s[0])] + AsciiLower(s[1..])
  }

  /** `toUpperCase` restricted to ASCII letters: same length, no lower-case ASCII letter left,
      and equal to the input once both are lower-cased. */
  function AsciiUpper(s: string): (r: string)
    ensures |r| == |s|
    ensures forall k :: 0 <= k < |r| ==> !('a' <= r[k] <= 'z')
    ensures AsciiLower(r) == AsciiLower(s)
    ensures forall k :: 0 <= k < |s| && !('a' <= s[k] <= 'z') ==> r[k] == s[k]
  {
    if s == [] then [] else [AsciiUpperChar(s[0])] + AsciiUpper(s[1..])
  }

  /** Decimal digit text of a natural number, most significant digit first. */
  function NatText(n: nat): (r: string)
    ensures |r| >= 1
    ensures forall k :: 0 <= k < |r| ==> '0' <= r[k] <= '9'
    ensures |r| > 1 ==> r[0] != '0'
  {
    if n < 10 then [('0' as int + n) as char] else NatText(n / 10) + [('0' as int + n % 10) as char]
  }

  /** The text of a JavaScript number holding an integer (`None` is NaN), as a template literal prints it. */
  function NumberText(n: Option<int>): string
  {
    match n
    case None => "NaN"
    case Some(v) => if v < 0 then "-" + NatText(-v) else NatText(v)
  }

  /** Value of `c` as a digit in `radix` (10 or 16), or -1. */
  function DigitValue(c: char, radix: int): int
  {
    if '0' <= c <= '9' then c as int - '0' as int
    else if radix == 16 && 'a' <= c <= 'f' then c as int - 'a' as int + 10
    else if radix == 16 && 'A' <= c <= 'F' then c as int - 'A' as int + 10
    else -1
  }

  predicate IsDigit(c: char, radix: int) {
    DigitValue(c, radix) >= 0
  }

  /** The longest prefix of `s` made of digits of `radix`. */
  function DigitPrefix(s: string, radix: int): (r: string)
    ensures IsPrefix(r, s)
    ensures forall k :: 0 <= k < |r| ==> IsDigit(r[k], radix)
    ensures |r| < |s| ==> !IsDigit(s[|r|], radix)
  {
    if s == [] || !IsDigit(s[0], radix) then [] else [s[0]] + DigitPrefix(s[1..], radix)
  }

  /** Value of a digit string, most significant digit first. */
  function DigitsValue(ds: string, radix: int): (v: int)
    requires radix == 10 || radix == 16
    requires forall k :: 0 <= k < |ds| ==> IsDigit(ds[k], radix)
    ensures v >= 0
  {
    if ds == [] then 0
    else
      assert IsDigit(ds[|ds| - 1], radix);
      DigitsValue(ds[..|ds| - 1], radix) * radix + DigitValue(ds[|ds| - 1], radix)
  }

  /** `parseInt(s)` with no radix, on integers: leading spaces, a sign, then an unsigned
      magnitude; `None` is NaN. */
  function ParseInt(s: string): (r: Option<int>)
  {
    var t := TrimStart(s);
    if |t| > 0 && t[0] == '-' then
      match ParseMagnitude(t[1..])
      case None => None
      case Some(m) => Some(-m)
    else if |t| > 0 && t[0] == '+' then ParseMagnitude(t[1..])
    else ParseMagnitude(t)
  }

  /** An optional `0x`/`0X` prefix selecting base 16, then the longest run of digits;
      `None` when that run is empty. */
  function ParseMagnitude(u: string): (r: Option<int>)
    ensures r.Some? ==> r.value >= 0
  {
    var hex := |u| >= 2 && u[0] == '0' && (u[1] == 'x' || u[1] == 'X');
    var radix := if hex then 16 else 10;
    var ds := DigitPrefix(if hex then u[2..] else u, radix);
    if ds == [] then None else Some(DigitsValue(ds, radix))
  }

  lemma {:induction false} NatTextValue(n: nat)
    ensures DigitsValue(NatText(n), 10) == n
  {
    if n >= 10 {
      NatTextValue(n / 10);
      var r := NatText(n);
      assert r[..|r| - 1] == NatText(n / 10);
    }
  }

  lemma NatTextMagnitude(m: nat)
    ensures ParseMagnitude(NatText(m)) == Some(m)
  {
    var ds := NatText(m);
    NatTextValue(m);
    DigitPrefixAll(ds);
    assert !(|ds| >= 2 && ds[0] == '0');
  }

  /** The number a template literal prints reads back as that same number. */
  lemma NumberTextRoundTrip(n: Option<int>)
    ensures ParseInt(NumberText(n)) == n
  {
    match n
    case None => NaNRoundTrip();
    case Some(v) => IntRoundTrip(v);
  }

  lemma NaNRoundTrip()
    ensures ParseInt(NumberText(None)) == None
  {
    NaNReadsNaN(NumberText(None));
  }

  lemma IntRoundTrip(v: int)
    ensures ParseInt(NumberText(Some(v))) == Some(v)
  {
    if v < 0 {
      NegativeRoundTrip(v);
    } else {
      NatRoundTrip(v);
    }
  }

  lemma NegativeRoundTrip(v: int)
    requires v < 0
    ensures ParseInt(NumberText(Some(v))) == Some(v)
  {
    var m: nat := -v;
    NatTextMagnitude(m);
    MinusMagnitude(NumberText(Some(v)), NatText(m), m);
  }

  lemma NatRoundTrip(v: nat)
    ensures ParseInt(NumberText(Some(v))) == Some(v)
  {
    NatTextMagnitude(v);
    DigitMagnitude(NumberText(Some(v)), v);
  }

  lemma NaNReadsNaN(s: string)
    requires s == "NaN"
    ensures ParseInt(s) == None
  {
    assert s[0] == 'N';
    ParseUnsigned(s);
    assert DigitPrefix(s, 10) == [];
  }

  /** A '-' before a magnitude reads as its negation. */
  lemma MinusMagnitude(s: string, u: string, m: int)
    requires s == "-" + u && ParseMagnitude(u) == Some(m)
    ensures ParseInt(s) == Some(-m)
  {
    assert s[0] == '-' && s[1..] == u;
    ParseNegative(s);
  }

  /** Text starting with a digit reads as its magnitude. */
  lemma DigitMagnitude(s: string, m: int)
    requires s != [] && '0' <= s[0] <= '9' && ParseMagnitude(s) == Some(m)
    ensures ParseInt(s) == Some(m)
  {
    ParseUnsigned(s);
  }

  /** `parseInt` of text starting with neither a space nor a sign reads its magnitude. */
  lemma ParseUnsigned(s: string)
    requires s != [] && !IsJsSpace(s[0]) && s[0] != '-' && s[0] != '+'
    ensures ParseInt(s) == ParseMagnitude(s)
  {
    TrimStartUnchanged(s);
  }

  /** `parseInt` of text starting with '-' negates the magnitude after it. */
  lemma ParseNegative(s: string)
    requires s != [] && s[0] == '-'
    ensures ParseInt(s) == match ParseMagnitude(s[1..]) case None => None case Some(m) => Some(-m)
  {
    TrimStartUnchanged(s);
  }

  lemma TrimStartUnchanged(s: string)
    requires s != [] && !IsJsSpace(s[0])
    ensures TrimStart(s) == s
  {
    assert LeadingSpace(s) == [];
  }

  lemma {:induction false} DigitPrefixAll(ds: string)
    requires forall k :: 0 <= k < |ds| ==> '0' <= ds[k] <= '9'
    ensures DigitPrefix(ds, 10) == ds
  {
    if ds != [] {
      DigitPrefixAll(ds[1..]);
    }
  }

  /** UTF-8 bytes of one Unicode scalar value. */
  function Utf8Char(c: char): (r: seq<byte>)
    ensures 1 <= |r| <= 4
    ensures |r| == 1 <==> c as int < 0x80
    ensures |r| == 1 ==> r[0] == c as int
  {
    var n := c as int;
    if n < 0x80 then [n]
    else if n < 0x800 then [0xC0 + n / 0x40, 0x80 + n % 0x40]
    else if n < 0x10000 then [0xE0 + n / 0x1000, 0x80 + (n / 0x40) % 0x40, 0x80 + n % 0x40]
    else [0xF0 + n / 0x40000, 0x80 + (n / 0x1000) % 0x40, 0x80 + (n / 0x40) % 0x40, 0x80 + n % 0x40]
  }

  /** `Buffer.from(s)`: the UTF-8 encoding of `s`. Empty exactly when `s` is, and never shorter. */
  function Utf8(s: string): (r: seq<byte>)
    ensures |r| >= |s|
    ensures r == [] <==> s == []
  {
    if s == [] then [] else Utf8Char(s[0]) + Utf8(s[1..])
  }

  /** On ASCII text the encoding is the character codes themselves. */
  lemma {:induction false} Utf8Ascii(s: string)
    requires forall k :: 0 <= k < |s| ==> s[k] as int < 0x80
    ensures |Utf8(s)| == |s|
    ensures forall k :: 0 <= k < |s| ==> Utf8(s)[k] == s[k] as int
  {
    if s != [] {
      Utf8Ascii(s[1..]);
    }
  }
}
