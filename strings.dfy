// String helpers with the semantics of the JavaScript and Python built-ins the
// repository calls: number rendering, zero padding, trimming, `startsWith`,
// `indexOf`/`includes`, `split`, `replace` (first occurrence, with
// JavaScript's `$` substitution), `substr`, `toLowerCase` and
// `parseInt(…, 16)`, and the reading of a run of decimal digits.
module Strings {
  import opened Wrappers

  // ---------------------------------------------------------------------
  // Decimal digits and number rendering

  predicate IsDigit(c: char) { '0' <= c <= '9' }

  predicate AllDigits(s: string) { forall k :: 0 <= k < |s| ==> IsDigit(s[k]) }

  function DigitChar(d: nat): (c: char)
    requires d < 10
    ensures IsDigit(c) && c as int - '0' as int == d
  {
    (d + '0' as int) as char
  }

  function DigitValue(c: char): nat
    requires IsDigit(c)
  {
    c as int - '0' as int
  }

  /** The decimal rendering of a natural number, as `String(n)` or `str(n)` give it. */
  function NatToString(n: nat): (s: string)
    ensures |s| >= 1 && AllDigits(s)
    decreases n
  {
    if n < 10 then [DigitChar(n)] else NatToString(n / 10) + [DigitChar(n % 10)]
  }

  /** JavaScript's rendering of an integer-valued number. */
  function IntToString(i: int): (s: string)
    ensures |s| >= 1
  {
    if i < 0 then "-" + NatToString(-i) else NatToString(i)
  }

  /** The value of a string of decimal digits (most significant digit first). */
  function DigitsValue(s: string): nat
    requires AllDigits(s)
  {
    if s == [] then 0 else DigitsValue(s[..|s| - 1]) * 10 + DigitValue(s[|s| - 1])
  }

  lemma {:induction false} NatToStringRoundTrip(n: nat)
    ensures DigitsValue(NatToString(n)) == n
    decreases n
  {
    if n >= 10 {
      var s := NatToString(n);
      assert s[..|s| - 1] == NatToString(n / 10);
      NatToStringRoundTrip(n / 10);
    }
  }

  lemma {:induction false} NatToStringLength(n: nat)
    ensures |NatToString(n)| == 1 <==> n < 10
    ensures n < 100 ==> |NatToString(n)| <= 2
    decreases n
  {
    if n >= 10 {
      NatToStringLength(n / 10);
    }
  }

  /** The index of the first non-digit at or after `i` (or `|s|`). */
  function DigitRun(s: string, i: nat): (j: nat)
    requires i <= |s|
    ensures i <= j <= |s|
    ensures forall k :: i <= k < j ==> IsDigit(s[k])
    ensures j == |s| || !IsDigit(s[j])
    decreases |s| - i
  {
    if i == |s| || !IsDigit(s[i]) then i else DigitRun(s, i + 1)
  }

  /** A number's rendering followed by a non-digit is read back as that number. */
  lemma ReadsNumber(n: nat, u: string)
    requires u != [] && !IsDigit(u[0])
    ensures var t := NatToString(n) + u;
            var j := DigitRun(t, 0);
            j == |NatToString(n)| && AllDigits(t[..j]) && DigitsValue(t[..j]) == n && t[j..] == u
  {
    var d := NatToString(n);
    var t := d + u;
    var j := DigitRun(t, 0);
    assert forall k :: 0 <= k < |d| ==> t[k] == d[k] && IsDigit(t[k]);
    assert t[|d|] == u[0];
    assert t[..j] == d;
    NatToStringRoundTrip(n);
  }

  /** Zero padding to two digits: JavaScript `padStart(2, '0')`, Python `:02d`. */
  function Pad2(n: nat): (s: string)
    ensures AllDigits(s)
    ensures n < 100 ==> |s| == 2 && DigitsValue(s) == n
  {
    NatToStringLength(n);
    NatToStringRoundTrip(n);
    var d := NatToString(n);
    if |d| < 2 then
      assert DigitsValue("0" + d) == DigitsValue(d) by {
        assert ("0" + d)[..1] == "0";
      }
      "0" + d
    else d
  }

  /** The two digits of a zero-padded number below 100. */
  lemma Pad2Digits(n: nat)
    requires n < 100
    ensures Pad2(n) == [DigitChar(n / 10), DigitChar(n % 10)]
  {
    if n >= 10 {
      assert NatToString(n) == NatToString(n / 10) + [DigitChar(n % 10)];
    }
  }

  // ---------------------------------------------------------------------
  // Whitespace and case

  /** The whitespace `trim()` and `strip()` remove (ASCII part). */
  predicate IsSpace(c: char) { c == ' ' || 9 <= c as int <= 13 }

  /** The index of the first non-space character at or after `i` (or `|s|`). */
  function SkipSpaces(s: string, i: nat): (j: nat)
    requires i <= |s|
    ensures i <= j <= |s|
    ensures forall k :: i <= k < j ==> IsSpace(s[k])
    ensures j == |s| || !IsSpace(s[j])
    decreases |s| - i
  {
    if i < |s| && IsSpace(s[i]) then SkipSpaces(s, i + 1) else i
  }

  /** The index just after the last non-space character before `j` (or 0). */
  function SkipSpacesBack(s: string, j: nat): (i: nat)
    requires j <= |s|
    ensures i <= j
    ensures forall k :: i <= k < j ==> IsSpace(s[k])
    ensures i == 0 || !IsSpace(s[i - 1])
  {
    if j > 0 && IsSpace(s[j - 1]) then SkipSpacesBack(s, j - 1) else j
  }

  function TrimLeft(s: string): (r: string)
    ensures |r| <= |s| && r == s[|s| - |r|..]
    ensures r == [] || !IsSpace(r[0])
    ensures forall k :: 0 <= k < |s| - |r| ==> IsSpace(s[k])
  {
    s[SkipSpaces(s, 0)..]
  }

  function TrimRight(s: string): (r: string)
    ensures |r| <= |s| && r == s[..|r|]
    ensures r == [] || !IsSpace(r[|r| - 1])
    ensures forall k :: |r| <= k < |s| ==> IsSpace(s[k])
  {
    s[..SkipSpacesBack(s, |s|)]
  }

  lemma TrimLeftKeeps(s: string)
    requires s == [] || !IsSpace(s[0])
    ensures TrimLeft(s) == s
  {
    assert SkipSpaces(s, 0) == 0;
  }

  lemma TrimRightKeeps(s: string)
    requires s == [] || !IsSpace(s[|s| - 1])
    ensures TrimRight(s) == s
  {
    assert SkipSpacesBack(s, |s|) == |s|;
  }

  /** `String.prototype.trim` / `str.strip`. */
  function Trim(s: string): string { TrimRight(TrimLeft(s)) }

  predicate IsBlank(s: string) { forall k :: 0 <= k < |s| ==> IsSpace(s[k]) }

  lemma TrimEmptyIffBlank(s: string)
    ensures Trim(s) == [] <==> IsBlank(s)
  {
    var l := TrimLeft(s);
    if Trim(s) == [] {
      assert l == [];
    } else {
      var r := Trim(s);
      assert !IsSpace(r[0]);
      assert r[0] == l[0] == s[|s| - |l|];
    }
  }

  function LowerChar(c: char): char {
    if 'A' <= c <= 'Z' then (c as int + 32) as char else c
  }

  /** `toLowerCase` (ASCII letters). */
  function Lower(s: string): (r: string)
    ensures |r| == |s|
    ensures forall k :: 0 <= k < |s| ==> r[k] == LowerChar(s[k])
  {
    if s == [] then [] else [LowerChar(s[0])] + Lower(s[1..])
  }

  // ---------------------------------------------------------------------
  // Searching, splitting and replacing

  predicate StartsWith(s: string, prefix: string) {
    |prefix| <= |s| && s[..|prefix|] == prefix
  }

  predicate EndsWith(s: string, suffix: string) {
    |suffix| <= |s| && s[|s| - |suffix|..] == suffix
  }

  predicate OccursAt(s: string, t: string, k: int) {
    0 <= k && k + |t| <= |s| && s[k..k + |t|] == t
  }

  /** `s.indexOf(t, i)`: the first occurrence of `t` at or after `i`. */
  function FindFrom(s: string, t: string, i: nat): (r: Option<nat>)
    requires i <= |s|
    ensures r.Some? ==> i <= r.value && OccursAt(s, t, r.value)
    ensures r.Some? ==> forall k :: i <= k < r.value ==> !OccursAt(s, t, k)
    ensures r.None? ==> forall k :: i <= k ==> !OccursAt(s, t, k)
    decreases |s| - i
  {
    if i + |t| > |s| then None
    else if s[i..i + |t|] == t then Some(i)
    else FindFrom(s, t, i + 1)
  }

  /** `s.includes(t)`. */
  predicate Contains(s: string, t: string) { FindFrom(s, t, 0).Some? }

  lemma ContainsIff(s: string, t: string)
    ensures Contains(s, t) <==> exists k :: OccursAt(s, t, k)
  {
    if !Contains(s, t) {
      assert forall k :: !OccursAt(s, t, k) by {
        forall k ensures !OccursAt(s, t, k) {
          if k < 0 {} else {}
        }
      }
    }
  }

  /** A text lacking one of the characters of `t` does not contain `t`. */
  lemma AbsentCharNotContained(s: string, t: string, i: nat)
    requires i < |t| && forall k :: 0 <= k < |s| ==> s[k] != t[i]
    ensures !Contains(s, t)
  {
    forall k | 0 <= k && k + |t| <= |s| ensures !OccursAt(s, t, k) {
      assert s[k..k + |t|][i] == s[k + i];
    }
    ContainsIff(s, t);
  }

  /** `s.split(sep)` for a non-empty separator. */
  function Split(s: string, sep: string): (parts: seq<string>)
    requires |sep| > 0
    ensures |parts| >= 1
    decreases |s|
  {
    match FindFrom(s, sep, 0)
    case None => [s]
    case Some(k) => [s[..k]] + Split(s[k + |sep|..], sep)
  }

  function Join(parts: seq<string>, sep: string): string
    requires |parts| >= 1
  {
    if |parts| == 1 then parts[0] else parts[0] + sep + Join(parts[1..], sep)
  }

  lemma {:induction false} SplitJoin(s: string, sep: string)
    requires |sep| > 0
    ensures Join(Split(s, sep), sep) == s
    decreases |s|
  {
    match FindFrom(s, sep, 0)
    case None =>
    case Some(k) =>
      var rest := s[k + |sep|..];
      var parts := Split(s, sep);
      assert parts == [s[..k]] + Split(rest, sep);
      assert parts[0] == s[..k] && parts[1..] == Split(rest, sep);
      SplitJoin(rest, sep);
      assert Join(parts, sep) == s[..k] + sep + Join(Split(rest, sep), sep);
      assert s[k..k + |sep|] == sep;
      assert s == s[..k] + s[k..k + |sep|] + rest;
  }

  /** The part before the first separator: `s.split(sep)[0]`. */
  lemma SplitFirst(s: string, sep: string)
    requires |sep| > 0
    ensures FindFrom(s, sep, 0).None? ==> Split(s, sep) == [s]
    ensures FindFrom(s, sep, 0).Some? ==>
              Split(s, sep)[0] == s[..FindFrom(s, sep, 0).value] && |Split(s, sep)| >= 2
  {
  }

  /**
   * `s.replace(t, u)` with a string pattern and a replacement that holds no
   * `$`: only the first occurrence is replaced (JsReplace is the general case).
   */
  function ReplaceFirst(s: string, t: string, u: string): (r: string)
    ensures !Contains(s, t) ==> r == s
    ensures Contains(s, t) ==>
              var k := FindFrom(s, t, 0).value; r == s[..k] + u + s[k + |t|..]
  {
    match FindFrom(s, t, 0)
    case None => s
    case Some(k) => s[..k] + u + s[k + |t|..]
  }

  predicate NoDollar(u: string) { forall k :: 0 <= k < |u| ==> u[k] != '$' }

  /** The characters that have a meaning after a `$` in a replacement text. */
  predicate IsSubstitutionCode(c: char) { c == '$' || c == '&' || c == '`' || c == '\'' }

  /**
   * The text `replace` puts in place of a match of a string pattern (the
   * GetSubstitution operation of ECMA-262): `$$` is a dollar sign, `$&` the
   * matched text, `` $` `` the text before the match and `$'` the text after
   * it; a string pattern has no capture groups, so any other `$` stands for
   * itself.
   */
  function Substitution(u: string, matched: string, before: string, after: string): string
    decreases |u|
  {
    if u == [] then []
    else if OpensWithCode(u) then CodeText(u[1], matched, before, after) + Substitution(u[2..], matched, before, after)
    else [u[0]] + Substitution(u[1..], matched, before, after)
  }

  /** A replacement text that opens with a `$` code. */
  predicate OpensWithCode(u: string) { |u| >= 2 && u[0] == '$' && IsSubstitutionCode(u[1]) }

  /** The text the code `$c` stands for. */
  function CodeText(c: char, matched: string, before: string, after: string): string {
    match c
    case '$' => "$"
    case '&' => matched
    case '`' => before
    case _ => after
  }

  /** A replacement without `$` is put in as it is. */
  lemma {:induction false} SubstitutionOfLiteral(u: string, matched: string, before: string, after: string)
    requires NoDollar(u)
    ensures Substitution(u, matched, before, after) == u
    decreases |u|
  {
    if u != [] {
      SubstitutionOfLiteral(u[1..], matched, before, after);
      assert u == [u[0]] + u[1..];
    }
  }

  /** The substitution of `a + b` is that of `a` then that of `b`, when `b` does not open with a code character. */
  lemma {:induction false} SubstitutionAppend(a: string, b: string, matched: string, before: string, after: string)
    requires b == [] || !IsSubstitutionCode(b[0])
    ensures Substitution(a + b, matched, before, after) ==
            Substitution(a, matched, before, after) + Substitution(b, matched, before, after)
    decreases |a|
  {
    if a == [] {
      assert a + b == b;
    } else if OpensWithCode(a) {
      SubstitutionAppend(a[2..], b, matched, before, after);
      SubstitutionAppendCode(a, b, matched, before, after);
    } else {
      SubstitutionAppend(a[1..], b, matched, before, after);
      SubstitutionAppendChar(a, b, matched, before, after);
    }
  }

  /** The step of SubstitutionAppend at a `$` code at the head of `a`. */
  lemma SubstitutionAppendCode(a: string, b: string, matched: string, before: string, after: string)
    requires OpensWithCode(a)
    requires Substitution(a[2..] + b, matched, before, after) ==
             Substitution(a[2..], matched, before, after) + Substitution(b, matched, before, after)
    ensures Substitution(a + b, matched, before, after) ==
            Substitution(a, matched, before, after) + Substitution(b, matched, before, after)
  {
    var c := a + b;
    assert c[0] == a[0] && c[1] == a[1] && c[2..] == a[2..] + b;
    assert OpensWithCode(c);
    var h := CodeText(a[1], matched, before, after);
    var x, y := Substitution(a[2..], matched, before, after), Substitution(b, matched, before, after);
    assert Substitution(c, matched, before, after) == h + (x + y);
    assert h + (x + y) == (h + x) + y;
  }

  /** The step of SubstitutionAppend at a plain character at the head of `a`. */
  lemma SubstitutionAppendChar(a: string, b: string, matched: string, before: string, after: string)
    requires a != [] && !OpensWithCode(a)
    requires b == [] || !IsSubstitutionCode(b[0])
    requires Substitution(a[1..] + b, matched, before, after) ==
             Substitution(a[1..], matched, before, after) + Substitution(b, matched, before, after)
    ensures Substitution(a + b, matched, before, after) ==
            Substitution(a, matched, before, after) + Substitution(b, matched, before, after)
  {
    var c := a + b;
    assert c[0] == a[0] && c[1..] == a[1..] + b;
    assert !OpensWithCode(c) by {
      if |a| == 1 { assert c[1..] == b; } else { assert c[1] == a[1]; }
    }
    var x, y := Substitution(a[1..], matched, before, after), Substitution(b, matched, before, after);
    assert Substitution(c, matched, before, after) == [a[0]] + (x + y);
    assert [a[0]] + (x + y) == ([a[0]] + x) + y;
  }

  /** A name between two literal texts: only the name is substituted. */
  lemma SubstitutionBetween(q: string, x: string, tail: string, matched: string, before: string, after: string)
    requires NoDollar(q) && NoDollar(tail) && (tail == [] || !IsSubstitutionCode(tail[0]))
    ensures Substitution(q + x + tail, matched, before, after) == q + Substitution(x, matched, before, after) + tail
  {
    SubstitutionAppend(q + x, tail, matched, before, after);
    SubstitutionOfLiteral(tail, matched, before, after);
    SubstitutionAfterLiteral(q, x, matched, before, after);
  }

  /** A literal text before `x` is put in as it is. */
  lemma {:induction false} SubstitutionAfterLiteral(q: string, x: string, matched: string, before: string, after: string)
    requires NoDollar(q)
    ensures Substitution(q + x, matched, before, after) == q + Substitution(x, matched, before, after)
    decreases |q|
  {
    if q == [] {
      assert q + x == x;
    } else {
      assert (q + x)[0] == q[0] && (q + x)[1..] == q[1..] + x;
      SubstitutionAfterLiteral(q[1..], x, matched, before, after);
      assert q == [q[0]] + q[1..];
    }
  }

  /** `s.replace(t, u)` with a string pattern: the first occurrence of `t` gives way to the substitution of `u`. */
  function JsReplace(s: string, t: string, u: string): (r: string)
    ensures !Contains(s, t) ==> r == s
    ensures Contains(s, t) ==>
              var k := FindFrom(s, t, 0).value;
              r == s[..k] + Substitution(u, t, s[..k], s[k + |t|..]) + s[k + |t|..]
  {
    match FindFrom(s, t, 0)
    case None => s
    case Some(k) => s[..k] + Substitution(u, t, s[..k], s[k + |t|..]) + s[k + |t|..]
  }

  /** A pattern found at the very start: the substitution sees nothing before the match. */
  lemma JsReplaceAtStart(s: string, t: string, u: string)
    requires t != [] && StartsWith(s, t)
    ensures JsReplace(s, t, u) == Substitution(u, t, "", s[|t|..]) + s[|t|..]
  {
    assert OccursAt(s, t, 0);
    assert FindFrom(s, t, 0) == Some(0);
    assert s[..0] == "";
  }

  /** Without `$` in the replacement, `replace` is the plain first-occurrence replacement. */
  lemma JsReplaceOfLiteral(s: string, t: string, u: string)
    requires NoDollar(u)
    ensures JsReplace(s, t, u) == ReplaceFirst(s, t, u)
  {
    if Contains(s, t) {
      var k := FindFrom(s, t, 0).value;
      SubstitutionOfLiteral(u, t, s[..k], s[k + |t|..]);
    }
  }

  /** `s.substr(start, len)` for non-negative arguments. */
  function Substr(s: string, start: nat, len: nat): (r: string)
    ensures |r| <= len
    ensures start + len <= |s| ==> r == s[start..start + len]
  {
    var b := if start <= |s| then start else |s|;
    var e := if b + len <= |s| then b + len else |s|;
    s[b..e]
  }

  // ---------------------------------------------------------------------
  // Hexadecimal digits and parseInt(…, 16)

  predicate IsHexDigit(c: char) {
    '0' <= c <= '9' || 'a' <= c <= 'f' || 'A' <= c <= 'F'
  }

  function HexValue(c: char): (v: nat)
    requires IsHexDigit(c)
    ensures v < 16
  {
    if '0' <= c <= '9' then c as int - '0' as int
    else if 'a' <= c <= 'f' then c as int - 'a' as int + 10
    else c as int - 'A' as int + 10
  }

  predicate AllHex(s: string) { forall k :: 0 <= k < |s| ==> IsHexDigit(s[k]) }

  /** `#` followed by exactly six hexadecimal digits of either case. */
  predicate IsHexColor6(c: string) {
    |c| == 7 && c[0] == '#' && AllHex(c[1..])
  }

  function HexDigitsValue(s: string): nat
    requires AllHex(s)
  {
    if s == [] then 0 else HexDigitsValue(s[..|s| - 1]) * 16 + HexValue(s[|s| - 1])
  }

  /** The longest prefix of `s` made of hexadecimal digits. */
  function HexPrefix(s: string): (r: string)
    ensures AllHex(r) && StartsWith(s, r)
    ensures |r| < |s| ==> !IsHexDigit(s[|r|])
  {
    if s != [] && IsHexDigit(s[0]) then [s[0]] + HexPrefix(s[1..]) else []
  }

  /** Drops an optional sign and then an optional `0x`/`0X` prefix. */
  function StripHexSign(t: string): string {
    var u := if t != [] && (t[0] == '-' || t[0] == '+') then t[1..] else t;
    if |u| >= 2 && u[0] == '0' && (u[1] == 'x' || u[1] == 'X') then u[2..] else u
  }

  lemma {:induction false} HexPrefixOfHex(s: string)
    requires AllHex(s)
    ensures HexPrefix(s) == s
  {
    if s != [] {
      HexPrefixOfHex(s[1..]);
    }
  }

  lemma StripHexSignOfHex(s: string)
    requires AllHex(s) && s != []
    ensures StripHexSign(s) == s
  {
    assert IsHexDigit(s[0]);
    assert |s| >= 2 ==> IsHexDigit(s[1]);
  }

  /** A string of hexadecimal digits parses to its value. */
  lemma ParseIntHexOfHex(s: string)
    requires AllHex(s) && s != []
    ensures ParseIntHex(s) == Some(HexDigitsValue(s))
  {
    TrimLeftKeeps(s);
    StripHexSignOfHex(s);
    HexPrefixOfHex(s);
  }

  /**
   * `parseInt(s, 16)`: leading whitespace, an optional sign and an optional
   * `0x` prefix are skipped, then the longest run of hexadecimal digits is
   * read; None stands for NaN (no digit at all).
   */
  function ParseIntHex(s: string): (r: Option<int>)
    ensures r.None? <==> HexPrefix(StripHexSign(TrimLeft(s))) == []
  {
    var t := TrimLeft(s);
    var negative := t != [] && t[0] == '-';
    var digits := HexPrefix(StripHexSign(t));
    if digits == [] then None
    else
      var v: int := HexDigitsValue(digits);
      Some(if negative then -v else v)
  }

  // ---------------------------------------------------------------------
  // JavaScript strings as UTF-16 code units

  /** A UTF-16 code unit, the element a JavaScript string's `length` and `substring` count. */
  type CodeUnit = x: int | 0 <= x < 0x1_0000

  /** A character outside the Basic Multilingual Plane takes a surrogate pair. */
  predicate IsAstral(c: char) { c as int >= 0x1_0000 }

  /** The UTF-16 encoding of one character: itself, or a high and a low surrogate. */
  function EncodeChar(c: char): (u: seq<CodeUnit>)
    ensures |u| == if IsAstral(c) then 2 else 1
  {
    var v := c as int;
    if v < 0x1_0000 then [v]
    else [0xD800 + (v - 0x1_0000) / 0x400, 0xDC00 + (v - 0x1_0000) % 0x400]
  }

  /** The code units of a string, as JavaScript stores it. */
  function Utf16(s: string): seq<CodeUnit>
    decreases |s|
  {
    if s == [] then [] else EncodeChar(s[0]) + Utf16(s[1..])
  }

  /** A JavaScript string's `length`: one unit per character, two for an astral one. */
  function Utf16Length(s: string): (n: nat)
    ensures n == |Utf16(s)|
    ensures |s| <= n <= 2 * |s|
    ensures n == |s| <==> forall k :: 0 <= k < |s| ==> !IsAstral(s[k])
    ensures (forall k :: 0 <= k < |s| ==> IsAstral(s[k])) ==> n == 2 * |s|
    decreases |s|
  {
    if s == [] then 0
    else
      var n := |EncodeChar(s[0])| + Utf16Length(s[1..]);
      assert forall k :: 1 <= k < |s| ==> s[k] == s[1..][k - 1];
      assert (forall k :: 0 <= k < |s[1..]| ==> !IsAstral(s[1..][k])) ==> forall k :: 1 <= k < |s| ==> !IsAstral(s[k]);
      n
  }

  /** `String.fromCharCode` read back over a code-unit sequence: None at a lone surrogate. */
  function DecodeUtf16(u: seq<CodeUnit>): Option<string>
    decreases |u|
  {
    if u == [] then Some([])
    else if 0xD800 <= u[0] < 0xDC00 then
      if |u| >= 2 && 0xDC00 <= u[1] < 0xE000 then
        match DecodeUtf16(u[2..])
        case None => None
        case Some(rest) => Some([(0x1_0000 + (u[0] as int - 0xD800) * 0x400 + (u[1] as int - 0xDC00)) as char] + rest)
      else None
    else if 0xDC00 <= u[0] < 0xE000 then None
    else
      match DecodeUtf16(u[1..])
      case None => None
      case Some(rest) => Some([u[0] as char] + rest)
  }

  /** Decoding the encoding of a string gives the string back. */
  lemma {:induction false} DecodeUtf16OfUtf16(s: string)
    ensures DecodeUtf16(Utf16(s)) == Some(s)
    decreases |s|
  {
    if s != [] {
      DecodeUtf16OfUtf16(s[1..]);
      var e := EncodeChar(s[0]);
      var u := Utf16(s);
      assert u == e + Utf16(s[1..]);
      assert u[|e|..] == Utf16(s[1..]);
      assert s == [s[0]] + s[1..];
    }
  }

  /** A string of Basic Multilingual Plane characters is stored one unit per character. */
  lemma {:induction false} Utf16OfPlain(s: string)
    requires forall k :: 0 <= k < |s| ==> !IsAstral(s[k])
    ensures Utf16(s) == seq(|s|, k requires 0 <= k < |s| => s[k] as int)
    decreases |s|
  {
    if s != [] {
      Utf16OfPlain(s[1..]);
    }
  }

  /** The first `k` characters are stored as a prefix of the units. */
  lemma {:induction false} Utf16OfPrefix(s: string, k: nat)
    requires k <= |s|
    ensures Utf16(s) == Utf16(s[..k]) + Utf16(s[k..])
    decreases k
  {
    if k > 0 {
      Utf16OfPrefix(s[1..], k - 1);
      assert s[..k][1..] == s[1..][..k - 1];
      assert s[1..][k - 1..] == s[k..];
      assert s[..k] != [] && s[..k][0] == s[0];
    } else {
      assert s[..0] == [] && s[0..] == s;
    }
  }
}
