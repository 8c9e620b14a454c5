// The integer-safe helpers of the statistics page script: the empty-array
// test, the sum and the minimum/maximum of the numeric entries, and the
// colour-to-rgba conversion used for chart fills.
module StatsUtils {
  import opened Wrappers
  import opened Strings

  /**
   * A JavaScript value as these helpers see it. Numbers are integers here
   * (floating point is not modelled); `NaN` is its own case.
   */
  datatype JsValue =
    | Undefined
    | Null
    | Bool(b: bool)
    | Num(n: int)
    | NaN
    | Str(s: string)
    | Arr(items: seq<JsValue>)
    | Obj

  /** isEmptyArray: true for anything but a non-empty array (arrays are truthy even when empty). */
  predicate IsEmptyArray(v: JsValue) {
    !v.Arr? || |v.items| == 0
  }

  /** Null, undefined, non-arrays and `[]` are empty; an array with any entry is not, whatever the entry. */
  lemma EmptyArrayCases(s: string, x: JsValue)
    ensures IsEmptyArray(Null) && IsEmptyArray(Undefined) && IsEmptyArray(Str(s)) && IsEmptyArray(Arr([]))
    ensures !IsEmptyArray(Arr([x]))
  {
  }

  /** `filter(item => typeof item === 'number' && !isNaN(item))`: the numbers, in order. */
  function Numbers(items: seq<JsValue>): (r: seq<int>)
    ensures |r| <= |items|
    ensures forall x :: x in r <==> Num(x) in items
  {
    if items == [] then []
    else
      assert items == [items[0]] + items[1..];
      (if items[0].Num? then [items[0].n] else []) + Numbers(items[1..])
  }

  lemma {:induction false} NumbersAppend(a: seq<JsValue>, b: seq<JsValue>)
    ensures Numbers(a + b) == Numbers(a) + Numbers(b)
  {
    if a == [] {
      assert a + b == b;
    } else {
      assert (a + b)[0] == a[0] && (a + b)[1..] == a[1..] + b;
      NumbersAppend(a[1..], b);
    }
  }

  /** `reduce((sum, item) => sum + item, 0)`. */
  function Total(xs: seq<int>): int {
    if xs == [] then 0 else xs[0] + Total(xs[1..])
  }

  lemma {:induction false} TotalAppend(a: seq<int>, b: seq<int>)
    ensures Total(a + b) == Total(a) + Total(b)
  {
    if a == [] {
      assert a + b == b;
    } else {
      assert (a + b)[0] == a[0] && (a + b)[1..] == a[1..] + b;
      TotalAppend(a[1..], b);
    }
  }

  /** sum: 0 for an empty array or a non-array, else the total of the numeric entries. */
  function Sum(v: JsValue): (r: int)
    ensures IsEmptyArray(v) ==> r == 0
    ensures v.Arr? ==> r == Total(Numbers(v.items))
  {
    if IsEmptyArray(v) then 0 else Total(Numbers(v.items))
  }

  /** The sum is additive over concatenation, so entries that are not numbers add nothing. */
  lemma SumAppend(a: seq<JsValue>, b: seq<JsValue>)
    ensures Sum(Arr(a + b)) == Sum(Arr(a)) + Sum(Arr(b))
  {
    NumbersAppend(a, b);
    TotalAppend(Numbers(a), Numbers(b));
  }

  /** Adding a non-numeric entry (a string, NaN, null, …) never changes the sum. */
  lemma SumIgnoresNonNumbers(a: seq<JsValue>, x: JsValue)
    requires !x.Num?
    ensures Sum(Arr(a + [x])) == Sum(Arr(a))
  {
    SumAppend(a, [x]);
    assert Numbers([x]) == [];
  }

  /** `Math.min(...xs)` of a non-empty list. */
  function Min(xs: seq<int>): (m: int)
    requires xs != []
    ensures m in xs && forall x :: x in xs ==> m <= x
  {
    if |xs| == 1 then xs[0]
    else
      assert xs == [xs[0]] + xs[1..];
      var rest := Min(xs[1..]);
      if xs[0] <= rest then xs[0] else rest
  }

  /** `Math.max(...xs)` of a non-empty list. */
  function Max(xs: seq<int>): (m: int)
    requires xs != []
    ensures m in xs && forall x :: x in xs ==> x <= m
  {
    if |xs| == 1 then xs[0]
    else
      assert xs == [xs[0]] + xs[1..];
      var rest := Max(xs[1..]);
      if xs[0] >= rest then xs[0] else rest
  }

  /**
   * getMinMax: `{0, 0}` without numeric entries; otherwise the least and
   * the greatest of them, both taken from the array.
   */
  function GetMinMax(v: JsValue): (r: (int, int))
    ensures (IsEmptyArray(v) || Numbers(v.items) == []) ==> r == (0, 0)
    ensures !IsEmptyArray(v) && Numbers(v.items) != [] ==>
              r.0 <= r.1 && Num(r.0) in v.items && Num(r.1) in v.items &&
              forall x :: Num(x) in v.items ==> r.0 <= x <= r.1
  {
    if IsEmptyArray(v) then (0, 0)
    else
      var numbers := Numbers(v.items);
      if numbers == [] then (0, 0) else (Min(numbers), Max(numbers))
  }

  // ---------------------------------------------------------------------
  // addAlphaToColor

  /** A template-literal rendering of `parseInt(…, 16)`: the number, or `NaN`. */
  function Channel(s: string): (r: string)
    ensures r != ""
    ensures AllHex(s) && s != [] ==> r == NatToString(HexDigitsValue(s))
  {
    if AllHex(s) && s != [] then ParseIntHexOfHex(s); NatToString(HexDigitsValue(s))
    else
      match ParseIntHex(s)
      case None => "NaN"
      case Some(v) => IntToString(v)
  }

  predicate IsNumberChar(c: char) { IsDigit(c) || c == '.' }

  /** The length of the longest run of digits and dots that ends `s`. */
  function TrailingNumberLength(s: string): (k: nat)
    ensures k <= |s|
    ensures forall i :: |s| - k <= i < |s| ==> IsNumberChar(s[i])
    ensures k < |s| ==> !IsNumberChar(s[|s| - k - 1])
  {
    if s == [] || !IsNumberChar(s[|s| - 1]) then 0
    else
      var k := TrailingNumberLength(s[..|s| - 1]);
      k + 1
  }

  /**
   * `color.replace(/[\d\.]+\)$/g, alpha + ')')`: the run of digits and dots
   * before a closing parenthesis that ends the text becomes `alpha`; with
   * no such run the text is unchanged.
   */
  function ReplaceLastNumber(color: string, alpha: string): (r: string)
    ensures !EndsWith(color, ")") ==> r == color
    ensures EndsWith(color, ")") && TrailingNumberLength(color[..|color| - 1]) == 0 ==> r == color
  {
    if color == [] || color[|color| - 1] != ')' then color
    else
      var body := color[..|color| - 1];
      var k := TrailingNumberLength(body);
      if k == 0 then color else body[..|body| - k] + alpha + ")"
  }

  /** The text `rgba(r, g, b, a)` of four rendered components. */
  function RgbaText(r: string, g: string, b: string, a: string): string {
    "rgba(" + r + ", " + g + ", " + b + ", " + a + ")"
  }

  /**
   * addAlphaToColor: an empty colour is transparent black; a `#` colour
   * has its three two-digit hexadecimal channels read; an `rgba` colour has
   * its last number replaced; an `rgb` colour is widened to `rgba` with the
   * alpha added; anything else is returned unchanged. `alpha` is its
   * rendering in the template literal.
   */
  function AddAlphaToColor(color: string, alpha: string): (r: string)
    ensures color == "" ==> r == "rgba(0,0,0,0)"
    ensures color != "" && color[0] != '#' && !StartsWith(color, "rgb") ==> r == color
  {
    if color == "" then "rgba(0,0,0,0)"
    else if color[0] == '#' then HexToRgba(color[1..], alpha)
    else if StartsWith(color, "rgba") then ReplaceLastNumber(color, alpha)
    else if StartsWith(color, "rgb") then RgbToRgba(color, alpha)
    else color
  }

  /** The `#` branch: the first three pairs of hexadecimal digits, each read by `parseInt(…, 16)`. */
  function HexToRgba(hex: string, alpha: string): string {
    RgbaText(Channel(Substr(hex, 0, 2)), Channel(Substr(hex, 2, 2)), Channel(Substr(hex, 4, 2)), alpha)
  }

  /** The `rgb` branch: `rgba` for the first `rgb`, then the alpha before the first `)`. */
  function RgbToRgba(color: string, alpha: string): string {
    ReplaceFirst(ReplaceFirst(color, "rgb", "rgba"), ")", ", " + alpha + ")")
  }

  /** `#RRGGBB` gives its three channels in decimal, then the alpha. */
  lemma HexColorChannels(color: string, alpha: string)
    requires IsHexColor6(color)
    ensures AddAlphaToColor(color, alpha) ==
            RgbaText(NatToString(HexDigitsValue(color[1..3])), NatToString(HexDigitsValue(color[3..5])),
                     NatToString(HexDigitsValue(color[5..7])), alpha)
  {
    var hex := color[1..];
    assert Substr(hex, 0, 2) == color[1..3];
    assert Substr(hex, 2, 2) == color[3..5];
    assert Substr(hex, 4, 2) == color[5..7];
    assert AllHex(color[1..3]) && AllHex(color[3..5]) && AllHex(color[5..7]);
  }

  /** A channel of two hexadecimal digits is a byte. */
  lemma TwoHexDigitsAreByte(d: string)
    requires |d| == 2 && AllHex(d)
    ensures HexDigitsValue(d) < 256
  {
    var hi := d[..1];
    assert hi[..0] == [] && hi[0] == d[0];
    assert HexDigitsValue(hi) == HexValue(d[0]) < 16;
    assert HexDigitsValue(d) == HexDigitsValue(hi) * 16 + HexValue(d[1]);
  }

  /** The short `#RGB` form is not expanded: its third channel reads nothing and renders `NaN`. */
  lemma ShortHexThirdChannelIsNaN(color: string, alpha: string)
    requires |color| == 4 && color[0] == '#' && AllHex(color[1..])
    ensures AddAlphaToColor(color, alpha) ==
            RgbaText(NatToString(HexDigitsValue(color[1..3])), NatToString(HexDigitsValue(color[3..4])), "NaN", alpha)
  {
    var hex := color[1..];
    assert Substr(hex, 0, 2) == color[1..3];
    assert Substr(hex, 2, 2) == color[3..4];
    assert Substr(hex, 4, 2) == "";
    assert AllHex(color[1..3]) && AllHex(color[3..4]);
    assert HexPrefix(StripHexSign(TrimLeft(""))) == [];
  }

  /** An `rgba(…, a)` colour keeps everything but its last number, which becomes the new alpha. */
  lemma RgbaAlphaReplaced(prefix: string, old_alpha: string, alpha: string)
    requires StartsWith(prefix, "rgba")
    requires old_alpha != [] && forall i :: 0 <= i < |old_alpha| ==> IsNumberChar(old_alpha[i])
    requires !IsNumberChar(prefix[|prefix| - 1])
    ensures AddAlphaToColor(prefix + old_alpha + ")", alpha) == prefix + alpha + ")"
  {
    var color := prefix + old_alpha + ")";
    assert StartsWith(color, "rgba") by { assert color[..4] == prefix[..4]; }
    assert color[0] == 'r';
    var body := color[..|color| - 1];
    assert body == prefix + old_alpha;
    TrailingRun(prefix, old_alpha);
    assert body[..|body| - |old_alpha|] == prefix;
  }

  lemma {:induction false} TrailingRun(p: string, d: string)
    requires p != [] && !IsNumberChar(p[|p| - 1])
    requires forall i :: 0 <= i < |d| ==> IsNumberChar(d[i])
    ensures TrailingNumberLength(p + d) == |d|
  {
    if d != [] {
      var s := p + d;
      assert s[..|s| - 1] == p + d[..|d| - 1];
      TrailingRun(p, d[..|d| - 1]);
    } else {
      assert p + d == p;
    }
  }

  /** An `rgb(…)` colour without other parentheses becomes the `rgba(…, a)` colour with the same channels. */
  lemma RgbWidened(channels: string, alpha: string)
    requires forall i :: 0 <= i < |channels| ==> channels[i] != ')'
    ensures AddAlphaToColor("rgb(" + channels + ")", alpha) == "rgba(" + channels + ", " + alpha + ")"
  {
    var color := "rgb(" + channels + ")";
    assert color[0] == 'r' && color[3] == '(';
    assert StartsWith(color, "rgb") && !StartsWith(color, "rgba");
    assert AddAlphaToColor(color, alpha) == RgbToRgba(color, alpha);
    var p := "rgba(" + channels;
    var u := ", " + alpha + ")";
    var wide := ReplaceFirst(color, "rgb", "rgba");
    RgbBecomesRgba(channels);
    assert wide == p + ")";
    assert RgbToRgba(color, alpha) == ReplaceFirst(wide, ")", u);
    NoParenAfterRgba(channels);
    ReplaceParenAtEnd(p, u);
    assert p + u == "rgba(" + channels + ", " + alpha + ")";
  }

  lemma NoParenAfterRgba(channels: string)
    requires forall i :: 0 <= i < |channels| ==> channels[i] != ')'
    ensures forall i :: 0 <= i < |"rgba(" + channels| ==> ("rgba(" + channels)[i] != ')'
  {
    var p := "rgba(" + channels;
    forall i | 0 <= i < |p| ensures p[i] != ')' {
      if i >= 5 { assert p[i] == channels[i - 5]; }
    }
  }

  /** Replacing the first `)` of a text whose only `)` ends it. */
  lemma ReplaceParenAtEnd(p: string, u: string)
    requires forall i :: 0 <= i < |p| ==> p[i] != ')'
    ensures ReplaceFirst(p + ")", ")", u) == p + u
  {
    ParenAtEnd(p);
    assert (p + ")")[..|p|] == p && (p + ")")[|p| + 1..] == "";
  }

  /** The first `rgb` of an `rgb(` colour is its start. */
  lemma RgbBecomesRgba(channels: string)
    ensures ReplaceFirst("rgb(" + channels + ")", "rgb", "rgba") == "rgba(" + channels + ")"
  {
    var color := "rgb(" + channels + ")";
    assert color[0..3] == "rgb";
    assert FindFrom(color, "rgb", 0) == Some(0);
    assert color[3..] == "(" + channels + ")";
  }

  /** In a text whose only `)` is its last character, that is where `indexOf(')')` finds one. */
  lemma ParenAtEnd(p: string)
    requires forall i :: 0 <= i < |p| ==> p[i] != ')'
    ensures FindFrom(p + ")", ")", 0) == Some(|p|)
  {
    var s := p + ")";
    assert OccursAt(s, ")", |p|) by { assert s[|p|..|p| + 1] == ")"; }
    forall k | 0 <= k < |p| ensures !OccursAt(s, ")", k) {
      assert s[k..k + 1][0] == s[k] == p[k];
    }
    FindFirstAt(s, ")", |p|);
  }

  /** The first occurrence is at `n` when `t` occurs there and nowhere before. */
  lemma FindFirstAt(s: string, t: string, n: nat)
    requires OccursAt(s, t, n) && forall k :: 0 <= k < n ==> !OccursAt(s, t, k)
    ensures FindFrom(s, t, 0) == Some(n)
  {
  }
}
