// The dashboard's client-side slot helpers (`SlotUtils`) and colour helpers
// (`ColorUtils`): slot index to clock text, time ranges, grouping of
// consecutive slots, duration text, the six-digit hex check and the
// black/white contrast choice.
module SlotUtils {
  import opened Wrappers
  import opened Strings
  import CoreUtils
  import TimeBlockModel

  // ---------------------------------------------------------------------
  // Clock text

  /** indexToTimeString: the zero-padded "HH:MM" at which slot `i` starts. */
  function IndexToTimeString(i: nat): (r: string)
    ensures i < 600 ==> |r| == 5 && r[2] == ':' && AllDigits(r[..2]) && AllDigits(r[3..])
    ensures i < 600 ==> TimeBlockModel.ClockMinutes(r) == 10 * i
    ensures i < 600 ==> DigitsValue(r[3..]) <= 50 && DigitsValue(r[3..]) % 10 == 0
  {
    var totalMinutes := i * 10;
    var hour := totalMinutes / 60;
    var minute := totalMinutes % 60;
    var r := Pad2(hour) + ":" + Pad2(minute);
    assert i < 600 ==> r[..2] == Pad2(hour) && r[3..] == Pad2(minute);
    r
  }

  /** indexToTimeRange: "start-end" of the slot, end being the next slot's start. */
  function IndexToTimeRange(i: nat): (r: string)
    ensures i < 599 ==> |r| == 11 && r[5] == '-' && r[..5] == IndexToTimeString(i) &&
                        r[6..] == IndexToTimeString(i + 1)
  {
    var a := IndexToTimeString(i);
    var b := IndexToTimeString(i + 1);
    assert i < 599 ==> (a + "-" + b)[..5] == a && (a + "-" + b)[6..] == b;
    a + "-" + b
  }

  /** The browser's time range text equals the server's `get_time_range` for every slot. */
  lemma TimeRangeMatchesServer(i: nat)
    requires i <= TimeBlockModel.MaxSlotIndex
    ensures IndexToTimeRange(i) == TimeBlockModel.GetTimeRange(i)
  {
  }

  // ---------------------------------------------------------------------
  // Numeric sort (`[...xs].sort((a, b) => a - b)`)

  predicate SortedAsc(s: seq<int>) {
    forall i, j :: 0 <= i < j < |s| ==> s[i] <= s[j]
  }

  function InsertSorted(x: int, s: seq<int>): (r: seq<int>)
    requires SortedAsc(s)
    ensures |r| == |s| + 1 && r[0] == (if s == [] || x <= s[0] then x else s[0])
    ensures SortedAsc(r)
    ensures multiset(r) == multiset(s) + multiset{x}
  {
    if s == [] || x <= s[0] then [x] + s
    else
      var t := InsertSorted(x, s[1..]);
      assert s == [s[0]] + s[1..];
      assert multiset(s) == multiset{s[0]} + multiset(s[1..]);
      [s[0]] + t
  }

  /** The numerically sorted copy of `s`. */
  function SortAsc(s: seq<int>): (r: seq<int>)
    ensures SortedAsc(r) && multiset(r) == multiset(s) && |r| == |s|
  {
    if s == [] then []
    else
      assert s == [s[0]] + s[1..];
      var r := InsertSorted(s[0], SortAsc(s[1..]));
      assert |r| == |multiset(r)|;
      r
  }

  // ---------------------------------------------------------------------
  // groupConsecutiveSlots

  function Flatten(groups: seq<seq<int>>): seq<int> {
    if groups == [] then [] else groups[0] + Flatten(groups[1..])
  }

  lemma {:induction false} FlattenAppend(groups: seq<seq<int>>, g: seq<int>)
    ensures Flatten(groups + [g]) == Flatten(groups) + g
  {
    if groups != [] {
      assert (groups + [g])[1..] == groups[1..] + [g];
      FlattenAppend(groups[1..], g);
    }
  }

  /** Each element is one more than the one before it. */
  predicate IsRun(g: seq<int>) {
    forall k :: 0 < k < |g| ==> g[k] == g[k - 1] + 1
  }

  /** `b` picks up exactly where `a` stops. */
  predicate Continues(a: seq<int>, b: seq<int>) {
    a != [] && b != [] && a[|a| - 1] + 1 == b[0]
  }

  /**
   * `groups` splits `s` into maximal runs: the groups concatenate to `s`,
   * each is a non-empty run, and no group continues the one before it.
   */
  predicate IsGrouping(groups: seq<seq<int>>, s: seq<int>) {
    Flatten(groups) == s && RunsWellFormed(groups)
  }

  /** Every group is a non-empty run and none continues its predecessor. */
  predicate RunsWellFormed(groups: seq<seq<int>>) {
    (forall k :: 0 <= k < |groups| ==> groups[k] != [] && IsRun(groups[k])) &&
    (forall k :: 0 < k < |groups| ==> !Continues(groups[k - 1], groups[k]))
  }

  lemma ExtendRun(g: seq<int>, x: int)
    requires g != [] && IsRun(g) && x == g[|g| - 1] + 1
    ensures IsRun(g + [x])
  {
  }

  lemma AppendRun(groups: seq<seq<int>>, g: seq<int>)
    requires RunsWellFormed(groups) && g != [] && IsRun(g)
    requires groups != [] ==> !Continues(groups[|groups| - 1], g)
    ensures RunsWellFormed(groups + [g])
  {
  }

  /**
   * groupConsecutiveSlots: sorts a copy of the input and cuts it wherever
   * an element is not one more than its predecessor.
   */
  method GroupConsecutiveSlots(slotIndexes: seq<int>) returns (groups: seq<seq<int>>)
    ensures IsGrouping(groups, SortAsc(slotIndexes))
    ensures slotIndexes == [] <==> groups == []
  {
    if |slotIndexes| == 0 {
      return [];
    }
    groups := GroupRuns(SortAsc(slotIndexes));
  }

  /** The cutting loop of groupConsecutiveSlots, over the sorted copy. */
  method GroupRuns(sorted: seq<int>) returns (groups: seq<seq<int>>)
    requires sorted != []
    ensures IsGrouping(groups, sorted) && groups != []
  {
    groups := [];
    var current := [sorted[0]];
    var i := 1;
    while i < |sorted|
      invariant 1 <= i <= |sorted|
      invariant Flatten(groups) + current == sorted[..i]
      invariant current != [] && IsRun(current) && current[|current| - 1] == sorted[i - 1]
      invariant RunsWellFormed(groups)
      invariant groups != [] ==> !Continues(groups[|groups| - 1], current)
    {
      ghost var done := Flatten(groups);
      if sorted[i] == sorted[i - 1] + 1 {
        ExtendRun(current, sorted[i]);
        assert done + (current + [sorted[i]]) == (done + current) + [sorted[i]];
        assert (current + [sorted[i]])[0] == current[0];
        current := current + [sorted[i]];
      } else {
        FlattenAppend(groups, current);
        AppendRun(groups, current);
        assert !Continues(current, [sorted[i]]);
        groups := groups + [current];
        current := [sorted[i]];
      }
      assert sorted[..i + 1] == sorted[..i] + [sorted[i]];
      i := i + 1;
    }
    FlattenAppend(groups, current);
    AppendRun(groups, current);
    groups := groups + [current];
    assert sorted[..i] == sorted;
  }

  /** The groups after the first group a grouping of what follows it. */
  lemma GroupingTail(groups: seq<seq<int>>, s: seq<int>)
    requires IsGrouping(groups, s) && groups != []
    ensures |groups[0]| <= |s| && s[..|groups[0]|] == groups[0]
    ensures IsGrouping(groups[1..], s[|groups[0]|..])
  {
    assert Flatten(groups) == groups[0] + Flatten(groups[1..]);
    forall k | 0 < k < |groups[1..]| ensures !Continues(groups[1..][k - 1], groups[1..][k]) {
      assert groups[1..][k - 1] == groups[k] && groups[1..][k] == groups[k + 1];
    }
  }

  /** A sequence has exactly one grouping into maximal runs. */
  lemma {:induction false} GroupingUnique(g1: seq<seq<int>>, g2: seq<seq<int>>, s: seq<int>)
    requires IsGrouping(g1, s) && IsGrouping(g2, s)
    ensures g1 == g2
    decreases |s|
  {
    if g1 == [] || g2 == [] {
      return;
    }
    FirstGroupLength(g1, s);
    FirstGroupLength(g2, s);
    GroupingTail(g1, s);
    GroupingTail(g2, s);
    GroupingUnique(g1[1..], g2[1..], s[|g1[0]|..]);
    assert g1 == [g1[0]] + g1[1..] && g2 == [g2[0]] + g2[1..];
  }

  /** The first index at or after `i` where `s` stops being a run (or |s|). */
  function FirstBreak(s: seq<int>, i: nat): (r: nat)
    requires 0 < i <= |s|
    ensures i <= r <= |s|
    decreases |s| - i
  {
    if i == |s| then |s|
    else if s[i] == s[i - 1] + 1 then FirstBreak(s, i + 1)
    else i
  }

  lemma {:induction false} FirstBreakIs(s: seq<int>, i: nat, n: nat)
    requires 0 < i <= n <= |s|
    requires forall k :: i <= k < n ==> s[k] == s[k - 1] + 1
    requires n < |s| ==> s[n] != s[n - 1] + 1
    ensures FirstBreak(s, i) == n
    decreases n - i
  {
    if i < n {
      FirstBreakIs(s, i + 1, n);
    }
  }

  /** The first group of a grouping ends at the first break of `s`. */
  lemma FirstGroupLength(g: seq<seq<int>>, s: seq<int>)
    requires IsGrouping(g, s) && g != []
    ensures 0 < |g[0]| <= |s| && |g[0]| == FirstBreak(s, 1)
  {
    var a := g[0];
    assert Flatten(g) == a + Flatten(g[1..]);
    assert 0 < |a| <= |s| && s[..|a|] == a;
    forall k | 1 <= k < |a| ensures s[k] == s[k - 1] + 1 {
      assert s[k] == a[k] && s[k - 1] == a[k - 1];
    }
    if |a| < |s| {
      assert g[1..] != [];
      assert Flatten(g[1..]) == g[1] + Flatten(g[2..]);
      assert s[|a|] == g[1][0];
      assert s[|a| - 1] == a[|a| - 1];
      assert !Continues(g[0], g[1]);
    }
    FirstBreakIs(s, 1, |a|);
  }

  /** The worked example of the helper's documentation. */
  lemma GroupingExample(groups: seq<seq<int>>)
    requires IsGrouping(groups, [1, 2, 3, 7, 8, 10])
    ensures groups == [[1, 2, 3], [7, 8], [10]]
  {
    var s := [1, 2, 3, 7, 8, 10];
    ExampleIsGrouping();
    GroupingUnique(groups, [[1, 2, 3], [7, 8], [10]], s);
  }

  lemma ExampleIsGrouping()
    ensures IsGrouping([[1, 2, 3], [7, 8], [10]], [1, 2, 3, 7, 8, 10])
  {
    var e := [[1, 2, 3], [7, 8], [10]];
    assert Flatten(e[2..]) == [10];
    assert Flatten(e[1..]) == [7, 8] + [10];
    assert Flatten(e) == [1, 2, 3] + [7, 8, 10];
  }

  /** Sorting an already sorted sequence changes nothing. */
  lemma SortedIsIdentity(s: seq<int>)
    requires SortedAsc(s)
    ensures SortAsc(s) == s
  {
    SortedUnique(SortAsc(s), s);
  }

  /** Two sorted sequences with the same elements are equal. */
  lemma {:induction false} SortedUnique(a: seq<int>, b: seq<int>)
    requires SortedAsc(a) && SortedAsc(b) && multiset(a) == multiset(b)
    ensures a == b
    decreases |a|
  {
    if a == [] || b == [] {
      assert |multiset(a)| == |multiset(b)|;
      return;
    }
    assert a[0] in multiset(b) && b[0] in multiset(a) by {
      assert a[0] in multiset(a) && b[0] in multiset(b);
    }
    assert a[0] == b[0] by {
      var i :| 0 <= i < |b| && b[i] == a[0];
      var j :| 0 <= j < |a| && a[j] == b[0];
      assert b[0] <= b[i] && a[0] <= a[j];
    }
    assert a == [a[0]] + a[1..] && b == [b[0]] + b[1..];
    assert multiset(a) == multiset{a[0]} + multiset(a[1..]);
    assert multiset(b) == multiset{b[0]} + multiset(b[1..]);
    assert multiset(a[1..]) == multiset(a) - multiset{a[0]};
    assert multiset(b[1..]) == multiset(b) - multiset{b[0]};
    SortedUnique(a[1..], b[1..]);
  }

  // ---------------------------------------------------------------------
  // slotsToTimeString

  /**
   * The Korean duration text shared by slotsToTimeString and the statistics
   * panel: "0시간 0분" for nothing, hours and minutes each only when non-zero.
   */
  function DurationText(hours: nat, minutes: nat): (r: string)
    ensures r == "0시간 0분" <==> hours == 0 && minutes == 0
    ensures hours == 0 && minutes > 0 ==> r == NatToString(minutes) + "분"
    ensures hours > 0 && minutes == 0 ==> r == NatToString(hours) + "시간"
    ensures hours > 0 && minutes > 0 ==> r == NatToString(hours) + "시간 " + NatToString(minutes) + "분"
  {
    var r :=
      if hours == 0 && minutes == 0 then "0시간 0분"
      else if hours == 0 then NatToString(minutes) + "분"
      else if minutes == 0 then NatToString(hours) + "시간"
      else NatToString(hours) + "시간 " + NatToString(minutes) + "분";
    if hours == 0 && minutes == 0 then r
    else
      DurationTextNotZero(hours, minutes, r);
      r
  }

  lemma DurationTextNotZero(hours: nat, minutes: nat, t: string)
    requires hours > 0 || minutes > 0
    requires t == (if hours == 0 then NatToString(minutes) + "분"
                   else if minutes == 0 then NatToString(hours) + "시간"
                   else NatToString(hours) + "시간 " + NatToString(minutes) + "분")
    ensures t != "0시간 0분"
  {
    var z := "0시간 0분";
    assert |z| == 6 && z[1] == '시' && !IsDigit(z[1]);
    var d := if hours == 0 then NatToString(minutes) else NatToString(hours);
    assert t[..|d|] == d;
    if |d| >= 2 {
      assert t[1] == d[1];
    } else if hours == 0 {
      assert |t| == 2;
    } else if minutes == 0 {
      assert |t| == 3;
    } else {
      NatToStringLength(hours);
      assert t[0] == d[0];
      assert d == [DigitChar(hours)];
    }
  }

  /** The duration text gives back both of its numbers, "0시간 0분" included. */
  lemma DurationTextReadsBack(hours: nat, minutes: nat)
    ensures CoreUtils.ReadDuration(DurationText(hours, minutes)) == Some((hours, minutes))
  {
    if hours == 0 && minutes == 0 {
      assert NatToString(0) == "0";
      assert DurationText(0, 0) == NatToString(0) + "시간 " + NatToString(0) + "분";
      CoreUtils.ReadsHoursAndMinutes(0, 0);
    } else if hours == 0 {
      CoreUtils.ReadsNumberWithUnit(minutes, "분");
    } else if minutes == 0 {
      CoreUtils.ReadsNumberWithUnit(hours, "시간");
    } else {
      CoreUtils.ReadsHoursAndMinutes(hours, minutes);
    }
  }

  /**
   * slotsToTimeString: the duration of `slotCount` ten-minute slots, in
   * whole hours and the remaining minutes. For a non-empty selection it is
   * the server's format_time_display text.
   */
  function SlotsToTimeString(slotCount: nat): (r: string)
    ensures r == "0시간 0분" <==> slotCount == 0
    ensures slotCount > 0 ==>
              r == CoreUtils.FormatTimeDisplay(slotCount * 10 / 60, slotCount * 10 % 60)
  {
    var totalMinutes := slotCount * 10;
    DurationText(totalMinutes / 60, totalMinutes % 60)
  }

  /** The text reads back as hours and minutes below sixty that add up to ten minutes per slot. */
  lemma SlotsToTimeStringReadsBack(slotCount: nat)
    ensures var d := CoreUtils.ReadDuration(SlotsToTimeString(slotCount));
            d.Some? && d.value.0 * 60 + d.value.1 == 10 * slotCount && d.value.1 < 60
  {
    DurationTextReadsBack(slotCount * 10 / 60, slotCount * 10 % 60);
  }

  // ---------------------------------------------------------------------
  // ColorUtils

  /** isValidHex: `/^#[0-9A-Fa-f]{6}$/.test(color)`. */
  lemma IsValidHexExamples()
    ensures IsHexColor6("#a0B1c2") && IsHexColor6("#FFFFFF")
    ensures !IsHexColor6("#abc") && !IsHexColor6("a0b1c2") && !IsHexColor6("#a0b1c2\n")
    ensures !IsHexColor6("#a0b1cg")
  {
    assert AllHex("#a0B1c2"[1..]);
    assert AllHex("#FFFFFF"[1..]);
    assert !IsHexDigit("#a0b1cg"[6]);
  }

  /**
   * getBrightness scaled by 1000: 299·r + 587·g + 114·b over the
   * `parseInt(…, 16)` of the three two-character pieces after the first
   * '#'; None when a piece is NaN.
   */
  function Brightness1000(hexColor: string): Option<int> {
    var hex := ReplaceFirst(hexColor, "#", "");
    var r := ParseIntHex(Substr(hex, 0, 2));
    var g := ParseIntHex(Substr(hex, 2, 2));
    var b := ParseIntHex(Substr(hex, 4, 2));
    if r.None? || g.None? || b.None? then None
    else Some(r.value * 299 + g.value * 587 + b.value * 114)
  }

  /** getContrastColor: 'black' above brightness 128, 'white' otherwise (NaN included). */
  function GetContrastColor(bgColor: string): (r: string)
    ensures r == "black" || r == "white"
  {
    var b := Brightness1000(bgColor);
    if b.Some? && b.value > 128000 then "black" else "white"
  }

  /** The channel value written at positions k, k+1 of a colour. */
  function Channel(c: string, k: nat): nat
    requires IsHexColor6(c) && 1 <= k <= 5
  {
    HexDigitsValue(c[k..k + 2])
  }

  /** For "#RRGGBB" the choice is black exactly when 299R + 587G + 114B > 128000. */
  lemma ContrastOfHexColor(c: string)
    requires IsHexColor6(c)
    ensures GetContrastColor(c) == "black" <==>
              299 * Channel(c, 1) + 587 * Channel(c, 3) + 114 * Channel(c, 5) > 128000
  {
    assert OccursAt(c, "#", 0);
    assert ReplaceFirst(c, "#", "") == c[1..];
    var hex := c[1..];
    assert Substr(hex, 0, 2) == c[1..3];
    assert Substr(hex, 2, 2) == c[3..5];
    assert Substr(hex, 4, 2) == c[5..7];
    ParseIntHexOfHex(c[1..3]);
    ParseIntHexOfHex(c[3..5]);
    ParseIntHexOfHex(c[5..7]);
  }
}
