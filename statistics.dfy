// The statistics panel of the dashboard: the fill snapshot of the day grid,
// the change detection that skips redundant repaints, the hourly buckets,
// the busiest hour and the continuous activity blocks.
module Statistics {
  import opened Wrappers
  import opened Strings
  import opened SlotGrid
  import SlotUtils
  import CoreUtils
  import Config = DashboardConfig

  /** The snapshot calculateStatistics returns; `fillTenths` is the percentage times ten. */
  datatype StatisticsData = StatisticsData(totalSlots: nat, filledSlots: nat, fillTenths: nat,
                                           totalMinutes: nat, totalHours: nat, remainingMinutes: nat)

  /** What getMostActiveHour reports. */
  datatype ActiveHour = ActiveHour(hour: nat, slots: nat, timeRange: string, percentage: nat)

  /** One entry of analyzeContinuousBlocks. */
  datatype ActivityBlock = ActivityBlock(startIndex: int, endIndex: int, duration: nat,
                                         timeRange: string, durationText: string)

  predicate Increasing(s: seq<int>) {
    forall i, j :: 0 <= i < j < |s| ==> s[i] < s[j]
  }

  // ---------------------------------------------------------------------
  // The filled cells

  /** Slot `x` is a cell of the grid and is filled. */
  predicate FilledAt(cells: seq<Cell>, x: int) { 0 <= x < |cells| && cells[x].filled }

  /**
   * The `data-slot-index` values of `.time-slot.filled`, in document order;
   * the grid renders cell `k` with index `k`.
   */
  function FilledIndexes(cells: seq<Cell>): (r: seq<int>)
    ensures Increasing(r) && |r| <= |cells|
    ensures forall x :: x in r <==> 0 <= x < |cells| && cells[x].filled
    decreases |cells|
  {
    if cells == [] then []
    else
      var n := |cells| - 1;
      var front := FilledIndexes(cells[..n]);
      assert forall x :: 0 <= x < n ==> cells[..n][x] == cells[x];
      assert forall i :: 0 <= i < |front| ==> front[i] < n by {
        forall i | 0 <= i < |front| ensures front[i] < n {
          assert front[i] in front;
        }
      }
      if cells[n].filled then front + [n] else front
  }

  lemma FilledIndexesSorted(cells: seq<Cell>)
    ensures var r := FilledIndexes(cells);
            SlotUtils.SortedAsc(r) && forall i :: 0 <= i < |r| ==> r[i] >= 0
  {
    var r := FilledIndexes(cells);
    forall i | 0 <= i < |r| ensures r[i] >= 0 {
      assert r[i] in r;
    }
  }

  /**
   * Math.round(filled / 144 * 100 * 10) / 10 in tenths: the nearest integer
   * to 1000 * filled / 144, a half rounding up. The halves occur only at
   * multiples of 9 slots, where every step is exact in binary floating point.
   */
  function FillTenths(filled: nat): (r: nat)
    ensures -72 < 144 * r - 1000 * filled <= 72
  {
    (filled * 1000 + Config.TotalSlots / 2) / Config.TotalSlots
  }

  /** calculateStatistics over the current grid. */
  function CalculateStatistics(cells: seq<Cell>): (r: StatisticsData)
    ensures r.totalSlots == Config.TotalSlots && r.filledSlots == |FilledIndexes(cells)|
    ensures r.totalMinutes == Config.SlotDuration * r.filledSlots
    ensures r.totalHours * 60 + r.remainingMinutes == r.totalMinutes && r.remainingMinutes < 60
    ensures -72 < 144 * r.fillTenths - 1000 * r.filledSlots <= 72
    ensures |cells| <= SlotCount ==> r.totalHours <= 24 && r.fillTenths <= 1000
  {
    var filled := |FilledIndexes(cells)|;
    var totalMinutes := filled * Config.SlotDuration;
    StatisticsData(Config.TotalSlots, filled, FillTenths(filled),
                   totalMinutes, totalMinutes / 60, totalMinutes % 60)
  }

  /** _hasStatsChanged: no previous snapshot, or one of the four shown values differs. */
  predicate HasStatsChanged(last: Option<StatisticsData>, s: StatisticsData): (r: bool)
    ensures last.None? ==> r
    ensures last == Some(s) ==> !r
  {
    last.None? ||
    last.value.filledSlots != s.filledSlots || last.value.fillTenths != s.fillTenths ||
    last.value.totalHours != s.totalHours || last.value.remainingMinutes != s.remainingMinutes
  }

  /** Between two snapshots of a grid the detection is exact: it fires iff the filled count moved. */
  lemma ChangeIffFilledCountMoved(a: seq<Cell>, b: seq<Cell>)
    ensures HasStatsChanged(Some(CalculateStatistics(a)), CalculateStatistics(b)) <==>
            |FilledIndexes(a)| != |FilledIndexes(b)|
  {
  }

  /** A stored snapshot never reports itself as a change. */
  lemma StoredSnapshotIsQuiet(s: StatisticsData)
    ensures !HasStatsChanged(Some(s), s)
  {
  }

  /**
   * _formatTimeText: the same four texts as slotsToTimeString's duration
   * text, so the panel's text reads back as the hours and minutes shown.
   */
  function FormatTimeText(hours: nat, minutes: nat): (r: string)
    ensures r == SlotUtils.DurationText(hours, minutes)
    ensures r == "0시간 0분" <==> hours == 0 && minutes == 0
    ensures CoreUtils.ReadDuration(r) == Some((hours, minutes))
  {
    SlotUtils.DurationTextReadsBack(hours, minutes);
    if hours == 0 && minutes == 0 then "0시간 0분"
    else if hours == 0 then NatToString(minutes) + "분"
    else if minutes == 0 then NatToString(hours) + "시간"
    else NatToString(hours) + "시간 " + NatToString(minutes) + "분"
  }

  /**
   * `${fillPercentage}%`: JavaScript renders a number of tenths as its whole
   * part, then a point and the tenths digit unless that digit is zero.
   */
  function PercentText(tenths: nat): (r: string)
    ensures |r| >= 2 && r[|r| - 1] == '%'
    ensures ('.' in r) <==> tenths % 10 != 0
  {
    var w := NatToString(tenths / 10);
    assert '.' !in w by { assert forall k :: 0 <= k < |w| ==> IsDigit(w[k]); }
    w + (if tenths % 10 == 0 then "" else "." + [DigitChar(tenths % 10)]) + "%"
  }

  /**
   * A percentage text read back as tenths: digits, optionally a point and one
   * non-zero digit, then `%`; None for any other text.
   */
  function ReadPercent(s: string): Option<nat> {
    if |s| < 2 || s[|s| - 1] != '%' then None
    else
      var b := s[..|s| - 1];
      if AllDigits(b) then Some(DigitsValue(b) * 10)
      else if |b| >= 3 && b[|b| - 2] == '.' && AllDigits(b[..|b| - 2]) &&
              IsDigit(b[|b| - 1]) && b[|b| - 1] != '0' then
        Some(DigitsValue(b[..|b| - 2]) * 10 + DigitValue(b[|b| - 1]))
      else None
  }

  /** The percentage shown reads back as the number of tenths it was made from. */
  lemma PercentTextReadsBack(tenths: nat)
    ensures ReadPercent(PercentText(tenths)) == Some(tenths)
  {
    var w := NatToString(tenths / 10);
    NatToStringRoundTrip(tenths / 10);
    var b := PercentText(tenths)[..|PercentText(tenths)| - 1];
    if tenths % 10 == 0 {
      assert b == w;
    } else {
      var d := DigitChar(tenths % 10);
      assert b == w + "." + [d];
      assert b[..|b| - 2] == w;
      assert !IsDigit(b[|w|]);
    }
  }

  /** Two panel texts: 12.5% keeps its decimal, 12.0% is shown without one. */
  lemma PercentTextExamples()
    ensures PercentText(125) == "12.5%"
    ensures PercentText(120) == "12%"
  {
    assert NatToString(12) == NatToString(1) + [DigitChar(2)];
  }

  // ---------------------------------------------------------------------
  // StatisticsManager

  /**
   * The manager's cached snapshot and the three panel texts it writes.
   * `hasElements` says whether the page has the panel's elements.
   */
  class StatisticsManager {
    var lastStats: Option<StatisticsData>
    const hasElements: bool
    var filledText: string
    var percentText: string
    var timeText: string

    constructor(hasElements: bool, filledText: string, percentText: string, timeText: string)
      ensures this.hasElements == hasElements && lastStats == None
      ensures this.filledText == filledText && this.percentText == percentText &&
              this.timeText == timeText
    {
      this.hasElements := hasElements;
      lastStats := None;
      this.filledText := filledText;
      this.percentText := percentText;
      this.timeText := timeText;
    }

    /**
     * updateStatistics: takes the given snapshot or computes one, skips an
     * unchanged one, stops when the elements are missing, and otherwise
     * writes the three texts and remembers the snapshot.
     */
    method UpdateStatistics(cells: seq<Cell>, given: Option<StatisticsData>)
      modifies this
      ensures var s := given.GetOr(CalculateStatistics(cells));
              if HasStatsChanged(old(lastStats), s) && hasElements then
                lastStats == Some(s) && filledText == NatToString(s.filledSlots) &&
                percentText == PercentText(s.fillTenths) &&
                timeText == FormatTimeText(s.totalHours, s.remainingMinutes)
              else
                lastStats == old(lastStats) && filledText == old(filledText) &&
                percentText == old(percentText) && timeText == old(timeText)
      ensures hasElements ==> !HasStatsChanged(lastStats, given.GetOr(CalculateStatistics(cells)))
    {
      var stats := if given.Some? then given.value else CalculateStatistics(cells);
      if !HasStatsChanged(lastStats, stats) {
        return;
      }
      if !hasElements {
        return;
      }
      filledText := NatToString(stats.filledSlots);
      percentText := PercentText(stats.fillTenths);
      timeText := FormatTimeText(stats.totalHours, stats.remainingMinutes);
      lastStats := Some(stats);
    }

    /** refresh: drops the cache, so the current grid is always written. */
    method Refresh(cells: seq<Cell>)
      modifies this
      ensures var s := CalculateStatistics(cells);
              if hasElements then
                lastStats == Some(s) && filledText == NatToString(s.filledSlots) &&
                percentText == PercentText(s.fillTenths) &&
                timeText == FormatTimeText(s.totalHours, s.remainingMinutes)
              else
                lastStats == None && filledText == old(filledText) &&
                percentText == old(percentText) && timeText == old(timeText)
    {
      lastStats := None;
      UpdateStatistics(cells, None);
    }
  }

  // ---------------------------------------------------------------------
  // calculateHourlyStatistics

  /** The 24 counters after counting `filled` in order, skipping indexes outside the day. */
  function HourlyOf(filled: seq<int>): (r: seq<nat>)
    ensures |r| == 24
  {
    if filled == [] then seq(24, h => 0)
    else
      var prev := HourlyOf(filled[..|filled| - 1]);
      var hour := filled[|filled| - 1] / Config.SlotsPerHour;
      if 0 <= hour < 24 then prev[hour := prev[hour] + 1] else prev
  }

  /** calculateHourlyStatistics: one counter per hour, filled from the filled cells. */
  method CalculateHourlyStatistics(cells: seq<Cell>) returns (hourlyStats: seq<nat>)
    ensures hourlyStats == HourlyOf(FilledIndexes(cells))
  {
    var counts := new nat[24](h => 0);
    var filled := FilledIndexes(cells);
    assert counts[..] == HourlyOf(filled[..0]);
    var i := 0;
    while i < |filled|
      invariant 0 <= i <= |filled|
      invariant counts[..] == HourlyOf(filled[..i])
    {
      var hour := filled[i] / Config.SlotsPerHour;
      assert filled[..i + 1][..i] == filled[..i];
      if hour >= 0 && hour < 24 {
        counts[hour] := counts[hour] + 1;
      }
      i := i + 1;
    }
    assert filled[..i] == filled;
    hourlyStats := counts[..];
  }

  /** The number of elements of `s` in `[lo, hi)`. */
  function CountIn(s: seq<int>, lo: int, hi: int): nat {
    if s == [] then 0
    else CountIn(s[..|s| - 1], lo, hi) + (if lo <= s[|s| - 1] < hi then 1 else 0)
  }

  function Sum(s: seq<nat>): nat {
    if s == [] then 0 else s[0] + Sum(s[1..])
  }

  /** Counter `h` holds the filled indexes of hour `h`, i.e. in `[6h, 6h + 6)`. */
  lemma {:induction false} HourlyBucket(filled: seq<int>, h: nat)
    requires h < 24
    ensures HourlyOf(filled)[h] == CountIn(filled, 6 * h, 6 * h + 6)
  {
    if filled != [] {
      HourlyBucket(filled[..|filled| - 1], h);
    }
  }

  lemma {:induction false} SumUpdate(s: seq<nat>, k: nat, v: nat)
    requires k < |s|
    ensures Sum(s[k := v]) + s[k] == Sum(s) + v
  {
    if k > 0 {
      assert s[k := v][1..] == s[1..][k - 1 := v];
      SumUpdate(s[1..], k - 1, v);
    }
  }

  lemma {:induction false} SumZeros(n: nat)
    ensures Sum(seq(n, h => 0)) == 0
  {
    if n > 0 {
      assert seq(n, h => 0)[1..] == seq(n - 1, h => 0);
      SumZeros(n - 1);
    }
  }

  /** The counters together count every index inside the day once. */
  lemma {:induction false} HourlySum(filled: seq<int>)
    ensures Sum(HourlyOf(filled)) == CountIn(filled, 0, Config.TotalSlots)
  {
    if filled == [] {
      SumZeros(24);
    } else {
      var prev := HourlyOf(filled[..|filled| - 1]);
      HourlySum(filled[..|filled| - 1]);
      var hour := filled[|filled| - 1] / Config.SlotsPerHour;
      if 0 <= hour < 24 {
        SumUpdate(prev, hour, prev[hour] + 1);
      }
    }
  }

  lemma {:induction false} CountAllIn(s: seq<int>, lo: int, hi: int)
    requires forall x :: x in s ==> lo <= x < hi
    ensures CountIn(s, lo, hi) == |s|
  {
    if s != [] {
      var t := s[..|s| - 1];
      forall x | x in t ensures lo <= x < hi {
        var j :| 0 <= j < |t| && t[j] == x;
        assert s[j] == x && s[j] in s;
      }
      assert s[|s| - 1] in s;
      CountAllIn(t, lo, hi);
    }
  }

  /** An increasing sequence below `m` has at most `min(m, hi) - lo` elements in `[lo, hi)`. */
  lemma {:induction false} CountIncreasingBound(s: seq<int>, lo: int, hi: int, m: int)
    requires Increasing(s) && forall x :: x in s ==> x < m
    ensures CountIn(s, lo, hi) <= Max(0, Min(m, hi) - lo)
  {
    if s != [] {
      var x := s[|s| - 1];
      var t := s[..|s| - 1];
      assert Increasing(t);
      assert forall y :: y in t ==> y < x by {
        forall y | y in t ensures y < x {
          var j :| 0 <= j < |t| && t[j] == y;
          assert s[j] == y;
        }
      }
      CountIncreasingBound(t, lo, hi, x);
      assert s[|s| - 1] in s;
      assert x < m;
      if lo <= x < hi {
        assert CountIn(s, lo, hi) == CountIn(t, lo, hi) + 1;
      } else {
        assert CountIn(s, lo, hi) == CountIn(t, lo, hi);
      }
    }
  }

  /** On the day grid the counters add up to the filled count. */
  lemma HourlyAddsUp(cells: seq<Cell>)
    requires |cells| <= SlotCount
    ensures Sum(HourlyOf(FilledIndexes(cells))) == |FilledIndexes(cells)|
  {
    HourlySum(FilledIndexes(cells));
    CountAllIn(FilledIndexes(cells), 0, Config.TotalSlots);
  }

  /** No hour holds more than its six slots. */
  lemma HourlyAtMostSix(cells: seq<Cell>, h: nat)
    requires h < 24
    ensures HourlyOf(FilledIndexes(cells))[h] <= Config.SlotsPerHour
  {
    var filled := FilledIndexes(cells);
    HourlyBucket(filled, h);
    CountIncreasingBound(filled, 6 * h, 6 * h + 6, |cells|);
  }

  // ---------------------------------------------------------------------
  // getMostActiveHour

  /** Math.round(slots / 6 * 100): no half can occur, since 100 * slots is even. */
  function HourPercentage(slots: nat): (r: nat)
    ensures -3 < 6 * r - 100 * slots <= 3
  {
    (slots * 100 + Config.SlotsPerHour / 2) / Config.SlotsPerHour
  }

  /** getMostActiveHour: the earliest hour with the most slots, hour 0 when nothing is filled. */
  method GetMostActiveHour(cells: seq<Cell>) returns (r: ActiveHour)
    ensures var hourly := HourlyOf(FilledIndexes(cells));
            r.hour < 24 && (forall h :: 0 <= h < 24 ==> hourly[h] <= r.slots) &&
            (r.slots > 0 ==> hourly[r.hour] == r.slots &&
                             forall h :: 0 <= h < r.hour ==> hourly[h] < r.slots) &&
            (r.slots == 0 ==> r.hour == 0)
    ensures r.timeRange == Pad2(r.hour) + ":00-" + Pad2(r.hour + 1) + ":00"
    ensures r.percentage == if r.slots > 0 then HourPercentage(r.slots) else 0
  {
    var hourly := CalculateHourlyStatistics(cells);
    var maxSlots: nat := 0;
    var maxHour: nat := 0;
    var hour := 0;
    while hour < 24
      invariant 0 <= hour <= 24 && maxHour < 24
      invariant forall h :: 0 <= h < hour ==> hourly[h] <= maxSlots
      invariant maxSlots > 0 ==> maxHour < hour && hourly[maxHour] == maxSlots &&
                                 forall h :: 0 <= h < maxHour ==> hourly[h] < maxSlots
      invariant maxSlots == 0 ==> maxHour == 0
    {
      if hourly[hour] > maxSlots {
        maxSlots := hourly[hour];
        maxHour := hour;
      }
      hour := hour + 1;
    }
    var percentage := if maxSlots > 0 then HourPercentage(maxSlots) else 0;
    r := ActiveHour(maxHour, maxSlots, Pad2(maxHour) + ":00-" + Pad2(maxHour + 1) + ":00", percentage);
  }

  // ---------------------------------------------------------------------
  // analyzeContinuousBlocks

  /** The block reported for one run of consecutive filled slots. */
  function BlockOf(group: seq<int>): ActivityBlock
    requires group != [] && forall k :: 0 <= k < |group| ==> group[k] >= 0
  {
    var first := group[0];
    var last := group[|group| - 1];
    ActivityBlock(first, last, |group|,
                  SlotUtils.IndexToTimeString(first) + "-" + SlotUtils.IndexToTimeString(last + 1),
                  SlotUtils.SlotsToTimeString(|group|))
  }

  /**
   * A block's `timeRange` runs from its first slot's start to the end of its
   * last slot, and its `durationText` is the duration text of its length.
   */
  predicate HasBlockTexts(b: ActivityBlock) {
    0 <= b.startIndex <= b.endIndex &&
    b.timeRange == SlotUtils.IndexToTimeString(b.startIndex) + "-" + SlotUtils.IndexToTimeString(b.endIndex + 1) &&
    b.durationText == SlotUtils.SlotsToTimeString(b.duration)
  }

  predicate NonEmptyNonNegative(groups: seq<seq<int>>) {
    forall k :: 0 <= k < |groups| ==>
      groups[k] != [] && forall j :: 0 <= j < |groups[k]| ==> groups[k][j] >= 0
  }

  /** `groups.map(...)` building the blocks. */
  function BlocksOf(groups: seq<seq<int>>): (blocks: seq<ActivityBlock>)
    requires NonEmptyNonNegative(groups)
    ensures |blocks| == |groups| && forall k :: 0 <= k < |groups| ==> blocks[k] == BlockOf(groups[k])
  {
    seq(|groups|, k requires 0 <= k < |groups| => BlockOf(groups[k]))
  }

  function TotalDuration(blocks: seq<ActivityBlock>): nat {
    if blocks == [] then 0 else blocks[0].duration + TotalDuration(blocks[1..])
  }

  /** A run climbs by one per position. */
  lemma {:induction false} RunValues(g: seq<int>, k: nat)
    requires SlotUtils.IsRun(g) && k < |g|
    ensures g[k] == g[0] + k
  {
    if k > 0 {
      RunValues(g, k - 1);
    }
  }

  /** The block of a run spans exactly the run's slots. */
  lemma RunBlock(g: seq<int>)
    requires g != [] && SlotUtils.IsRun(g) && forall j :: 0 <= j < |g| ==> g[j] >= 0
    ensures var b := BlockOf(g);
            b.startIndex <= b.endIndex && b.duration == b.endIndex - b.startIndex + 1 &&
            forall x :: b.startIndex <= x <= b.endIndex ==> x in g
  {
    RunValues(g, |g| - 1);
    forall x | g[0] <= x <= g[|g| - 1] ensures x in g {
      RunValues(g, x - g[0]);
    }
  }

  /** Every element of a group is an element of the grouped sequence. */
  lemma {:induction false} GroupMember(groups: seq<seq<int>>, s: seq<int>, k: nat, x: int)
    requires SlotUtils.IsGrouping(groups, s) && k < |groups| && x in groups[k]
    ensures x in s
    decreases k
  {
    SlotUtils.GroupingTail(groups, s);
    if k == 0 {
      var j :| 0 <= j < |groups[0]| && groups[0][j] == x;
      assert s[j] == x;
    } else {
      assert groups[1..][k - 1] == groups[k];
      GroupMember(groups[1..], s[|groups[0]|..], k - 1, x);
    }
  }

  /** The groups of a sequence of non-negative numbers are non-empty and non-negative. */
  lemma GroupsWithin(groups: seq<seq<int>>, s: seq<int>)
    requires SlotUtils.IsGrouping(groups, s) && forall i :: 0 <= i < |s| ==> s[i] >= 0
    ensures NonEmptyNonNegative(groups)
    ensures forall k, x :: 0 <= k < |groups| && x in groups[k] ==> x in s
  {
    forall k, x | 0 <= k < |groups| && x in groups[k] ensures x in s {
      GroupMember(groups, s, k, x);
    }
    forall k, j | 0 <= k < |groups| && 0 <= j < |groups[k]| ensures groups[k][j] >= 0 {
      assert groups[k][j] in groups[k];
      GroupMember(groups, s, k, groups[k][j]);
      var i :| 0 <= i < |s| && s[i] == groups[k][j];
    }
  }

  /** In the grouping of an increasing sequence each group ends below the next one's start. */
  lemma {:induction false} GroupsAscend(groups: seq<seq<int>>, s: seq<int>, k: nat)
    requires SlotUtils.IsGrouping(groups, s) && Increasing(s) && 0 < k < |groups|
    ensures groups[k - 1][|groups[k - 1]| - 1] < groups[k][0]
    decreases k
  {
    SlotUtils.GroupingTail(groups, s);
    var rest := s[|groups[0]|..];
    SlotUtils.GroupingTail(groups[1..], rest);
    if k == 1 {
      assert groups[1..][0] == groups[1];
      assert groups[1][0] == rest[0] == s[|groups[0]|];
      assert groups[0][|groups[0]| - 1] == s[|groups[0]| - 1];
    } else {
      assert groups[1..][k - 2] == groups[k - 1] && groups[1..][k - 1] == groups[k];
      GroupsAscend(groups[1..], rest, k - 1);
    }
  }

  lemma {:induction false} DurationsAddUp(groups: seq<seq<int>>)
    requires NonEmptyNonNegative(groups)
    ensures TotalDuration(BlocksOf(groups)) == |SlotUtils.Flatten(groups)|
  {
    if groups != [] {
      assert BlocksOf(groups)[1..] == BlocksOf(groups[1..]);
      DurationsAddUp(groups[1..]);
    }
  }

  /** The blocks of the grouping of an increasing sequence of slot indexes. */
  lemma BlocksOfGrouping(groups: seq<seq<int>>, s: seq<int>)
    requires SlotUtils.IsGrouping(groups, s) && Increasing(s)
    requires forall i :: 0 <= i < |s| ==> s[i] >= 0
    ensures NonEmptyNonNegative(groups)
    ensures var blocks := BlocksOf(groups);
            (forall k :: 0 <= k < |blocks| ==>
               blocks[k].startIndex <= blocks[k].endIndex &&
               blocks[k].duration == blocks[k].endIndex - blocks[k].startIndex + 1) &&
            (forall k, x :: 0 <= k < |blocks| && blocks[k].startIndex <= x <= blocks[k].endIndex ==>
               x in s) &&
            (forall k :: 0 < k < |blocks| ==> blocks[k - 1].endIndex + 1 < blocks[k].startIndex) &&
            TotalDuration(blocks) == |s|
  {
    GroupsWithin(groups, s);
    var blocks := BlocksOf(groups);
    forall k | 0 <= k < |blocks|
      ensures blocks[k].startIndex <= blocks[k].endIndex
      ensures blocks[k].duration == blocks[k].endIndex - blocks[k].startIndex + 1
      ensures forall x :: blocks[k].startIndex <= x <= blocks[k].endIndex ==> x in s
    {
      RunBlock(groups[k]);
    }
    forall k | 0 < k < |blocks| ensures blocks[k - 1].endIndex + 1 < blocks[k].startIndex {
      GroupsAscend(groups, s, k);
      assert !SlotUtils.Continues(groups[k - 1], groups[k]);
    }
    DurationsAddUp(groups);
  }

  /**
   * analyzeContinuousBlocks: one block per maximal run of filled cells, in
   * order; every slot of a block is filled, consecutive blocks are separated
   * by at least one empty slot, the durations add up to the filled count, and
   * each block carries its time range and duration texts.
   */
  method AnalyzeContinuousBlocks(cells: seq<Cell>) returns (blocks: seq<ActivityBlock>)
    ensures forall k :: 0 <= k < |blocks| ==>
              blocks[k].startIndex <= blocks[k].endIndex &&
              blocks[k].duration == blocks[k].endIndex - blocks[k].startIndex + 1
    ensures forall k, x :: 0 <= k < |blocks| && blocks[k].startIndex <= x <= blocks[k].endIndex ==>
              FilledAt(cells, x)
    ensures forall k :: 0 < k < |blocks| ==> blocks[k - 1].endIndex + 1 < blocks[k].startIndex
    ensures TotalDuration(blocks) == |FilledIndexes(cells)|
    ensures forall k :: 0 <= k < |blocks| ==> HasBlockTexts(blocks[k])
  {
    var groups := SlotUtils.GroupConsecutiveSlots(FilledIndexes(cells));
    FilledBlocks(cells, groups);
    BlockTexts(groups);
    blocks := BlocksOf(groups);
  }

  /** The blocks of a grouping of the filled indexes lie on filled cells. */
  lemma FilledBlocks(cells: seq<Cell>, groups: seq<seq<int>>)
    requires SlotUtils.IsGrouping(groups, SlotUtils.SortAsc(FilledIndexes(cells)))
    ensures NonEmptyNonNegative(groups)
    ensures var blocks := BlocksOf(groups);
            (forall k :: 0 <= k < |blocks| ==>
               blocks[k].startIndex <= blocks[k].endIndex &&
               blocks[k].duration == blocks[k].endIndex - blocks[k].startIndex + 1) &&
            (forall k, x :: 0 <= k < |blocks| && blocks[k].startIndex <= x <= blocks[k].endIndex ==>
               FilledAt(cells, x)) &&
            (forall k :: 0 < k < |blocks| ==> blocks[k - 1].endIndex + 1 < blocks[k].startIndex) &&
            TotalDuration(blocks) == |FilledIndexes(cells)|
  {
    var filled := FilledIndexes(cells);
    FilledIndexesSorted(cells);
    SlotUtils.SortedIsIdentity(filled);
    assert SlotUtils.IsGrouping(groups, filled);
    BlocksOfGrouping(groups, filled);
    var blocks := BlocksOf(groups);
    forall k, x | 0 <= k < |blocks| && blocks[k].startIndex <= x <= blocks[k].endIndex
      ensures FilledAt(cells, x)
    {
      assert x in filled;
    }
  }

  /** Each block of a grouping into runs carries its time range and duration texts. */
  lemma BlockTexts(groups: seq<seq<int>>)
    requires NonEmptyNonNegative(groups) && SlotUtils.RunsWellFormed(groups)
    ensures var blocks := BlocksOf(groups);
            forall k :: 0 <= k < |blocks| ==> HasBlockTexts(blocks[k])
  {
    var blocks := BlocksOf(groups);
    forall k | 0 <= k < |blocks| ensures HasBlockTexts(blocks[k]) {
      assert blocks[k] == BlockOf(groups[k]);
      RunBlock(groups[k]);
    }
  }
}
