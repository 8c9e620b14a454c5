// The server-side statistics of the diary: which blocks count and under which
// tag, the per-tag and per-hour tallies of one day, the filling of unrecorded
// time with the unclassified tag, the peak hour, the weekly per-day tallies
// that leave sleep and unclassified time out of the active totals, and the
// ranking of the monthly and tag-analysis lists.
//
// The ORM queries are replaced by the sequences of blocks they return; the
// Python dictionaries, which keep insertion order, are association lists
// whose entries are updated in place or appended at the end.
module StatsLogic {
  import opened Wrappers
  import TagModel
  import TimeBlockModel
  import CoreUtils

  type TimeBlock = TimeBlockModel.TimeBlock

  const U: string := CoreUtils.UnclassifiedTagName
  const MinutesPerSlot: nat := CoreUtils.MinutesPerSlot

  // ---------------------------------------------------------------------
  // Which blocks count

  /** The name and colour a block is counted under. */
  datatype TagInfo = TagInfo(name: string, color: string)

  /**
   * get_tag_info: a block counts only when it has a tag with a non-empty
   * name; an empty colour falls back to grey.
   */
  function GetTagInfo(b: TimeBlock): (r: Option<TagInfo>)
    ensures r.Some? <==> b.tag.Some? && b.tag.value.name != ""
    ensures r.Some? ==> r.value.name == b.tag.value.name && r.value.color != ""
    ensures r.Some? && b.tag.value.color != "" ==> r.value.color == b.tag.value.color
    ensures r.Some? && b.tag.value.color == "" ==> r.value.color == CoreUtils.UnclassifiedTagColor
  {
    if b.tag.Some? && b.tag.value.name != "" then
      Some(TagInfo(b.tag.value.name,
                   if b.tag.value.color != "" then b.tag.value.color else CoreUtils.UnclassifiedTagColor))
    else None
  }

  /** The block is counted under the tag name `n`. */
  predicate Named(b: TimeBlock, n: string) {
    GetTagInfo(b).Some? && GetTagInfo(b).value.name == n
  }

  /** The block is counted, under a name outside `excluded`. */
  predicate Active(b: TimeBlock, excluded: set<string>) {
    GetTagInfo(b).Some? && GetTagInfo(b).value.name !in excluded
  }

  /** `slot_index // SLOTS_PER_HOUR`. */
  function HourOf(b: TimeBlock): int { b.slotIndex / CoreUtils.SlotsPerHour }

  /** How many blocks are counted under `n`. */
  function CountTag(blocks: seq<TimeBlock>, n: string): nat {
    if blocks == [] then 0
    else CountTag(Front(blocks), n) + (if Named(Last(blocks), n) then 1 else 0)
  }

  /** How many blocks are counted under `n` in hour `h`. */
  function CountHourTag(blocks: seq<TimeBlock>, h: int, n: string): nat {
    if blocks == [] then 0
    else CountHourTag(Front(blocks), h, n) + (if Named(Last(blocks), n) && HourOf(Last(blocks)) == h then 1 else 0)
  }

  /**
   * The colour of the first block counted under `n`: the colour the tag's
   * entry is created with, which later blocks of the tag do not change.
   */
  function FirstColor(blocks: seq<TimeBlock>, n: string): (r: Option<string>)
    ensures r.Some? <==> CountTag(blocks, n) > 0
  {
    if blocks == [] then None
    else if FirstColor(Front(blocks), n).Some? then FirstColor(Front(blocks), n)
    else if Named(Last(blocks), n) then Some(GetTagInfo(Last(blocks)).value.color)
    else None
  }

  /** How many counted blocks lie in hour `h`. */
  function CountHour(blocks: seq<TimeBlock>, h: int): nat {
    if blocks == [] then 0
    else CountHour(Front(blocks), h) + (if Active(Last(blocks), {}) && HourOf(Last(blocks)) == h then 1 else 0)
  }

  /** How many blocks are counted under a name outside `excluded`. */
  function CountActive(blocks: seq<TimeBlock>, excluded: set<string>): nat {
    if blocks == [] then 0
    else CountActive(Front(blocks), excluded) + (if Active(Last(blocks), excluded) then 1 else 0)
  }

  /** process_blocks_without_tag skips exactly the blocks without a named tag. */
  lemma {:induction false} CountedBlocksAtMostAll(blocks: seq<TimeBlock>, excluded: set<string>)
    ensures CountActive(blocks, excluded) <= CountActive(blocks, {}) <= |blocks|
    ensures CountActive(blocks, {}) == |blocks| <==> forall k :: 0 <= k < |blocks| ==> GetTagInfo(blocks[k]).Some?
  {
    if blocks != [] {
      CountedBlocksAtMostAll(Front(blocks), excluded);
      if CountActive(blocks, {}) == |blocks| {
        forall k | 0 <= k < |blocks| ensures GetTagInfo(blocks[k]).Some? {
          if k < |blocks| - 1 { assert blocks[k] == Front(blocks)[k]; }
        }
      }
      if forall k :: 0 <= k < |blocks| ==> GetTagInfo(blocks[k]).Some? {
        forall k | 0 <= k < |Front(blocks)| ensures GetTagInfo(Front(blocks)[k]).Some? {
          assert Front(blocks)[k] == blocks[k];
        }
      }
    }
  }

  // ---------------------------------------------------------------------
  // The per-tag dictionaries: name -> {name, color, minutes, blocks}

  datatype TagStat = TagStat(name: string, color: string, minutes: nat, blocks: nat)

  /** `n in d`. */
  predicate HasName(s: seq<TagStat>, n: string) {
    s != [] && (s[0].name == n || HasName(s[1..], n))
  }

  /** Dictionary keys are unique. */
  predicate UniqueNames(s: seq<TagStat>) {
    s == [] || (!HasName(s[1..], s[0].name) && UniqueNames(s[1..]))
  }

  /**
   * `if name not in d: d[name] = {name, color, 0, 0}` followed by adding
   * `m` minutes and `k` blocks: the entry is updated in place, or appended.
   * Every existing entry keeps its place, name and colour; a new one comes
   * last, with the credited colour and tallies.
   */
  function Credit(s: seq<TagStat>, info: TagInfo, m: nat, k: nat): (r: seq<TagStat>)
    ensures |r| == |s| + (if HasName(s, info.name) then 0 else 1)
    ensures forall j :: 0 <= j < |s| ==> r[j].name == s[j].name && r[j].color == s[j].color
    ensures !HasName(s, info.name) ==> r[|s|] == TagStat(info.name, info.color, m, k)
  {
    if s == [] then [TagStat(info.name, info.color, m, k)]
    else if s[0].name == info.name then [s[0].(minutes := s[0].minutes + m, blocks := s[0].blocks + k)] + s[1..]
    else [s[0]] + Credit(s[1..], info, m, k)
  }

  /** The minutes recorded under `n` (0 when absent). */
  function MinutesOf(s: seq<TagStat>, n: string): nat {
    if s == [] then 0 else (if s[0].name == n then s[0].minutes else 0) + MinutesOf(s[1..], n)
  }

  /** The blocks recorded under `n` (0 when absent). */
  function BlocksOf(s: seq<TagStat>, n: string): nat {
    if s == [] then 0 else (if s[0].name == n then s[0].blocks else 0) + BlocksOf(s[1..], n)
  }

  /** Crediting adds to the credited name and to no other. */
  lemma {:induction false} CreditEffect(s: seq<TagStat>, info: TagInfo, m: nat, k: nat, n: string)
    ensures MinutesOf(Credit(s, info, m, k), n) == MinutesOf(s, n) + (if n == info.name then m else 0)
    ensures BlocksOf(Credit(s, info, m, k), n) == BlocksOf(s, n) + (if n == info.name then k else 0)
  {
    if s != [] && s[0].name != info.name {
      CreditEffect(s[1..], info, m, k, n);
      assert Credit(s, info, m, k)[1..] == Credit(s[1..], info, m, k);
    } else if s != [] {
      assert Credit(s, info, m, k)[1..] == s[1..];
    }
  }

  /** Crediting adds the credited name as a key and keeps the keys unique. */
  lemma {:induction false} CreditKeys(s: seq<TagStat>, info: TagInfo, m: nat, k: nat, n: string)
    ensures HasName(Credit(s, info, m, k), n) <==> HasName(s, n) || n == info.name
    ensures UniqueNames(s) ==> UniqueNames(Credit(s, info, m, k))
  {
    var r := Credit(s, info, m, k);
    if s == [] {
    } else if s[0].name == info.name {
      assert r[1..] == s[1..];
    } else {
      assert r[1..] == Credit(s[1..], info, m, k);
      CreditKeys(s[1..], info, m, k, n);
      CreditKeys(s[1..], info, m, k, s[0].name);
    }
  }

  /** With unique keys, the tally of a name is the one entry that holds it. */
  lemma {:induction false} EntryHoldsTally(s: seq<TagStat>, i: nat)
    requires UniqueNames(s) && i < |s|
    ensures MinutesOf(s, s[i].name) == s[i].minutes && BlocksOf(s, s[i].name) == s[i].blocks
  {
    if i == 0 {
      AbsentNameTalliesZero(s[1..], s[0].name);
    } else {
      assert s[1..][i - 1] == s[i];
      NameAtIndex(s[1..], i - 1);
      EntryHoldsTally(s[1..], i - 1);
    }
  }

  lemma {:induction false} NameAtIndex(s: seq<TagStat>, i: nat)
    requires i < |s|
    ensures HasName(s, s[i].name)
  {
    if i > 0 {
      assert s[1..][i - 1] == s[i];
      NameAtIndex(s[1..], i - 1);
    }
  }

  lemma {:induction false} ColorAtIndex(s: seq<TagStat>, i: nat)
    requires UniqueNames(s) && i < |s|
    ensures ColorOf(s, s[i].name) == Some(s[i].color)
  {
    if i > 0 {
      assert s[1..][i - 1] == s[i];
      NameAtIndex(s[1..], i - 1);
      ColorAtIndex(s[1..], i - 1);
    }
  }

  lemma {:induction false} AbsentNameTalliesZero(s: seq<TagStat>, n: string)
    requires !HasName(s, n)
    ensures MinutesOf(s, n) == 0 && BlocksOf(s, n) == 0
  {
    if s != [] {
      AbsentNameTalliesZero(s[1..], n);
    }
  }

  /** `d[n]['color']`, when `n in d`. */
  function ColorOf(s: seq<TagStat>, n: string): (r: Option<string>)
    ensures r.Some? <==> HasName(s, n)
  {
    if s == [] then None else if s[0].name == n then Some(s[0].color) else ColorOf(s[1..], n)
  }

  /** Crediting gives a new key the credited colour and keeps the colour of every existing key. */
  lemma {:induction false} CreditColor(s: seq<TagStat>, info: TagInfo, m: nat, k: nat, n: string)
    ensures ColorOf(Credit(s, info, m, k), n) ==
            if n == info.name && !HasName(s, n) then Some(info.color) else ColorOf(s, n)
  {
    var r := Credit(s, info, m, k);
    if s != [] && s[0].name != info.name {
      assert r[1..] == Credit(s[1..], info, m, k);
      CreditColor(s[1..], info, m, k, n);
    } else if s != [] {
      assert r[1..] == s[1..];
    }
  }

  // ---------------------------------------------------------------------
  // The minute dictionaries: name -> minutes (one per hour of the day, and
  // the per-day tag minutes of the week)

  type MinuteMap = seq<(string, nat)>

  /** `n in d`. */
  predicate HasKey(m: MinuteMap, n: string) {
    m != [] && (m[0].0 == n || HasKey(m[1..], n))
  }

  /** `d[n] = d.get(n, 0) + x`. */
  function AddMinutes(m: MinuteMap, n: string, x: nat): MinuteMap {
    if m == [] then [(n, x)]
    else if m[0].0 == n then [(n, m[0].1 + x)] + m[1..]
    else [m[0]] + AddMinutes(m[1..], n, x)
  }

  /** `d.get(n, 0)`. */
  function Get(m: MinuteMap, n: string): nat {
    if m == [] then 0 else (if m[0].0 == n then m[0].1 else 0) + Get(m[1..], n)
  }

  /** `sum(d.values())`. */
  function Total(m: MinuteMap): nat {
    if m == [] then 0 else m[0].1 + Total(m[1..])
  }

  /** Adding to one name adds to that name only, and makes it a key. */
  lemma {:induction false} AddMinutesEffect(m: MinuteMap, n: string, x: nat, k: string)
    ensures Get(AddMinutes(m, n, x), k) == Get(m, k) + (if k == n then x else 0)
    ensures HasKey(AddMinutes(m, n, x), k) <==> HasKey(m, k) || k == n
  {
    var r := AddMinutes(m, n, x);
    if m != [] && m[0].0 == n {
      assert r[1..] == m[1..];
    } else if m != [] {
      assert r[1..] == AddMinutes(m[1..], n, x);
      AddMinutesEffect(m[1..], n, x, k);
    }
  }

  /** Adding to one name adds to the total. */
  lemma {:induction false} AddMinutesTotal(m: MinuteMap, n: string, x: nat)
    ensures Total(AddMinutes(m, n, x)) == Total(m) + x
  {
    var r := AddMinutes(m, n, x);
    if m != [] && m[0].0 == n {
      assert r[1..] == m[1..];
    } else if m != [] {
      assert r[1..] == AddMinutes(m[1..], n, x);
      AddMinutesTotal(m[1..], n, x);
    }
  }

  // ---------------------------------------------------------------------
  // The daily statistics

  /** The twenty-four empty hour dictionaries. */
  function EmptyHours(): (r: seq<MinuteMap>)
    ensures |r| == CoreUtils.HoursPerDay && forall h :: 0 <= h < |r| ==> r[h] == []
  {
    seq(CoreUtils.HoursPerDay, _ => [])
  }

  /** What the tag dictionary holds once `blocks` have been tallied. */
  ghost predicate TagTally(blocks: seq<TimeBlock>, ts: seq<TagStat>) {
    UniqueNames(ts) &&
    (forall n :: HasName(ts, n) <==> CountTag(blocks, n) > 0) &&
    (forall n :: ColorOf(ts, n) == FirstColor(blocks, n)) &&
    (forall n :: MinutesOf(ts, n) == MinutesPerSlot * CountTag(blocks, n)) &&
    (forall n :: BlocksOf(ts, n) == CountTag(blocks, n))
  }

  /** What the hour dictionaries hold once `blocks` have been tallied. */
  ghost predicate HourTally(blocks: seq<TimeBlock>, hs: seq<MinuteMap>) {
    |hs| == CoreUtils.HoursPerDay &&
    (forall h, n :: 0 <= h < |hs| ==> Get(hs[h], n) == MinutesPerSlot * CountHourTag(blocks, h, n)) &&
    (forall h :: 0 <= h < |hs| ==> Total(hs[h]) == MinutesPerSlot * CountHour(blocks, h))
  }

  lemma TagTallyStep(blocks: seq<TimeBlock>, i: nat, ts: seq<TagStat>, info: TagInfo)
    requires i < |blocks| && GetTagInfo(blocks[i]) == Some(info) && TagTally(blocks[..i], ts)
    ensures TagTally(blocks[..i + 1], Credit(ts, info, MinutesPerSlot, 1))
  {
    PrefixStep(blocks, i);
    forall n ensures HasName(Credit(ts, info, MinutesPerSlot, 1), n) <==> HasName(ts, n) || n == info.name {
      CreditKeys(ts, info, MinutesPerSlot, 1, n);
    }
    CreditKeys(ts, info, MinutesPerSlot, 1, "");
    forall n ensures ColorOf(Credit(ts, info, MinutesPerSlot, 1), n) ==
                     if n == info.name && !HasName(ts, n) then Some(info.color) else ColorOf(ts, n) {
      CreditColor(ts, info, MinutesPerSlot, 1, n);
    }
    forall n ensures MinutesOf(Credit(ts, info, MinutesPerSlot, 1), n) == MinutesOf(ts, n) + (if n == info.name then MinutesPerSlot else 0)
                && BlocksOf(Credit(ts, info, MinutesPerSlot, 1), n) == BlocksOf(ts, n) + (if n == info.name then 1 else 0) {
      CreditEffect(ts, info, MinutesPerSlot, 1, n);
    }
  }

  lemma HourTallyStep(blocks: seq<TimeBlock>, i: nat, hs: seq<MinuteMap>, info: TagInfo)
    requires i < |blocks| && GetTagInfo(blocks[i]) == Some(info) && HourTally(blocks[..i], hs)
    requires TimeBlockModel.SlotIndexValid(blocks[i].slotIndex)
    ensures var h := HourOf(blocks[i]);
            0 <= h < |hs| && HourTally(blocks[..i + 1], hs[h := AddMinutes(hs[h], info.name, MinutesPerSlot)])
  {
    PrefixStep(blocks, i);
    var h := HourOf(blocks[i]);
    forall n ensures Get(AddMinutes(hs[h], info.name, MinutesPerSlot), n) == Get(hs[h], n) + (if n == info.name then MinutesPerSlot else 0) {
      AddMinutesEffect(hs[h], info.name, MinutesPerSlot, n);
    }
    AddMinutesTotal(hs[h], info.name, MinutesPerSlot);
  }

  lemma SkipStep(blocks: seq<TimeBlock>, i: nat, ts: seq<TagStat>, hs: seq<MinuteMap>, excluded: set<string>)
    requires i < |blocks| && GetTagInfo(blocks[i]).None?
    ensures TagTally(blocks[..i], ts) ==> TagTally(blocks[..i + 1], ts)
    ensures HourTally(blocks[..i], hs) ==> HourTally(blocks[..i + 1], hs)
    ensures CountActive(blocks[..i + 1], excluded) == CountActive(blocks[..i], excluded)
  {
    PrefixStep(blocks, i);
  }

  lemma ActiveStep(blocks: seq<TimeBlock>, i: nat, info: TagInfo, excluded: set<string>)
    requires i < |blocks| && GetTagInfo(blocks[i]) == Some(info)
    ensures CountActive(blocks[..i + 1], excluded) ==
            CountActive(blocks[..i], excluded) + (if info.name !in excluded then 1 else 0)
  {
    PrefixStep(blocks, i);
  }

  /**
   * The loop of get_daily_stats_data over the day's blocks: every counted
   * block adds ten minutes and one block to its tag and ten minutes to its
   * hour; blocks under any name but the unclassified one are active.
   */
  method DailyTally(blocks: seq<TimeBlock>) returns (tagStats: seq<TagStat>, hourly: seq<MinuteMap>, active: nat)
    requires forall k :: 0 <= k < |blocks| ==> TimeBlockModel.SlotIndexValid(blocks[k].slotIndex)
    ensures TagTally(blocks, tagStats) && HourTally(blocks, hourly)
    ensures active == CountActive(blocks, {U})
  {
    tagStats, hourly, active := [], EmptyHours(), 0;
    var i := 0;
    while i < |blocks|
      invariant 0 <= i <= |blocks|
      invariant TagTally(blocks[..i], tagStats) && HourTally(blocks[..i], hourly)
      invariant active == CountActive(blocks[..i], {U})
    {
      var b := blocks[i];
      match GetTagInfo(b) {
      case None =>
        SkipStep(blocks, i, tagStats, hourly, {U});
      case Some(info) =>
        TagTallyStep(blocks, i, tagStats, info);
        HourTallyStep(blocks, i, hourly, info);
        ActiveStep(blocks, i, info, {U});
        tagStats := Credit(tagStats, info, MinutesPerSlot, 1);
        if info.name != U {
          active := active + 1;
        }
        var h := b.slotIndex / CoreUtils.SlotsPerHour;
        hourly := hourly[h := AddMinutes(hourly[h], info.name, MinutesPerSlot)];
      }
      i := i + 1;
    }
    assert blocks[..|blocks|] == blocks;
  }

  // ---------------------------------------------------------------------
  // Filling the unrecorded time of the day

  /** The minutes an hour lacks to reach sixty (`60 - sum(...)` when positive). */
  function Gap(total: nat): nat { if total < 60 then 60 - total else 0 }

  /** The gaps of the first `k` hours. */
  function GapSum(hourly: seq<MinuteMap>, k: nat): nat
    requires k <= |hourly|
  {
    if k == 0 then 0 else GapSum(hourly, k - 1) + Gap(Total(hourly[k - 1]))
  }

  /** The unclassified blocks the gaps of the first `k` hours add (`gap // 10` each). */
  function GapBlocks(hourly: seq<MinuteMap>, k: nat): nat
    requires k <= |hourly|
  {
    if k == 0 then 0 else GapBlocks(hourly, k - 1) + Gap(Total(hourly[k - 1])) / MinutesPerSlot
  }

  /**
   * add_unclassified_data for the dictionaries of minutes and blocks (the
   * 'daily' and 'analysis' kinds): positive minutes, with their whole slots,
   * go to the unclassified tag, created grey when absent.
   */
  function AddUnclassified(stats: seq<TagStat>, minutes: int): (r: seq<TagStat>)
    ensures minutes <= 0 ==> r == stats
    ensures minutes > 0 ==> HasName(r, U) &&
                            MinutesOf(r, U) == MinutesOf(stats, U) + minutes &&
                            BlocksOf(r, U) == BlocksOf(stats, U) + minutes / MinutesPerSlot
    ensures UniqueNames(stats) ==> UniqueNames(r)
  {
    if minutes <= 0 then stats
    else
      var info := TagInfo(U, CoreUtils.UnclassifiedTagColor);
      CreditEffect(stats, info, minutes, minutes / MinutesPerSlot, U);
      CreditKeys(stats, info, minutes, minutes / MinutesPerSlot, U);
      Credit(stats, info, minutes, minutes / MinutesPerSlot)
  }

  /** No-op for non-positive minutes; otherwise `m` minutes and `m div 10` blocks, to the unclassified tag only. */
  lemma AddUnclassifiedEffect(stats: seq<TagStat>, minutes: int, n: string)
    ensures minutes <= 0 ==> AddUnclassified(stats, minutes) == stats
    ensures MinutesOf(AddUnclassified(stats, minutes), n) ==
            MinutesOf(stats, n) + (if n == U && minutes > 0 then minutes else 0)
    ensures BlocksOf(AddUnclassified(stats, minutes), n) ==
            BlocksOf(stats, n) + (if n == U && minutes > 0 then minutes / MinutesPerSlot else 0)
    ensures HasName(AddUnclassified(stats, minutes), n) <==> HasName(stats, n) || (n == U && minutes > 0)
    ensures UniqueNames(stats) ==> UniqueNames(AddUnclassified(stats, minutes))
    ensures ColorOf(AddUnclassified(stats, minutes), n) ==
            if n == U && minutes > 0 && !HasName(stats, U) then Some(CoreUtils.UnclassifiedTagColor) else ColorOf(stats, n)
  {
    if minutes > 0 {
      CreditEffect(stats, TagInfo(U, CoreUtils.UnclassifiedTagColor), minutes, minutes / MinutesPerSlot, n);
      CreditKeys(stats, TagInfo(U, CoreUtils.UnclassifiedTagColor), minutes, minutes / MinutesPerSlot, n);
      CreditColor(stats, TagInfo(U, CoreUtils.UnclassifiedTagColor), minutes, minutes / MinutesPerSlot, n);
    }
  }

  /** add_unclassified_to_hourly_stats. */
  function AddUnclassifiedToHour(m: MinuteMap, minutes: int): (r: MinuteMap)
    ensures Total(r) == Total(m) + (if minutes > 0 then minutes else 0)
    ensures Get(r, U) == Get(m, U) + (if minutes > 0 then minutes else 0)
    ensures HasKey(r, U) <==> HasKey(m, U) || minutes > 0
  {
    if minutes > 0 then
      AddMinutesTotal(m, U, minutes);
      AddMinutesEffect(m, U, minutes, U);
      AddMinutes(m, U, minutes)
    else m
  }

  /** The state of fill_empty_slots_daily once the first `i` hours are done. */
  ghost predicate FilledHours(hourly: seq<MinuteMap>, hs: seq<MinuteMap>, i: nat) {
    |hs| == |hourly| && i <= |hourly| &&
    (forall h :: i <= h < |hs| ==> hs[h] == hourly[h]) &&
    (forall h :: 0 <= h < i ==> Total(hs[h]) == Total(hourly[h]) + Gap(Total(hourly[h]))) &&
    (forall h, n :: 0 <= h < i ==> Get(hs[h], n) == Get(hourly[h], n) + (if n == U then Gap(Total(hourly[h])) else 0))
  }

  /** The state of the tag dictionary in fill_empty_slots_daily once the first `i` hours are done. */
  ghost predicate FilledTags(hourly: seq<MinuteMap>, tagStats: seq<TagStat>, ts: seq<TagStat>, i: nat)
    requires i <= |hourly|
  {
    (UniqueNames(tagStats) ==> UniqueNames(ts)) &&
    (forall n :: HasName(ts, n) <==> HasName(tagStats, n) || (n == U && GapSum(hourly, i) > 0)) &&
    (forall n :: ColorOf(ts, n) == if n == U && !HasName(tagStats, U) && GapSum(hourly, i) > 0
                                   then Some(CoreUtils.UnclassifiedTagColor) else ColorOf(tagStats, n)) &&
    (forall n :: MinutesOf(ts, n) == MinutesOf(tagStats, n) + (if n == U then GapSum(hourly, i) else 0)) &&
    (forall n :: BlocksOf(ts, n) == BlocksOf(tagStats, n) + (if n == U then GapBlocks(hourly, i) else 0))
  }

  /** The hour dictionaries once fill_empty_slots_daily has done the first `i` hours. */
  function HoursFilledTo(hourly: seq<MinuteMap>, i: nat): (hs: seq<MinuteMap>)
    requires i <= |hourly|
    ensures |hs| == |hourly| && forall h :: i <= h < |hourly| ==> hs[h] == hourly[h]
  {
    if i == 0 then hourly
    else
      var hs := HoursFilledTo(hourly, i - 1);
      var empty := 60 - Total(hourly[i - 1]);
      if empty > 0 then hs[i - 1 := AddUnclassifiedToHour(hourly[i - 1], empty)] else hs
  }

  /** The tag dictionary once fill_empty_slots_daily has done the first `i` hours. */
  function TagsFilledTo(hourly: seq<MinuteMap>, tagStats: seq<TagStat>, i: nat): seq<TagStat>
    requires i <= |hourly|
  {
    if i == 0 then tagStats
    else
      var ts := TagsFilledTo(hourly, tagStats, i - 1);
      var empty := 60 - Total(hourly[i - 1]);
      if empty > 0 then AddUnclassified(ts, empty) else ts
  }

  /** Every hour done has its shortfall under the unclassified tag; the others are as they were. */
  lemma {:induction false} HoursFilledToHolds(hourly: seq<MinuteMap>, i: nat)
    requires i <= |hourly|
    ensures FilledHours(hourly, HoursFilledTo(hourly, i), i)
  {
    if i > 0 {
      HoursFilledToHolds(hourly, i - 1);
      HourFilledStep(hourly, i);
    }
  }

  /** The hour `i - 1`: topped up to sixty when short, left alone otherwise. */
  lemma HourFilledStep(hourly: seq<MinuteMap>, i: nat)
    requires 0 < i <= |hourly| && FilledHours(hourly, HoursFilledTo(hourly, i - 1), i - 1)
    ensures FilledHours(hourly, HoursFilledTo(hourly, i), i)
  {
    var prev := HoursFilledTo(hourly, i - 1);
    var hs := HoursFilledTo(hourly, i);
    var m := hourly[i - 1];
    var empty := 60 - Total(m);
    if empty > 0 {
      var m' := AddUnclassifiedToHour(m, empty);
      assert hs == prev[i - 1 := m'];
      AddMinutesTotal(m, U, empty);
      forall n ensures Get(m', n) == Get(m, n) + (if n == U then Gap(Total(m)) else 0) {
        AddMinutesEffect(m, U, empty, n);
      }
      forall h, n | 0 <= h < i
        ensures Get(hs[h], n) == Get(hourly[h], n) + (if n == U then Gap(Total(hourly[h])) else 0)
      {
        if h < i - 1 {
          assert hs[h] == prev[h];
        }
      }
    } else {
      assert hs == prev && prev[i - 1] == m && Gap(Total(m)) == 0;
    }
  }

  /** The tag dictionary holds the shortfalls of the hours done under the unclassified tag. */
  lemma {:induction false} TagsFilledToHolds(hourly: seq<MinuteMap>, tagStats: seq<TagStat>, i: nat)
    requires i <= |hourly|
    ensures FilledTags(hourly, tagStats, TagsFilledTo(hourly, tagStats, i), i)
  {
    if i == 0 {
      assert GapSum(hourly, 0) == 0 && GapBlocks(hourly, 0) == 0;
    } else {
      TagsFilledToHolds(hourly, tagStats, i - 1);
      TagFilledStep(hourly, tagStats, i);
    }
  }

  /** The hour `i - 1`'s shortfall, when there is one, goes to the unclassified tag. */
  lemma TagFilledStep(hourly: seq<MinuteMap>, tagStats: seq<TagStat>, i: nat)
    requires 0 < i <= |hourly| && FilledTags(hourly, tagStats, TagsFilledTo(hourly, tagStats, i - 1), i - 1)
    ensures FilledTags(hourly, tagStats, TagsFilledTo(hourly, tagStats, i), i)
  {
    var ts := TagsFilledTo(hourly, tagStats, i - 1);
    var empty := 60 - Total(hourly[i - 1]);
    var ts' := AddUnclassified(ts, empty);
    AddUnclassifiedEffect(ts, empty, U);
    assert TagsFilledTo(hourly, tagStats, i) == ts';
    var g := Gap(Total(hourly[i - 1]));
    assert GapSum(hourly, i) == GapSum(hourly, i - 1) + g;
    assert GapBlocks(hourly, i) == GapBlocks(hourly, i - 1) + g / MinutesPerSlot;
    assert g == (if empty > 0 then empty else 0);
    forall n ensures
      MinutesOf(ts', n) == MinutesOf(ts, n) + (if n == U && empty > 0 then empty else 0) &&
      BlocksOf(ts', n) == BlocksOf(ts, n) + (if n == U && empty > 0 then empty / MinutesPerSlot else 0) &&
      (HasName(ts', n) <==> HasName(ts, n) || (n == U && empty > 0)) &&
      ColorOf(ts', n) == (if n == U && empty > 0 && !HasName(ts, U) then Some(CoreUtils.UnclassifiedTagColor) else ColorOf(ts, n))
    {
      AddUnclassifiedEffect(ts, empty, n);
    }
  }

  /**
   * fill_empty_slots_daily: every hour short of sixty minutes is topped up
   * with unclassified minutes, in the hour's dictionary and in the tag
   * dictionary.
   */
  method FillEmptySlotsDaily(tagStats: seq<TagStat>, hourly: seq<MinuteMap>)
      returns (ts: seq<TagStat>, hs: seq<MinuteMap>)
    requires |hourly| == CoreUtils.HoursPerDay
    ensures FilledHours(hourly, hs, |hourly|) && FilledTags(hourly, tagStats, ts, |hourly|)
  {
    ts, hs := tagStats, hourly;
    var hour := 0;
    while hour < CoreUtils.HoursPerDay
      invariant 0 <= hour <= CoreUtils.HoursPerDay
      invariant hs == HoursFilledTo(hourly, hour) && ts == TagsFilledTo(hourly, tagStats, hour)
    {
      var totalMinutesInHour: int := Total(hs[hour]);
      var emptyMinutes: int := 60 - totalMinutesInHour;
      if emptyMinutes > 0 {
        ts := AddUnclassified(ts, emptyMinutes);
        hs := hs[hour := AddUnclassifiedToHour(hs[hour], emptyMinutes)];
      }
      hour := hour + 1;
    }
    assert hour == |hourly|;
    HoursFilledToHolds(hourly, hour);
    TagsFilledToHolds(hourly, tagStats, hour);
  }

  // ---------------------------------------------------------------------
  // The peak hour

  /**
   * The loop over `enumerate(hourly_stats)` from -1: the earliest hour with
   * the greatest total, and that total; -1 and -1 for no hours.
   */
  method PeakHour(hourly: seq<MinuteMap>) returns (peakHour: int, maxMinutes: int)
    ensures hourly == [] ==> peakHour == -1 && maxMinutes == -1
    ensures hourly != [] ==> 0 <= peakHour < |hourly| && maxMinutes == Total(hourly[peakHour])
    ensures forall h :: 0 <= h < |hourly| ==> Total(hourly[h]) <= maxMinutes
    ensures forall h :: 0 <= h < peakHour ==> Total(hourly[h]) < maxMinutes
  {
    peakHour, maxMinutes := -1, -1;
    var hour := 0;
    while hour < |hourly|
      invariant 0 <= hour <= |hourly|
      invariant hour == 0 ==> peakHour == -1 && maxMinutes == -1
      invariant hour > 0 ==> 0 <= peakHour < hour && maxMinutes == Total(hourly[peakHour])
      invariant forall h :: 0 <= h < hour ==> Total(hourly[h]) <= maxMinutes
      invariant forall h :: 0 <= h < peakHour ==> Total(hourly[h]) < maxMinutes
    {
      var totalMinutes := Total(hourly[hour]);
      if totalMinutes > maxMinutes {
        maxMinutes := totalMinutes;
        peakHour := hour;
      }
      hour := hour + 1;
    }
  }

  // ---------------------------------------------------------------------
  // Ranking: `sorted(..., key=..., reverse=True)` and the unclassified filter

  predicate SortedDesc<T>(s: seq<T>, key: T -> int) {
    forall i, j :: 0 <= i < j < |s| ==> key(s[i]) >= key(s[j])
  }

  /** Inserts `x` ahead of the first element whose key does not exceed its own. */
  function InsertDesc<T>(x: T, s: seq<T>, key: T -> int): (r: seq<T>)
    ensures |r| == |s| + 1 && multiset(r) == multiset(s) + multiset{x}
  {
    if s == [] || key(s[0]) <= key(x) then [x] + s
    else
      assert s == [s[0]] + s[1..];
      [s[0]] + InsertDesc(x, s[1..], key)
  }

  lemma {:induction false} InsertSorted<T>(x: T, s: seq<T>, key: T -> int)
    requires SortedDesc(s, key)
    ensures SortedDesc(InsertDesc(x, s, key), key)
  {
    if s != [] && key(s[0]) > key(x) {
      var t := InsertDesc(x, s[1..], key);
      assert SortedDesc(s[1..], key);
      InsertSorted(x, s[1..], key);
      forall i | 0 <= i < |t| ensures key(s[0]) >= key(t[i]) {
        assert t[i] in multiset(t);
        if t[i] != x {
          assert t[i] in multiset(s[1..]);
          assert t[i] in s[1..];
        }
      }
      ConsSorted(s[0], t, key);
    }
  }

  /** A head whose key bounds every key of a sorted tail keeps the list sorted. */
  lemma ConsSorted<T>(h: T, t: seq<T>, key: T -> int)
    requires SortedDesc(t, key) && forall i :: 0 <= i < |t| ==> key(h) >= key(t[i])
    ensures SortedDesc([h] + t, key)
  {
    forall i, j | 0 <= i < j < |t| + 1 ensures key(([h] + t)[i]) >= key(([h] + t)[j]) {
      assert ([h] + t)[j] == t[j - 1];
      if i > 0 {
        assert ([h] + t)[i] == t[i - 1];
      }
    }
  }

  /** A stable sort by descending key (an insertion sort). */
  function SortDesc<T>(s: seq<T>, key: T -> int): (r: seq<T>)
    ensures |r| == |s| && multiset(r) == multiset(s) && SortedDesc(r, key)
  {
    if s == [] then []
    else
      assert s == [s[0]] + s[1..];
      InsertSorted(s[0], SortDesc(s[1..], key), key);
      InsertDesc(s[0], SortDesc(s[1..], key), key)
  }

  /** The index of the first element with the greatest key. */
  function FirstMax<T>(s: seq<T>, key: T -> int): (m: nat)
    requires s != []
    ensures m < |s|
    ensures forall j :: 0 <= j < |s| ==> key(s[j]) <= key(s[m])
    ensures forall j :: 0 <= j < m ==> key(s[j]) < key(s[m])
  {
    if |s| == 1 then 0
    else
      var m := FirstMax(s[1..], key);
      assert forall j :: 1 <= j < |s| ==> s[j] == s[1..][j - 1];
      if key(s[0]) >= key(s[1..][m]) then 0 else m + 1
  }

  /**
   * The sort is stable: of the elements sharing the greatest key, the one
   * met first comes first, so `sorted(...)[0]` is the first greatest.
   */
  lemma {:induction false} SortDescHead<T>(s: seq<T>, key: T -> int)
    requires s != []
    ensures SortDesc(s, key)[0] == s[FirstMax(s, key)]
  {
    if |s| > 1 {
      var t := SortDesc(s[1..], key);
      SortDescHead(s[1..], key);
      var m := FirstMax(s[1..], key);
      assert t[0] == s[1..][m] && SortDesc(s, key) == InsertDesc(s[0], t, key);
      if key(s[0]) >= key(s[1..][m]) {
        assert FirstMax(s, key) == 0;
      } else {
        assert FirstMax(s, key) == m + 1 && s[m + 1] == s[1..][m];
      }
    }
  }

  /** `[x for x in s if name(x) != n]`. */
  function Without<T(!new)>(s: seq<T>, name: T -> string, n: string): (r: seq<T>)
    ensures forall i :: 0 <= i < |r| ==> name(r[i]) != n
    ensures forall x :: multiset(r)[x] == (if name(x) == n then 0 else multiset(s)[x])
  {
    if s == [] then []
    else
      assert s == [s[0]] + s[1..];
      if name(s[0]) == n then Without(s[1..], name, n)
      else [s[0]] + Without(s[1..], name, n)
  }

  /** Filtering keeps the order of what it keeps. */
  lemma {:induction false} WithoutKeepsOrder<T(!new)>(s: seq<T>, name: T -> string, n: string, key: T -> int)
    requires SortedDesc(s, key)
    ensures SortedDesc(Without(s, name, n), key)
  {
    if s != [] {
      assert SortedDesc(s[1..], key);
      WithoutKeepsOrder(s[1..], name, n, key);
      var t := Without(s[1..], name, n);
      if name(s[0]) != n {
        forall i | 0 <= i < |t| ensures key(s[0]) >= key(t[i]) {
          assert multiset(t)[t[i]] > 0;
          assert t[i] in s[1..];
        }
      }
    }
  }

  function MinutesKey(e: TagStat): int { e.minutes }

  /** Sorting moves entries, never changing a tag's tally. */
  lemma {:induction false} SortKeepsTallies(s: seq<TagStat>, n: string)
    ensures MinutesOf(SortDesc(s, MinutesKey), n) == MinutesOf(s, n)
    ensures BlocksOf(SortDesc(s, MinutesKey), n) == BlocksOf(s, n)
  {
    if s != [] {
      SortKeepsTallies(s[1..], n);
      InsertKeepsTallies(s[0], SortDesc(s[1..], MinutesKey), n);
    }
  }

  lemma {:induction false} InsertKeepsTallies(x: TagStat, s: seq<TagStat>, n: string)
    ensures MinutesOf(InsertDesc(x, s, MinutesKey), n) == MinutesOf([x], n) + MinutesOf(s, n)
    ensures BlocksOf(InsertDesc(x, s, MinutesKey), n) == BlocksOf([x], n) + BlocksOf(s, n)
  {
    var r := InsertDesc(x, s, MinutesKey);
    if s == [] || s[0].minutes <= x.minutes {
      assert r[1..] == s;
    } else {
      assert r[1..] == InsertDesc(x, s[1..], MinutesKey);
      InsertKeepsTallies(x, s[1..], n);
    }
  }

  /** Sorting a dictionary with unique keys keeps its keys unique and each key's colour. */
  lemma {:induction false} SortKeepsNames(s: seq<TagStat>)
    requires UniqueNames(s)
    ensures UniqueNames(SortDesc(s, MinutesKey))
    ensures forall n :: ColorOf(SortDesc(s, MinutesKey), n) == ColorOf(s, n)
  {
    if s != [] {
      SortKeepsNames(s[1..]);
      var t := SortDesc(s[1..], MinutesKey);
      assert ColorOf(t, s[0].name).None?;
      forall n ensures ColorOf(InsertDesc(s[0], t, MinutesKey), n) == ColorOf(s, n) {
        InsertKeepsNames(s[0], t, n);
      }
      InsertKeepsNames(s[0], t, s[0].name);
    }
  }

  lemma {:induction false} InsertKeepsNames(x: TagStat, s: seq<TagStat>, n: string)
    requires UniqueNames(s) && !HasName(s, x.name)
    ensures UniqueNames(InsertDesc(x, s, MinutesKey))
    ensures ColorOf(InsertDesc(x, s, MinutesKey), n) == if n == x.name then Some(x.color) else ColorOf(s, n)
  {
    var r := InsertDesc(x, s, MinutesKey);
    if s == [] || s[0].minutes <= x.minutes {
      assert r[1..] == s;
    } else {
      assert r[1..] == InsertDesc(x, s[1..], MinutesKey);
      InsertKeepsNames(x, s[1..], n);
      InsertKeepsNames(x, s[1..], s[0].name);
    }
  }

  // ---------------------------------------------------------------------
  // get_daily_stats_data

  /** The gaps of the first `k` hours of a day whose blocks are `blocks`. */
  function DayGap(blocks: seq<TimeBlock>, k: nat): nat {
    if k == 0 then 0 else DayGap(blocks, k - 1) + Gap(MinutesPerSlot * CountHour(blocks, k - 1))
  }

  /** The unclassified blocks those gaps add. */
  function DayGapBlocks(blocks: seq<TimeBlock>, k: nat): nat {
    if k == 0 then 0 else DayGapBlocks(blocks, k - 1) + Gap(MinutesPerSlot * CountHour(blocks, k - 1)) / MinutesPerSlot
  }

  lemma {:induction false} GapsFromCounts(blocks: seq<TimeBlock>, hourly: seq<MinuteMap>, k: nat)
    requires HourTally(blocks, hourly) && k <= |hourly|
    ensures GapSum(hourly, k) == DayGap(blocks, k) && GapBlocks(hourly, k) == DayGapBlocks(blocks, k)
  {
    if k > 0 {
      GapsFromCounts(blocks, hourly, k - 1);
    }
  }

  /** No two of the day's blocks share a slot index. */
  predicate DistinctSlots(blocks: seq<TimeBlock>) {
    forall i, j :: 0 <= i < j < |blocks| ==> blocks[i].slotIndex != blocks[j].slotIndex
  }

  /** The slot indexes of the counted blocks of hour `h`. */
  function HourSlots(blocks: seq<TimeBlock>, h: int): (r: set<int>)
    ensures forall x :: x in r ==> CoreUtils.SlotsPerHour * h <= x < CoreUtils.SlotsPerHour * h + CoreUtils.SlotsPerHour
    ensures forall x :: x in r ==> exists k :: 0 <= k < |blocks| && blocks[k].slotIndex == x
  {
    if blocks == [] then {}
    else
      var front := HourSlots(Front(blocks), h);
      assert forall x :: x in front ==> exists k :: 0 <= k < |blocks| && blocks[k].slotIndex == x by {
        forall x | x in front ensures exists k :: 0 <= k < |blocks| && blocks[k].slotIndex == x {
          var k :| 0 <= k < |Front(blocks)| && Front(blocks)[k].slotIndex == x;
          assert blocks[k].slotIndex == x;
        }
      }
      front + (if Active(Last(blocks), {}) && HourOf(Last(blocks)) == h then {Last(blocks).slotIndex} else {})
  }

  lemma {:induction false} CountHourIsSlotCount(blocks: seq<TimeBlock>, h: int)
    requires DistinctSlots(blocks)
    ensures CountHour(blocks, h) == |HourSlots(blocks, h)|
  {
    if blocks != [] {
      var front := Front(blocks);
      assert DistinctSlots(front) by {
        forall i, j | 0 <= i < j < |front| ensures front[i].slotIndex != front[j].slotIndex {
          assert front[i] == blocks[i] && front[j] == blocks[j];
        }
      }
      CountHourIsSlotCount(front, h);
      assert Last(blocks).slotIndex !in HourSlots(front, h) by {
        forall k | 0 <= k < |front| ensures front[k].slotIndex != Last(blocks).slotIndex {
          assert front[k] == blocks[k];
        }
      }
    }
  }

  /** The integers `a, a + 1, ..., a + n - 1`. */
  function Range(a: int, n: nat): (r: set<int>)
    ensures |r| == n && forall x :: x in r <==> a <= x < a + n
  {
    if n == 0 then {} else Range(a, n - 1) + {a + n - 1}
  }

  /** With distinct slot indexes an hour holds at most six counted blocks. */
  lemma AtMostSixPerHour(blocks: seq<TimeBlock>, h: int)
    requires DistinctSlots(blocks)
    ensures CountHour(blocks, h) <= CoreUtils.SlotsPerHour
  {
    CountHourIsSlotCount(blocks, h);
    var hourRange := Range(CoreUtils.SlotsPerHour * h, CoreUtils.SlotsPerHour);
    SubsetSize(HourSlots(blocks, h), hourRange);
  }

  lemma SubsetSize(a: set<int>, b: set<int>)
    requires a <= b
    ensures |a| <= |b|
  {
    assert b == a + (b - a);
    assert a * (b - a) == {};
  }

  /** ... and so every hour of such a day is topped up to exactly sixty minutes. */
  lemma FullHoursWhenDistinct(blocks: seq<TimeBlock>)
    requires DistinctSlots(blocks)
    ensures forall h :: MinutesPerSlot * CountHour(blocks, h) + Gap(MinutesPerSlot * CountHour(blocks, h)) == 60
  {
    forall h ensures MinutesPerSlot * CountHour(blocks, h) + Gap(MinutesPerSlot * CountHour(blocks, h)) == 60 {
      AtMostSixPerHour(blocks, h);
    }
  }

  /**
   * The colour of a tag of the daily dictionary: that of its first counted
   * block, or grey for an unclassified entry that only the gaps created.
   */
  function DailyColor(blocks: seq<TimeBlock>, n: string): (r: Option<string>)
    ensures r.Some? <==> CountTag(blocks, n) > 0 || (n == U && DayGap(blocks, 24) > 0)
  {
    if n == U && CountTag(blocks, U) == 0 && DayGap(blocks, 24) > 0 then Some(CoreUtils.UnclassifiedTagColor)
    else FirstColor(blocks, n)
  }

  /**
   * The daily tag dictionary, with unique keys: ten minutes and one block for every counted
   * block of the tag, plus the gaps of the day under the unclassified tag.
   */
  ghost predicate DailyTags(blocks: seq<TimeBlock>, ts: seq<TagStat>) {
    UniqueNames(ts) &&
    (forall n :: HasName(ts, n) <==> CountTag(blocks, n) > 0 || (n == U && DayGap(blocks, 24) > 0)) &&
    (forall n :: ColorOf(ts, n) == DailyColor(blocks, n)) &&
    (forall n :: MinutesOf(ts, n) == MinutesPerSlot * CountTag(blocks, n) + (if n == U then DayGap(blocks, 24) else 0)) &&
    (forall n :: BlocksOf(ts, n) == CountTag(blocks, n) + (if n == U then DayGapBlocks(blocks, 24) else 0))
  }

  /**
   * The daily hour dictionaries: ten minutes per counted block of the hour
   * under its tag, and the hour's gap under the unclassified tag.
   */
  ghost predicate DailyHours(blocks: seq<TimeBlock>, hs: seq<MinuteMap>) {
    |hs| == CoreUtils.HoursPerDay &&
    (forall h, n :: 0 <= h < |hs| ==>
       Get(hs[h], n) == MinutesPerSlot * CountHourTag(blocks, h, n) +
                        (if n == U then Gap(MinutesPerSlot * CountHour(blocks, h)) else 0)) &&
    (forall h :: 0 <= h < |hs| ==>
       Total(hs[h]) == MinutesPerSlot * CountHour(blocks, h) + Gap(MinutesPerSlot * CountHour(blocks, h)))
  }

  lemma DailyTagsAfterFill(blocks: seq<TimeBlock>, tagStats: seq<TagStat>, hourly: seq<MinuteMap>,
                           ts: seq<TagStat>, ranked: seq<TagStat>)
    requires TagTally(blocks, tagStats) && HourTally(blocks, hourly)
    requires FilledTags(hourly, tagStats, ts, |hourly|)
    requires forall n :: MinutesOf(ranked, n) == MinutesOf(ts, n) && BlocksOf(ranked, n) == BlocksOf(ts, n)
    requires UniqueNames(ranked) && forall n :: ColorOf(ranked, n) == ColorOf(ts, n)
    ensures DailyTags(blocks, ranked)
  {
    GapsFromCounts(blocks, hourly, 24);
    forall n ensures HasName(ranked, n) <==> CountTag(blocks, n) > 0 || (n == U && DayGap(blocks, 24) > 0) {
      assert ColorOf(ranked, n) == ColorOf(ts, n);
    }
  }

  lemma DailyHoursAfterFill(blocks: seq<TimeBlock>, hourly: seq<MinuteMap>, hs: seq<MinuteMap>)
    requires HourTally(blocks, hourly) && FilledHours(hourly, hs, |hourly|)
    ensures DailyHours(blocks, hs)
  {
  }

  /** A day of full hours peaks at midnight with sixty minutes. */
  lemma FullDayPeaksAtMidnight(blocks: seq<TimeBlock>, hs: seq<MinuteMap>, peakHour: int, maxMinutes: int)
    requires DailyHours(blocks, hs) && DistinctSlots(blocks)
    requires 0 <= peakHour < |hs| && maxMinutes == Total(hs[peakHour])
    requires forall h :: 0 <= h < peakHour ==> Total(hs[h]) < maxMinutes
    ensures forall h :: 0 <= h < |hs| ==> Total(hs[h]) == 60
    ensures peakHour == 0 && maxMinutes == 60
  {
    FullHoursWhenDistinct(blocks);
    assert Total(hs[0]) == 60;
  }

  /** The value get_daily_stats_data returns, less its floating-point fields. */
  datatype DailyStats = DailyStats(tagStats: seq<TagStat>, hourly: seq<MinuteMap>,
                                   recordedBlocks: nat, activeBlocks: nat,
                                   peakHour: int, maxMinutes: int, topTag: Option<TagStat>)

  /**
   * get_daily_stats_data over the blocks of one user's day: the tallies,
   * topped up to a full hour with unclassified time, ranked by minutes,
   * with the peak hour and the top tag. When no two blocks share a slot, as
   * the uniqueness constraint of the table guarantees, every hour ends at
   * sixty minutes and so the peak hour is always midnight.
   */
  method GetDailyStatsData(blocks: seq<TimeBlock>) returns (r: DailyStats)
    requires forall k :: 0 <= k < |blocks| ==> TimeBlockModel.SlotIndexValid(blocks[k].slotIndex)
    ensures SortedDesc(r.tagStats, MinutesKey) && DailyTags(blocks, r.tagStats)
    ensures DailyHours(blocks, r.hourly)
    ensures r.recordedBlocks == |blocks| && r.activeBlocks == CountActive(blocks, {U})
    ensures 0 <= r.peakHour < |r.hourly| && r.maxMinutes == Total(r.hourly[r.peakHour])
    ensures forall h :: 0 <= h < |r.hourly| ==> Total(r.hourly[h]) <= r.maxMinutes
    ensures forall h :: 0 <= h < r.peakHour ==> Total(r.hourly[h]) < r.maxMinutes
    ensures r.topTag.None? <==> r.tagStats == []
    ensures r.topTag.Some? ==> r.topTag.value == r.tagStats[0] &&
                               forall k :: 0 <= k < |r.tagStats| ==> r.tagStats[k].minutes <= r.topTag.value.minutes
    ensures DistinctSlots(blocks) ==>
              (forall h :: 0 <= h < |r.hourly| ==> Total(r.hourly[h]) == 60) && r.peakHour == 0 && r.maxMinutes == 60
  {
    var tagStats, hourly, active := DailyTally(blocks);
    var ts, hs := FillEmptySlotsDaily(tagStats, hourly);
    var peakHour, maxMinutes := PeakHour(hs);
    var ranked := SortDesc(ts, MinutesKey);
    forall n ensures MinutesOf(ranked, n) == MinutesOf(ts, n) && BlocksOf(ranked, n) == BlocksOf(ts, n) {
      SortKeepsTallies(ts, n);
    }
    SortKeepsNames(ts);
    DailyTagsAfterFill(blocks, tagStats, hourly, ts, ranked);
    DailyHoursAfterFill(blocks, hourly, hs);
    if DistinctSlots(blocks) {
      FullDayPeaksAtMidnight(blocks, hs, peakHour, maxMinutes);
    }
    r := DailyStats(ranked, hs, |blocks|, active, peakHour, maxMinutes,
                    if ranked == [] then None else Some(ranked[0]));
  }

  // ---------------------------------------------------------------------
  // get_weekly_stats_data

  const DaysPerWeek: nat := 7

  /** `excluded_tags`: neither sleep nor unclassified time is active time. */
  const Excluded: set<string> := {CoreUtils.SleepTagName, U}

  /** The day's `daily_tag_stats`: ten minutes per counted block, under its tag. */
  function DayTagMinutes(blocks: seq<TimeBlock>): MinuteMap {
    if blocks == [] then []
    else
      var front := DayTagMinutes(Front(blocks));
      match GetTagInfo(Last(blocks))
      case None => front
      case Some(info) => AddMinutes(front, info.name, MinutesPerSlot)
  }

  /** Ten minutes per counted block of a tag, which is a key exactly when it has some. */
  lemma {:induction false} DayTagMinutesCounts(blocks: seq<TimeBlock>, n: string)
    ensures Get(DayTagMinutes(blocks), n) == MinutesPerSlot * CountTag(blocks, n)
    ensures HasKey(DayTagMinutes(blocks), n) <==> CountTag(blocks, n) > 0
    ensures Total(DayTagMinutes(blocks)) == MinutesPerSlot * CountActive(blocks, {})
  {
    if blocks != [] {
      DayTagMinutesCounts(Front(blocks), n);
      match GetTagInfo(Last(blocks))
      case None =>
      case Some(info) =>
        AddMinutesEffect(DayTagMinutes(Front(blocks)), info.name, MinutesPerSlot, n);
        AddMinutesTotal(DayTagMinutes(Front(blocks)), info.name, MinutesPerSlot);
    }
  }

  /** A `tag_weekly_stats` entry: a name, a colour and seven days of minutes. */
  datatype WeekTag = WeekTag(name: string, color: string, dailyMinutes: seq<nat>)

  predicate SevenDays(ws: seq<WeekTag>) {
    forall k :: 0 <= k < |ws| ==> |ws[k].dailyMinutes| == DaysPerWeek
  }

  /**
   * `if name not in d: d[name] = {name, color, [0] * 7}` followed by
   * `d[name]['daily_minutes'][day] += x`.
   */
  function CreditDay(ws: seq<WeekTag>, info: TagInfo, day: nat, x: nat): (r: seq<WeekTag>)
    requires day < DaysPerWeek && SevenDays(ws)
    ensures SevenDays(r)
  {
    if ws == [] then [WeekTag(info.name, info.color, seq(DaysPerWeek, _ => 0)[day := x])]
    else if ws[0].name == info.name then
      [ws[0].(dailyMinutes := ws[0].dailyMinutes[day := ws[0].dailyMinutes[day] + x])] + ws[1..]
    else
      assert SevenDays(ws[1..]) by {
        forall k | 0 <= k < |ws[1..]| ensures |ws[1..][k].dailyMinutes| == DaysPerWeek { assert ws[1..][k] == ws[k + 1]; }
      }
      [ws[0]] + CreditDay(ws[1..], info, day, x)
  }

  /** The minutes of tag `n` on day `day` of the week. */
  function DayMinutes(ws: seq<WeekTag>, n: string, day: nat): nat
    requires day < DaysPerWeek && SevenDays(ws)
  {
    if ws == [] then 0
    else
      assert SevenDays(ws[1..]) by {
        forall k | 0 <= k < |ws[1..]| ensures |ws[1..][k].dailyMinutes| == DaysPerWeek { assert ws[1..][k] == ws[k + 1]; }
      }
      (if ws[0].name == n then ws[0].dailyMinutes[day] else 0) + DayMinutes(ws[1..], n, day)
  }

  /** Crediting one tag on one day changes that cell and no other. */
  lemma {:induction false} CreditDayEffect(ws: seq<WeekTag>, info: TagInfo, day: nat, x: nat, n: string, e: nat)
    requires day < DaysPerWeek && e < DaysPerWeek && SevenDays(ws)
    ensures DayMinutes(CreditDay(ws, info, day, x), n, e) ==
            DayMinutes(ws, n, e) + (if n == info.name && e == day then x else 0)
  {
    var r := CreditDay(ws, info, day, x);
    if ws == [] {
      assert r[1..] == [];
    } else if ws[0].name == info.name {
      assert r[1..] == ws[1..];
    } else {
      assert r[1..] == CreditDay(ws[1..], info, day, x);
      CreditDayEffect(ws[1..], info, day, x, n, e);
    }
  }

  /** `d[n]['color']` of the weekly table, when `n in d`. */
  function WeekColorOf(ws: seq<WeekTag>, n: string): Option<string> {
    if ws == [] then None else if ws[0].name == n then Some(ws[0].color) else WeekColorOf(ws[1..], n)
  }

  /** The keys of the weekly table are unique. */
  predicate WeekUniqueNames(ws: seq<WeekTag>) {
    ws == [] || (WeekColorOf(ws[1..], ws[0].name).None? && WeekUniqueNames(ws[1..]))
  }

  /** Crediting a day gives a new key the credited colour, keeps every other colour, and keeps the keys unique. */
  lemma {:induction false} CreditDayColor(ws: seq<WeekTag>, info: TagInfo, day: nat, x: nat, n: string)
    requires day < DaysPerWeek && SevenDays(ws)
    ensures WeekColorOf(CreditDay(ws, info, day, x), n) ==
            if n == info.name && WeekColorOf(ws, n).None? then Some(info.color) else WeekColorOf(ws, n)
    ensures WeekUniqueNames(ws) ==> WeekUniqueNames(CreditDay(ws, info, day, x))
  {
    var r := CreditDay(ws, info, day, x);
    if ws == [] {
      assert r[1..] == [];
    } else if ws[0].name == info.name {
      assert r[1..] == ws[1..];
    } else {
      assert r[1..] == CreditDay(ws[1..], info, day, x);
      CreditDayColor(ws[1..], info, day, x, n);
      CreditDayColor(ws[1..], info, day, x, ws[0].name);
    }
  }

  /** The loop over one day's blocks, on the weekly table: ten minutes per counted block on that day. */
  function WeekCredit(ws: seq<WeekTag>, blocks: seq<TimeBlock>, day: nat): (r: seq<WeekTag>)
    requires day < DaysPerWeek && SevenDays(ws)
    ensures SevenDays(r)
  {
    if blocks == [] then ws
    else
      var front := WeekCredit(ws, Front(blocks), day);
      match GetTagInfo(Last(blocks))
      case None => front
      case Some(info) => CreditDay(front, info, day, MinutesPerSlot)
  }

  lemma {:induction false} WeekCreditEffect(ws: seq<WeekTag>, blocks: seq<TimeBlock>, day: nat, n: string, e: nat)
    requires day < DaysPerWeek && e < DaysPerWeek && SevenDays(ws)
    ensures DayMinutes(WeekCredit(ws, blocks, day), n, e) ==
            DayMinutes(ws, n, e) + (if e == day then MinutesPerSlot * CountTag(blocks, n) else 0)
  {
    if blocks != [] {
      WeekCreditEffect(ws, Front(blocks), day, n, e);
      match GetTagInfo(Last(blocks))
      case None =>
      case Some(info) => CreditDayEffect(WeekCredit(ws, Front(blocks), day), info, day, MinutesPerSlot, n, e);
    }
  }

  /** A day's blocks add their tags in the colour of each tag's first block, and keep the keys unique. */
  lemma {:induction false} WeekCreditColor(ws: seq<WeekTag>, blocks: seq<TimeBlock>, day: nat, n: string)
    requires day < DaysPerWeek && SevenDays(ws)
    ensures WeekColorOf(WeekCredit(ws, blocks, day), n) ==
            if WeekColorOf(ws, n).None? then FirstColor(blocks, n) else WeekColorOf(ws, n)
    ensures WeekUniqueNames(ws) ==> WeekUniqueNames(WeekCredit(ws, blocks, day))
  {
    if blocks != [] {
      WeekCreditColor(ws, Front(blocks), day, n);
      match GetTagInfo(Last(blocks))
      case None =>
      case Some(info) => CreditDayColor(WeekCredit(ws, Front(blocks), day), info, day, MinutesPerSlot, n);
    }
  }

  /** `calculate_empty_slots` as fill_empty_slots_weekly uses it: the unrecorded minutes, when positive. */
  function EmptyMinutes(recorded: nat): nat {
    if recorded < CoreUtils.TotalSlotsPerDay then (CoreUtils.TotalSlotsPerDay - recorded) * MinutesPerSlot else 0
  }

  /** The unclassified tag, grey unless a block already gave it a colour. */
  const UnclassifiedInfo: TagInfo := TagInfo(U, CoreUtils.UnclassifiedTagColor)

  /**
   * fill_empty_slots_weekly as evidently intended: the day's unrecorded
   * minutes go to the unclassified tag in the day's minutes and in the
   * weekly table.
   */
  function FillEmptySlotsWeekly(recorded: nat, dayStats: MinuteMap, ws: seq<WeekTag>, day: nat): (r: (MinuteMap, seq<WeekTag>))
    requires day < DaysPerWeek && SevenDays(ws)
    ensures SevenDays(r.1)
  {
    var empty := EmptyMinutes(recorded);
    if empty > 0 then (AddMinutes(dayStats, U, empty), CreditDay(ws, UnclassifiedInfo, day, empty))
    else (dayStats, ws)
  }

  /** The unrecorded minutes are credited to the unclassified tag in both places, and to nothing else. */
  lemma FillEmptySlotsWeeklyEffect(recorded: nat, dayStats: MinuteMap, ws: seq<WeekTag>, day: nat, n: string, e: nat)
    requires day < DaysPerWeek && e < DaysPerWeek && SevenDays(ws)
    ensures var r := FillEmptySlotsWeekly(recorded, dayStats, ws, day);
            Get(r.0, n) == Get(dayStats, n) + (if n == U then EmptyMinutes(recorded) else 0) &&
            Total(r.0) == Total(dayStats) + EmptyMinutes(recorded) &&
            DayMinutes(r.1, n, e) == DayMinutes(ws, n, e) + (if n == U && e == day then EmptyMinutes(recorded) else 0)
  {
    var empty := EmptyMinutes(recorded);
    if empty > 0 {
      AddMinutesEffect(dayStats, U, empty, n);
      AddMinutesTotal(dayStats, U, empty);
      CreditDayEffect(ws, UnclassifiedInfo, day, empty, n, e);
    }
  }

  /** The fill adds the unclassified tag in grey when it is absent, and keeps the keys unique. */
  lemma FillEmptySlotsWeeklyColor(recorded: nat, dayStats: MinuteMap, ws: seq<WeekTag>, day: nat, n: string)
    requires day < DaysPerWeek && SevenDays(ws)
    ensures var r := FillEmptySlotsWeekly(recorded, dayStats, ws, day);
            WeekColorOf(r.1, n) ==
              (if n == U && EmptyMinutes(recorded) > 0 && WeekColorOf(ws, U).None?
               then Some(CoreUtils.UnclassifiedTagColor) else WeekColorOf(ws, n)) &&
            (WeekUniqueNames(ws) ==> WeekUniqueNames(r.1))
  {
    var empty := EmptyMinutes(recorded);
    if empty > 0 {
      CreditDayColor(ws, UnclassifiedInfo, day, empty, n);
    }
  }

  /** With the fill, a day whose blocks all count and fit the grid accounts for all of its 1440 minutes. */
  lemma WholeDayAccounted(blocks: seq<TimeBlock>, ws: seq<WeekTag>, day: nat)
    requires day < DaysPerWeek && SevenDays(ws)
    requires |blocks| <= CoreUtils.TotalSlotsPerDay
    requires forall k :: 0 <= k < |blocks| ==> GetTagInfo(blocks[k]).Some?
    ensures Total(FillEmptySlotsWeekly(|blocks|, DayTagMinutes(blocks), ws, day).0) == 1440
  {
    DayTagMinutesCounts(blocks, U);
    CountedBlocksAtMostAll(blocks, {});
    FillEmptySlotsWeeklyEffect(|blocks|, DayTagMinutes(blocks), ws, day, U, 0);
  }

  /** The error Python raises when it subscripts an `int` with `'minutes'`. */
  const SubscriptError: string := "TypeError: 'int' object is not subscriptable"

  /**
   * add_unclassified_data(daily_tag_stats, m, data_type='daily') as the
   * weekly pass calls it. The weekly day dictionary maps names to plain
   * minute counts, but the 'daily' branch subscripts the unclassified entry
   * with `'minutes'`: a fresh entry is created as a dictionary (its minutes
   * are recorded here), while an entry already made by a block tagged
   * unclassified is an `int`, and subscripting it raises.
   */
  function AddUnclassifiedToDayAsWritten(dayStats: MinuteMap, m: int): (r: Result<MinuteMap, string>)
    ensures r.Err? <==> m > 0 && HasKey(dayStats, U)
    ensures r.Err? ==> r.error == SubscriptError
    ensures r.Ok? && m > 0 ==> HasKey(r.value, U) && Get(r.value, U) == m
  {
    if m <= 0 then Ok(dayStats)
    else if HasKey(dayStats, U) then Err(SubscriptError)
    else
      AppendedKey(dayStats, U, m);
      Ok(dayStats + [(U, m)])
  }

  /** A key appended to a dictionary that lacks it holds exactly the appended value. */
  lemma {:induction false} AppendedKey(d: MinuteMap, k: string, x: nat)
    requires !HasKey(d, k)
    ensures HasKey(d + [(k, x)], k) && Get(d + [(k, x)], k) == x
  {
    if d != [] {
      assert (d + [(k, x)])[1..] == d[1..] + [(k, x)];
      AppendedKey(d[1..], k, x);
    }
  }

  /** fill_empty_slots_weekly as written: the day's dictionary first, then the weekly table. */
  function FillEmptySlotsWeeklyAsWritten(recorded: nat, dayStats: MinuteMap, ws: seq<WeekTag>, day: nat)
    : (r: Result<(MinuteMap, seq<WeekTag>), string>)
    requires day < DaysPerWeek && SevenDays(ws)
    ensures r.Err? <==> EmptyMinutes(recorded) > 0 && HasKey(dayStats, U)
    ensures r.Err? ==> r.error == SubscriptError
    ensures r.Ok? ==> r.value.1 == FillEmptySlotsWeekly(recorded, dayStats, ws, day).1
  {
    var empty := EmptyMinutes(recorded);
    match AddUnclassifiedToDayAsWritten(dayStats, empty)
    case Err(e) => Err(e)
    case Ok(d) => Ok((d, if empty > 0 then CreditDay(ws, UnclassifiedInfo, day, empty) else ws))
  }

  /**
   * The weekly fill as written fails exactly on a day with unrecorded time
   * that already has unclassified minutes; otherwise it agrees with the
   * intended fill on every tag.
   */
  lemma WeeklyFillAsWrittenFailsIff(recorded: nat, dayStats: MinuteMap, ws: seq<WeekTag>, day: nat, n: string)
    requires day < DaysPerWeek && SevenDays(ws)
    ensures var w := FillEmptySlotsWeeklyAsWritten(recorded, dayStats, ws, day);
            (w.Err? <==> EmptyMinutes(recorded) > 0 && HasKey(dayStats, U)) &&
            (w.Ok? ==> Get(w.value.0, n) == Get(FillEmptySlotsWeekly(recorded, dayStats, ws, day).0, n) &&
                       w.value.1 == FillEmptySlotsWeekly(recorded, dayStats, ws, day).1)
  {
    var empty := EmptyMinutes(recorded);
    if empty > 0 && !HasKey(dayStats, U) {
      AppendAbsentKey(dayStats, U, empty, n);
    }
  }

  lemma {:induction false} AppendAbsentKey(m: MinuteMap, k: string, x: nat, n: string)
    requires !HasKey(m, k)
    ensures Get(m + [(k, x)], n) == Get(AddMinutes(m, k, x), n)
  {
    if m != [] {
      assert (m + [(k, x)])[1..] == m[1..] + [(k, x)];
      AppendAbsentKey(m[1..], k, x, n);
    }
  }

  /**
   * One block tagged with the unclassified name on an otherwise empty day:
   * the weekly statistics raise instead of returning.
   */
  lemma UnclassifiedBlockBreaksWeeklyStats()
    ensures var b := TimeBlockModel.TimeBlock(1, 0, 0, Some(TagModel.Tag(1, Some(1), U, "#808080", false)), "");
            FillEmptySlotsWeeklyAsWritten(1, DayTagMinutes([b]), [], 0) == Err(SubscriptError)
  {
    var b := TimeBlockModel.TimeBlock(1, 0, 0, Some(TagModel.Tag(1, Some(1), U, "#808080", false)), "");
    DayTagMinutesCounts([b], U);
  }

  /** What one day of the week adds to `weekly_data`, less its floating-point fields. */
  datatype DaySummary = DaySummary(totalBlocks: nat, totalMinutes: nat, recordedBlocks: nat, tagStats: MinuteMap)

  /**
   * The body of the loop of get_weekly_stats_data for day `day` of the
   * week: the day's tag minutes, its active blocks and minutes (sleep and
   * unclassified left out), the weekly table credited on that day, and the
   * fill of the unrecorded time.
   */
  method ProcessWeekDay(blocks: seq<TimeBlock>, day: nat, weekly: seq<WeekTag>)
      returns (summary: DaySummary, weeklyAfter: seq<WeekTag>)
    requires day < DaysPerWeek && SevenDays(weekly)
    ensures SevenDays(weeklyAfter)
    ensures summary.totalBlocks == CountActive(blocks, Excluded)
    ensures summary.totalMinutes == MinutesPerSlot * summary.totalBlocks
    ensures summary.recordedBlocks == |blocks|
    ensures (summary.tagStats, weeklyAfter) ==
            FillEmptySlotsWeekly(|blocks|, DayTagMinutes(blocks), WeekCredit(weekly, blocks, day), day)
  {
    var dailyTagStats: MinuteMap := [];
    var activeBlocksCount, activeMinutes := 0, 0;
    var ws := weekly;
    var i := 0;
    while i < |blocks|
      invariant 0 <= i <= |blocks|
      invariant dailyTagStats == DayTagMinutes(blocks[..i])
      invariant ws == WeekCredit(weekly, blocks[..i], day)
      invariant activeBlocksCount == CountActive(blocks[..i], Excluded)
      invariant activeMinutes == MinutesPerSlot * activeBlocksCount
    {
      PrefixStep(blocks, i);
      match GetTagInfo(blocks[i]) {
      case None =>
      case Some(info) =>
        dailyTagStats := AddMinutes(dailyTagStats, info.name, MinutesPerSlot);
        if info.name !in Excluded {
          activeBlocksCount := activeBlocksCount + 1;
          activeMinutes := activeMinutes + MinutesPerSlot;
        }
        ws := CreditDay(ws, info, day, MinutesPerSlot);
      }
      i := i + 1;
    }
    assert blocks[..|blocks|] == blocks;
    var filled := FillEmptySlotsWeekly(|blocks|, dailyTagStats, ws, day);
    summary := DaySummary(activeBlocksCount, activeMinutes, |blocks|, filled.0);
    weeklyAfter := filled.1;
  }

  /** The indexes of the days with active blocks. */
  ghost function ActiveDaySet(s: seq<DaySummary>): set<int> {
    set k | 0 <= k < |s| && s[k].totalBlocks > 0
  }

  /** `sum(1 for day in weekly_data if day['total_blocks'] > 0)`: the number of days with active blocks. */
  function ActiveDays(s: seq<DaySummary>): (r: nat)
    ensures r == |ActiveDaySet(s)|
    ensures r <= |s| && (r == 0 <==> forall k :: 0 <= k < |s| ==> s[k].totalBlocks == 0)
  {
    if s == [] then 0
    else
      var front := Front(s);
      assert forall k :: 0 <= k < |front| ==> front[k] == s[k];
      assert ActiveDaySet(s) == ActiveDaySet(front) + (if Last(s).totalBlocks > 0 then {|s| - 1} else {});
      ActiveDays(front) + (if Last(s).totalBlocks > 0 then 1 else 0)
  }

  /** A day's recorded minutes under `n`: ten per counted block, plus the unrecorded time for the unclassified tag. */
  function WeekDayMinutes(blocks: seq<TimeBlock>, n: string): nat {
    MinutesPerSlot * CountTag(blocks, n) + (if n == U then EmptyMinutes(|blocks|) else 0)
  }

  /**
   * The colour of tag `n` in the weekly table after the first `i` days: that
   * of its first counted block, or grey when the unclassified tag is first
   * met as unrecorded time; none when the tag has no minutes on those days.
   */
  function WeekColor(days: seq<seq<TimeBlock>>, i: nat, n: string): (r: Option<string>)
    requires i <= |days|
    ensures r.Some? <==> exists d :: 0 <= d < i && WeekDayMinutes(days[d], n) > 0
  {
    if i == 0 then None
    else
      var prev := WeekColor(days, i - 1, n);
      if prev.Some? then prev
      else if FirstColor(days[i - 1], n).Some? then FirstColor(days[i - 1], n)
      else if n == U && EmptyMinutes(|days[i - 1]|) > 0 then Some(CoreUtils.UnclassifiedTagColor)
      else None
  }

  /** The weekly table once the first `i` days are done. */
  ghost predicate WeekSoFar(days: seq<seq<TimeBlock>>, ws: seq<WeekTag>, i: nat) {
    SevenDays(ws) && i <= |days| == DaysPerWeek &&
    (forall n, d :: 0 <= d < i ==> DayMinutes(ws, n, d) == WeekDayMinutes(days[d], n)) &&
    (forall n, d :: i <= d < DaysPerWeek ==> DayMinutes(ws, n, d) == 0) &&
    WeekUniqueNames(ws) && (forall n :: WeekColorOf(ws, n) == WeekColor(days, i, n))
  }

  /** What `weekly_data[d]` says about day `d`. */
  ghost predicate SummarizesDay(blocks: seq<TimeBlock>, summary: DaySummary) {
    summary.totalBlocks == CountActive(blocks, Excluded) &&
    summary.totalMinutes == MinutesPerSlot * summary.totalBlocks &&
    summary.recordedBlocks == |blocks| &&
    forall n :: Get(summary.tagStats, n) == WeekDayMinutes(blocks, n)
  }

  lemma WeekDayStep(days: seq<seq<TimeBlock>>, ws: seq<WeekTag>, i: nat, summary: DaySummary, after: seq<WeekTag>)
    requires i < |days| && WeekSoFar(days, ws, i)
    requires (summary.tagStats, after) ==
             FillEmptySlotsWeekly(|days[i]|, DayTagMinutes(days[i]), WeekCredit(ws, days[i], i), i)
    requires summary.totalBlocks == CountActive(days[i], Excluded)
    requires summary.totalMinutes == MinutesPerSlot * summary.totalBlocks && summary.recordedBlocks == |days[i]|
    ensures WeekSoFar(days, after, i + 1) && SummarizesDay(days[i], summary)
  {
    var credited := WeekCredit(ws, days[i], i);
    forall n, e | 0 <= e < DaysPerWeek
      ensures DayMinutes(after, n, e) == DayMinutes(ws, n, e) + (if e == i then WeekDayMinutes(days[i], n) else 0)
      ensures Get(summary.tagStats, n) == WeekDayMinutes(days[i], n)
    {
      WeekCreditEffect(ws, days[i], i, n, e);
      FillEmptySlotsWeeklyEffect(|days[i]|, DayTagMinutes(days[i]), credited, i, n, e);
      DayTagMinutesCounts(days[i], n);
    }
    forall n ensures Get(summary.tagStats, n) == WeekDayMinutes(days[i], n) {
      FillEmptySlotsWeeklyEffect(|days[i]|, DayTagMinutes(days[i]), credited, i, n, 0);
      DayTagMinutesCounts(days[i], n);
    }
    forall n ensures WeekColorOf(after, n) == WeekColor(days, i + 1, n) {
      WeekCreditColor(ws, days[i], i, n);
      FillEmptySlotsWeeklyColor(|days[i]|, DayTagMinutes(days[i]), credited, i, n);
    }
    WeekCreditColor(ws, days[i], i, U);
    FillEmptySlotsWeeklyColor(|days[i]|, DayTagMinutes(days[i]), credited, i, U);
  }

  lemma EmptyWeekTable(days: seq<seq<TimeBlock>>)
    requires |days| == DaysPerWeek
    ensures WeekSoFar(days, [], 0)
  {
  }

  /**
   * get_weekly_stats_data over the seven days of the week, `days[d]` being
   * the blocks of the d-th day from the week's start: one summary per day,
   * and for every tag seven daily minute counts indexed by that offset.
   */
  method GetWeeklyStatsData(days: seq<seq<TimeBlock>>)
      returns (weeklyData: seq<DaySummary>, tagWeeklyStats: seq<WeekTag>, activeDays: nat)
    requires |days| == DaysPerWeek
    ensures |weeklyData| == DaysPerWeek && SevenDays(tagWeeklyStats)
    ensures forall d :: 0 <= d < DaysPerWeek ==> SummarizesDay(days[d], weeklyData[d])
    ensures forall n, d :: 0 <= d < DaysPerWeek ==> DayMinutes(tagWeeklyStats, n, d) == WeekDayMinutes(days[d], n)
    ensures WeekUniqueNames(tagWeeklyStats) && forall n :: WeekColorOf(tagWeeklyStats, n) == WeekColor(days, DaysPerWeek, n)
    ensures forall n :: WeekColorOf(tagWeeklyStats, n).Some? <==> exists d :: 0 <= d < DaysPerWeek && WeekDayMinutes(days[d], n) > 0
    ensures activeDays == |set d | 0 <= d < DaysPerWeek && CountActive(days[d], Excluded) > 0|
    ensures activeDays <= DaysPerWeek
    ensures activeDays == 0 <==> forall d :: 0 <= d < DaysPerWeek ==> CountActive(days[d], Excluded) == 0
  {
    weeklyData, tagWeeklyStats := [], [];
    EmptyWeekTable(days);
    var i := 0;
    while i < DaysPerWeek
      invariant 0 <= i <= DaysPerWeek && |weeklyData| == i
      invariant WeekSoFar(days, tagWeeklyStats, i)
      invariant forall d :: 0 <= d < i ==> SummarizesDay(days[d], weeklyData[d])
    {
      var summary, after := ProcessWeekDay(days[i], i, tagWeeklyStats);
      WeekDayStep(days, tagWeeklyStats, i, summary, after);
      weeklyData := weeklyData + [summary];
      tagWeeklyStats := after;
      i := i + 1;
    }
    activeDays := ActiveDays(weeklyData);
    WeekFinished(days, tagWeeklyStats, weeklyData);
  }

  /** Once all seven days are processed, the table holds the tags with minutes and the summaries give the active days. */
  lemma WeekFinished(days: seq<seq<TimeBlock>>, ws: seq<WeekTag>, weeklyData: seq<DaySummary>)
    requires WeekSoFar(days, ws, DaysPerWeek) && |weeklyData| == DaysPerWeek
    requires forall d :: 0 <= d < DaysPerWeek ==> SummarizesDay(days[d], weeklyData[d])
    ensures forall n :: WeekColorOf(ws, n).Some? <==> exists d :: 0 <= d < DaysPerWeek && WeekDayMinutes(days[d], n) > 0
    ensures ActiveDaySet(weeklyData) == set d | 0 <= d < DaysPerWeek && CountActive(days[d], Excluded) > 0
  {
    forall n ensures WeekColorOf(ws, n).Some? <==> exists d :: 0 <= d < DaysPerWeek && WeekDayMinutes(days[d], n) > 0 {
      assert WeekColorOf(ws, n) == WeekColor(days, DaysPerWeek, n);
    }
  }

  // ---------------------------------------------------------------------
  // get_tag_analysis_data and the monthly tag list

  /**
   * `round(minutes / 60, 1)` as a whole number of tenths of an hour: the
   * nearest tenth. The minutes here are multiples of ten, so no value lies
   * halfway between two tenths.
   */
  function HoursTenths(minutes: nat): (r: nat)
    ensures -3 < 6 * r - minutes <= 3
  {
    (minutes + 3) / 6
  }

  /** An entry of the tag-analysis list. */
  datatype AnalysisTag = AnalysisTag(name: string, color: string, totalTenths: nat, totalBlocks: nat)

  function AnalysisName(t: AnalysisTag): string { t.name }
  function AnalysisKey(t: AnalysisTag): int { t.totalTenths }

  /** The tag loop of get_tag_analysis_data: ten minutes and one block per counted block. */
  method AnalysisTally(blocks: seq<TimeBlock>) returns (stats: seq<TagStat>)
    ensures TagTally(blocks, stats)
  {
    stats := [];
    var i := 0;
    while i < |blocks|
      invariant 0 <= i <= |blocks| && TagTally(blocks[..i], stats)
    {
      match GetTagInfo(blocks[i]) {
      case None =>
        SkipStep(blocks, i, stats, [], {});
      case Some(info) =>
        TagTallyStep(blocks, i, stats, info);
        stats := Credit(stats, info, MinutesPerSlot, 1);
      }
      i := i + 1;
    }
    assert blocks[..|blocks|] == blocks;
  }

  /** The unrecorded minutes of the days whose block counts are `counts`. */
  function EmptySum(counts: seq<nat>): nat {
    if counts == [] then 0 else EmptySum(Front(counts)) + EmptyMinutes(Last(counts))
  }

  /**
   * fill_empty_slots_analysis, `counts[d]` being the number of blocks of
   * the d-th day of the month: each day's unrecorded minutes go to the
   * unclassified tag; no other tag changes.
   */
  method FillEmptySlotsAnalysis(stats: seq<TagStat>, counts: seq<nat>) returns (ts: seq<TagStat>)
    ensures UniqueNames(stats) ==> UniqueNames(ts)
    ensures forall n :: n != U ==> MinutesOf(ts, n) == MinutesOf(stats, n) && BlocksOf(ts, n) == BlocksOf(stats, n)
    ensures forall n :: n != U ==> (HasName(ts, n) <==> HasName(stats, n))
    ensures forall n :: n != U ==> ColorOf(ts, n) == ColorOf(stats, n)
    ensures MinutesOf(ts, U) == MinutesOf(stats, U) + EmptySum(counts)
  {
    ts := stats;
    var dayIndex := 0;
    while dayIndex < |counts|
      invariant 0 <= dayIndex <= |counts|
      invariant UniqueNames(stats) ==> UniqueNames(ts)
      invariant forall n :: n != U ==> MinutesOf(ts, n) == MinutesOf(stats, n) && BlocksOf(ts, n) == BlocksOf(stats, n)
      invariant forall n :: n != U ==> (HasName(ts, n) <==> HasName(stats, n))
      invariant forall n :: n != U ==> ColorOf(ts, n) == ColorOf(stats, n)
      invariant MinutesOf(ts, U) == MinutesOf(stats, U) + EmptySum(counts[..dayIndex])
    {
      PrefixStep(counts, dayIndex);
      var recordedBlocks := counts[dayIndex];
      var emptyBlocks: int := CoreUtils.TotalSlotsPerDay - recordedBlocks;
      forall n ensures MinutesOf(AddUnclassified(ts, emptyBlocks * MinutesPerSlot), n) ==
                         MinutesOf(ts, n) + (if n == U && emptyBlocks * MinutesPerSlot > 0 then emptyBlocks * MinutesPerSlot else 0)
                    && BlocksOf(AddUnclassified(ts, emptyBlocks * MinutesPerSlot), n) ==
                         BlocksOf(ts, n) + (if n == U && emptyBlocks * MinutesPerSlot > 0 then emptyBlocks * MinutesPerSlot / MinutesPerSlot else 0)
                    && (HasName(AddUnclassified(ts, emptyBlocks * MinutesPerSlot), n) <==> HasName(ts, n) || (n == U && emptyBlocks * MinutesPerSlot > 0))
                    && (n != U ==> ColorOf(AddUnclassified(ts, emptyBlocks * MinutesPerSlot), n) == ColorOf(ts, n)) {
        AddUnclassifiedEffect(ts, emptyBlocks * MinutesPerSlot, n);
      }
      AddUnclassifiedEffect(ts, emptyBlocks * MinutesPerSlot, U);
      if emptyBlocks > 0 {
        var emptyMinutes := emptyBlocks * MinutesPerSlot;
        ts := AddUnclassified(ts, emptyMinutes);
      }
      dayIndex := dayIndex + 1;
    }
    assert counts[..|counts|] == counts;
  }

  lemma {:induction false} NameHasIndex(s: seq<TagStat>, n: string)
    requires HasName(s, n)
    ensures exists j :: 0 <= j < |s| && s[j].name == n
  {
    if s[0].name != n {
      NameHasIndex(s[1..], n);
      var j :| 0 <= j < |s[1..]| && s[1..][j].name == n;
      assert s[j + 1].name == n;
    }
  }

  /** The analysis entry of a tag: its hours in tenths and its blocks. */
  function AnalysisEntry(e: TagStat): AnalysisTag {
    AnalysisTag(e.name, e.color, HoursTenths(e.minutes), e.blocks)
  }

  /**
   * get_tag_analysis_data over the month's blocks, `counts[d]` being the
   * number of blocks of its d-th day: the counted tags but the unclassified
   * one, each with the colour of its first block, its hours and its blocks,
   * by hours descending; every such tag has an entry.
   */
  method GetTagAnalysisData(blocks: seq<TimeBlock>, counts: seq<nat>) returns (r: seq<AnalysisTag>)
    ensures SortedDesc(r, AnalysisKey)
    ensures forall k :: 0 <= k < |r| ==> r[k].name != U && CountTag(blocks, r[k].name) > 0
    ensures forall k :: 0 <= k < |r| ==> r[k].totalBlocks == CountTag(blocks, r[k].name) &&
                                         r[k].totalTenths == HoursTenths(MinutesPerSlot * CountTag(blocks, r[k].name))
    ensures forall k :: 0 <= k < |r| ==> FirstColor(blocks, r[k].name) == Some(r[k].color)
    ensures forall n :: n != U && CountTag(blocks, n) > 0 ==> exists k :: 0 <= k < |r| && r[k].name == n
  {
    var tagAnalysisData := AnalysisTally(blocks);
    var ts := FillEmptySlotsAnalysis(tagAnalysisData, counts);
    var analysisList: seq<AnalysisTag> := [];
    var i := 0;
    while i < |ts|
      invariant 0 <= i <= |ts| && |analysisList| == i
      invariant forall k :: 0 <= k < i ==> analysisList[k] == AnalysisEntry(ts[k])
    {
      analysisList := analysisList + [AnalysisEntry(ts[i])];
      i := i + 1;
    }
    var kept := Without(analysisList, AnalysisName, U);
    r := SortDesc(kept, AnalysisKey);
    AnalysisEntriesFaithful(blocks, tagAnalysisData, ts, analysisList, r);
  }

  lemma AnalysisEntriesFaithful(blocks: seq<TimeBlock>, tally: seq<TagStat>, ts: seq<TagStat>,
                                list: seq<AnalysisTag>, r: seq<AnalysisTag>)
    requires TagTally(blocks, tally) && UniqueNames(ts)
    requires forall n :: n != U ==> MinutesOf(ts, n) == MinutesOf(tally, n) && BlocksOf(ts, n) == BlocksOf(tally, n)
    requires forall n :: n != U ==> (HasName(ts, n) <==> HasName(tally, n))
    requires forall n :: n != U ==> ColorOf(ts, n) == ColorOf(tally, n)
    requires |list| == |ts| && forall k :: 0 <= k < |ts| ==> list[k] == AnalysisEntry(ts[k])
    requires multiset(r) == multiset(Without(list, AnalysisName, U))
    ensures forall k :: 0 <= k < |r| ==> r[k].name != U && CountTag(blocks, r[k].name) > 0
    ensures forall k :: 0 <= k < |r| ==> r[k].totalBlocks == CountTag(blocks, r[k].name) &&
                                         r[k].totalTenths == HoursTenths(MinutesPerSlot * CountTag(blocks, r[k].name))
    ensures forall k :: 0 <= k < |r| ==> FirstColor(blocks, r[k].name) == Some(r[k].color)
    ensures forall n :: n != U && CountTag(blocks, n) > 0 ==> exists k :: 0 <= k < |r| && r[k].name == n
  {
    var kept := Without(list, AnalysisName, U);
    forall k | 0 <= k < |r|
      ensures r[k].name != U && CountTag(blocks, r[k].name) > 0
      ensures r[k].totalBlocks == CountTag(blocks, r[k].name) &&
              r[k].totalTenths == HoursTenths(MinutesPerSlot * CountTag(blocks, r[k].name))
      ensures FirstColor(blocks, r[k].name) == Some(r[k].color)
    {
      assert r[k] in multiset(r);
      assert multiset(list)[r[k]] > 0 && r[k].name != U;
      assert r[k] in list;
      var j :| 0 <= j < |list| && list[j] == r[k];
      EntryHoldsTally(ts, j);
      NameAtIndex(ts, j);
      ColorAtIndex(ts, j);
    }
    forall n | n != U && CountTag(blocks, n) > 0 ensures exists k :: 0 <= k < |r| && r[k].name == n {
      NameHasIndex(ts, n);
      var j :| 0 <= j < |ts| && ts[j].name == n;
      assert list[j] in multiset(list);
      assert list[j] in multiset(r);
      assert list[j] in r;
    }
  }

  /** An entry of the monthly tag list; its daily and average hours are not modelled. */
  datatype MonthTag = MonthTag(name: string, color: string, totalTenths: int)

  function MonthName(t: MonthTag): string { t.name }
  function MonthKey(t: MonthTag): int { t.totalTenths }

  /**
   * The tag list of get_monthly_stats_data: ranked by hours descending,
   * then the unclassified tag removed; the same entries as the filter of
   * the unranked list, in ranked order.
   */
  function MonthlyTagList(tags: seq<MonthTag>): (r: seq<MonthTag>)
    ensures SortedDesc(r, MonthKey)
    ensures forall k :: 0 <= k < |r| ==> r[k].name != U
    ensures multiset(r) == multiset(Without(tags, MonthName, U))
  {
    var ranked := SortDesc(tags, MonthKey);
    WithoutKeepsOrder(ranked, MonthName, U, MonthKey);
    var r := Without(ranked, MonthName, U);
    assert multiset(r) == multiset(Without(tags, MonthName, U)) by {
      forall x ensures multiset(r)[x] == multiset(Without(tags, MonthName, U))[x] {
      }
    }
    r
  }
}
