// The `TimeBlock` table: one ten-minute slot of one user's day, its
// slot-index bounds, its (user, date, slot_index) uniqueness, the slot/time
// helpers of the model class and `clean`.
module TimeBlockModel {
  import opened Wrappers
  import opened Strings
  import TagModel
  import CoreUtils

  const MinSlotIndex: int := 0
  const MaxSlotIndex: int := 143

  /** A row; `date` is a day ordinal (the Python `date` as `toordinal()`). */
  datatype TimeBlock = TimeBlock(user: TagModel.UserId, date: int, slotIndex: int,
                                 tag: Option<TagModel.Tag>, memo: string)

  /** The Min/MaxValueValidator pair on `slot_index`. */
  predicate SlotIndexValid(i: int) { MinSlotIndex <= i <= MaxSlotIndex }

  /** unique_user_date_slot: no two rows share user, date and slot index. */
  predicate UniqueUserDateSlot(blocks: seq<TimeBlock>) {
    forall i, j :: 0 <= i < j < |blocks| ==>
      (blocks[i].user, blocks[i].date, blocks[i].slotIndex) !=
      (blocks[j].user, blocks[j].date, blocks[j].slotIndex)
  }

  /** Within one user's day, unique rows have pairwise different slot indexes. */
  lemma UniqueDaySlotsDistinct(blocks: seq<TimeBlock>, user: TagModel.UserId, date: int)
    requires UniqueUserDateSlot(blocks)
    requires forall k :: 0 <= k < |blocks| ==> blocks[k].user == user && blocks[k].date == date
    ensures forall i, j :: 0 <= i < j < |blocks| ==> blocks[i].slotIndex != blocks[j].slotIndex
  {
    forall i, j | 0 <= i < j < |blocks| ensures blocks[i].slotIndex != blocks[j].slotIndex {
      assert (blocks[i].user, blocks[i].date, blocks[i].slotIndex) !=
             (blocks[j].user, blocks[j].date, blocks[j].slotIndex);
    }
  }

  // ---------------------------------------------------------------------
  // Slot/time helpers of the model class

  /** `time_to_slot_index`: hour * 6 + minute // 10. */
  function TimeToSlotIndex(hour: int, minute: int): (r: int)
    ensures 0 <= minute < 60 ==> 10 * r <= 60 * hour + minute < 10 * r + 10
  {
    hour * 6 + minute / 10
  }

  /** `slot_index_to_time`: divmod(slot_index * 10, 60). */
  function SlotIndexToTime(slotIndex: int): (r: (int, int))
    ensures 60 * r.0 + r.1 == 10 * slotIndex && 0 <= r.1 < 60
  {
    (slotIndex * 10 / 60, slotIndex * 10 % 60)
  }

  lemma SlotIndexToTimeToSlotIndex(i: int)
    ensures TimeToSlotIndex(SlotIndexToTime(i).0, SlotIndexToTime(i).1) == i
  {
    var q, r := i / 6, i % 6;
    assert i * 10 == 60 * q + 10 * r;
    assert i * 10 / 60 == q && i * 10 % 60 == 10 * r;
  }

  lemma TimeToSlotIndexToTime(hour: int, minute: int)
    requires 0 <= minute < 60
    ensures SlotIndexToTime(TimeToSlotIndex(hour, minute)) == (hour, minute - minute % 10)
  {
    var q := minute / 10;
    var s := hour * 6 + q;
    assert s * 10 == 60 * hour + 10 * q;
    assert 0 <= 10 * q < 60;
    assert s * 10 / 60 == hour && s * 10 % 60 == 10 * q;
  }

  /** The model-class helpers agree with the shared helpers of core/utils.py. */
  lemma HelpersAgreeWithCore(i: int, hour: int, minute: int)
    ensures SlotIndexToTime(i) == CoreUtils.GetTimeFromSlot(i)
    ensures TimeToSlotIndex(hour, minute) == CoreUtils.GetSlotFromTime(hour, minute)
  {
    var q, r := i / 6, i % 6;
    assert i * 10 == 60 * q + 10 * r;
    assert i * 10 / 60 == q && i * 10 % 60 == 10 * r;
    var m := minute / 10;
    assert (m * 10) / 10 == m;
  }

  /** "HH:MM" as a number of minutes after midnight. */
  function ClockMinutes(s: string): int
    requires |s| == 5 && AllDigits(s[..2]) && AllDigits(s[3..])
  {
    DigitsValue(s[..2]) * 60 + DigitsValue(s[3..])
  }

  /** Python `f"{h:02d}:{m:02d}"` for a non-negative hour below 100. */
  function Clock(hour: nat, minute: nat): (s: string)
    requires hour < 100 && minute < 60
    ensures |s| == 5 && s[2] == ':' && AllDigits(s[..2]) && AllDigits(s[3..])
    ensures ClockMinutes(s) == hour * 60 + minute
  {
    var s := Pad2(hour) + ":" + Pad2(minute);
    assert s[..2] == Pad2(hour) && s[3..] == Pad2(minute);
    s
  }

  /** `get_time_range`: "HH:MM-HH:MM" from the slot's start to ten minutes later. */
  function GetTimeRange(slotIndex: nat): (r: string)
    requires slotIndex <= MaxSlotIndex
    ensures |r| == 11 && r[5] == '-'
    ensures |r[..5]| == 5 && r[..5][2] == ':' && AllDigits(r[..5][..2]) && AllDigits(r[..5][3..])
    ensures |r[6..]| == 5 && r[6..][2] == ':' && AllDigits(r[6..][..2]) && AllDigits(r[6..][3..])
    ensures ClockMinutes(r[..5]) == 10 * slotIndex
    ensures ClockMinutes(r[6..]) == ClockMinutes(r[..5]) + 10
  {
    var (sh, sm) := SlotIndexToTime(slotIndex);
    var (eh, em) := SlotIndexToTime(slotIndex + 1);
    assert sh <= 24 && eh <= 24;
    var a := Clock(sh, sm);
    var b := Clock(eh, em);
    RangeParts(a, b);
    a + "-" + b
  }

  /** The two clock texts of a range sit on either side of its dash. */
  lemma RangeParts(a: string, b: string)
    requires |a| == 5 && |b| == 5
    ensures |a + "-" + b| == 11 && (a + "-" + b)[5] == '-'
    ensures (a + "-" + b)[..5] == a && (a + "-" + b)[6..] == b
  {
  }

  /** The last slot of the day ends at 24:00. */
  lemma LastSlotRange()
    ensures GetTimeRange(143) == "23:50-24:00"
  {
    assert SlotIndexToTime(143) == (23, 50) && SlotIndexToTime(144) == (24, 0);
    ClockDigits(23, 50);
    ClockDigits(24, 0);
  }

  /** The first slot of the day starts at midnight. */
  lemma FirstSlotRange()
    ensures GetTimeRange(0) == "00:00-00:10"
  {
    assert SlotIndexToTime(0) == (0, 0) && SlotIndexToTime(1) == (0, 10);
    ClockDigits(0, 0);
    ClockDigits(0, 10);
  }

  /** The clock text digit by digit. */
  lemma ClockDigits(hour: nat, minute: nat)
    requires hour < 100 && minute < 60
    ensures Clock(hour, minute) ==
            [DigitChar(hour / 10), DigitChar(hour % 10), ':', DigitChar(minute / 10), DigitChar(minute % 10)]
  {
    Pad2Digits(hour);
    Pad2Digits(minute);
  }

  /** The name a block is shown under: its tag's, or the unclassified tag's when it has none. */
  function ShownTagName(b: TimeBlock): string {
    if b.tag.Some? then b.tag.value.name else CoreUtils.UnclassifiedTagName
  }

  /**
   * `__str__`: "user - date [HH:MM-HH:MM] tag". `username` gives a user's
   * name and `dateText` the ISO text of a day ordinal; neither is modelled.
   */
  function Str(b: TimeBlock, username: TagModel.UserId -> string, dateText: int -> string): (r: string)
    requires SlotIndexValid(b.slotIndex)
    ensures var head := username(b.user) + " - " + dateText(b.date) + " [";
            |r| == |head| + 13 + |ShownTagName(b)| && r[..|head|] == head &&
            r[|head|..|head| + 11] == GetTimeRange(b.slotIndex) &&
            r[|head| + 11..|head| + 13] == "] " && r[|head| + 13..] == ShownTagName(b)
  {
    var head := username(b.user) + " - " + dateText(b.date) + " [";
    var range := GetTimeRange(b.slotIndex);
    var r := head + range + "] " + ShownTagName(b);
    assert r[..|head|] == head;
    assert r[|head|..|head| + 11] == range;
    assert r[|head| + 11..|head| + 13] == "] ";
    assert r[|head| + 13..] == ShownTagName(b);
    r
  }

  /** A block without a tag, or whose tag was deleted, is shown as unclassified. */
  lemma StrOfUntagged(b: TimeBlock, username: TagModel.UserId -> string, dateText: int -> string)
    requires SlotIndexValid(b.slotIndex) && b.tag.None?
    ensures var r := Str(b, username, dateText);
            r[|r| - |CoreUtils.UnclassifiedTagName|..] == CoreUtils.UnclassifiedTagName
  {
    var r := Str(b, username, dateText);
    var head := username(b.user) + " - " + dateText(b.date) + " [";
    assert |r| - |CoreUtils.UnclassifiedTagName| == |head| + 13;
  }

  // ---------------------------------------------------------------------
  // clean

  const ForeignTagMessage: string := "다른 사용자의 태그는 사용할 수 없습니다."

  /** `clean`: refuses a non-default tag that belongs to anybody other than the block's user. */
  function Clean(b: TimeBlock): (err: Option<string>)
    ensures err.Some? <==> b.tag.Some? && !b.tag.value.isDefault && b.tag.value.user != Some(b.user)
    ensures err.Some? ==> err.value == ForeignTagMessage
  {
    if b.tag.Some? && !b.tag.value.isDefault && b.tag.value.user != Some(b.user)
    then Some(ForeignTagMessage) else None
  }

  /** Blocks without a tag, with a default tag, or with one of the user's own tags pass clean. */
  lemma CleanAcceptsOwnAndDefault(b: TimeBlock)
    requires b.tag.None? || b.tag.value.isDefault || b.tag.value.user == Some(b.user)
    ensures Clean(b).None?
  {
  }
}
