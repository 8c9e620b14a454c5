// The dashboard's server views: the 144-entry slot list of the page, and
// the time-block API that validates a request and then stores (POST) or
// removes (DELETE) the requested slots of one user's day. The database is a
// sequence of `TimeBlock` rows and the tag table a sequence of `Tag` rows.
module DashboardViews {
  import opened Wrappers
  import opened Strings
  import opened CoreUtils
  import opened TagModel
  import opened TimeBlockModel
  import Http

  // ---------------------------------------------------------------------
  // dashboard_view: the slot list

  /** `{"tag", "memo"}` of the block stored in a slot. */
  datatype SlotData = SlotData(tag: Option<Tag>, memo: string)

  /** One entry of `slots`. */
  datatype SlotEntry = SlotEntry(index: int, hour: int, minute: int, timeStr: string,
                                 data: Option<SlotData>)

  /** The slot indexes the day's blocks occupy: the keys of `slot_data`. */
  function OccupiedSlots(blocks: seq<TimeBlock>): set<int> {
    set k | 0 <= k < |blocks| :: blocks[k].slotIndex
  }

  /**
   * `slot_data.get(i)`. The dictionary is built in block order, so for a
   * repeated slot index the last block wins.
   */
  function SlotDataOf(blocks: seq<TimeBlock>, i: int): (r: Option<SlotData>)
    ensures r.Some? <==> i in OccupiedSlots(blocks)
    ensures r.Some? ==> exists k :: 0 <= k < |blocks| && blocks[k].slotIndex == i &&
                           r.value == SlotData(blocks[k].tag, blocks[k].memo) &&
                           forall j :: k < j < |blocks| ==> blocks[j].slotIndex != i
  {
    if blocks == [] then None
    else if Last(blocks).slotIndex == i then
      Some(SlotData(Last(blocks).tag, Last(blocks).memo))
    else
      var r := SlotDataOf(Front(blocks), i);
      assert OccupiedSlots(blocks) == OccupiedSlots(Front(blocks)) + {Last(blocks).slotIndex} by {
        assert forall k :: 0 <= k < |blocks| - 1 ==> Front(blocks)[k] == blocks[k];
      }
      r
  }

  /**
   * The loop building `slots`: entry i is slot i, its start time as hour
   * and minute, that time as "HH:MM", and the block stored there.
   */
  method BuildSlots(blocks: seq<TimeBlock>) returns (slots: seq<SlotEntry>)
    ensures |slots| == TotalSlotsPerDay
    ensures forall i :: 0 <= i < |slots| ==>
              slots[i].index == i &&
              (slots[i].hour, slots[i].minute) == GetTimeFromSlot(i) &&
              0 <= slots[i].hour < HoursPerDay && 0 <= slots[i].minute < 60 &&
              GetSlotFromTime(slots[i].hour, slots[i].minute) == i &&
              slots[i].timeStr == Clock(slots[i].hour, slots[i].minute) &&
              ClockMinutes(slots[i].timeStr) == 10 * i &&
              slots[i].data == SlotDataOf(blocks, i)
  {
    slots := [];
    var i := 0;
    while i < TotalSlotsPerDay
      invariant 0 <= i <= TotalSlotsPerDay && |slots| == i
      invariant forall j :: 0 <= j < i ==>
                  slots[j].index == j &&
                  (slots[j].hour, slots[j].minute) == GetTimeFromSlot(j) &&
                  0 <= slots[j].hour < HoursPerDay && 0 <= slots[j].minute < 60 &&
                  GetSlotFromTime(slots[j].hour, slots[j].minute) == j &&
                  slots[j].timeStr == Clock(slots[j].hour, slots[j].minute) &&
                  ClockMinutes(slots[j].timeStr) == 10 * j &&
                  slots[j].data == SlotDataOf(blocks, j)
    {
      var (hour, minute) := GetTimeFromSlot(i);
      GetTimeFromSlotBounds(i);
      SlotFromTimeFromSlot(i);
      var entry := SlotEntry(i, hour, minute, Clock(hour, minute), SlotDataOf(blocks, i));
      assert ClockMinutes(entry.timeStr) == 10 * i by {
        assert hour * 60 + minute == 10 * i;
      }
      slots := slots + [entry];
      i := i + 1;
    }
  }

  /**
   * `filled_slots` is `len(slot_data)`; when every stored index is a valid
   * slot, that is the number of entries of the list that carry data.
   */
  lemma FilledSlotsAreEntriesWithData(blocks: seq<TimeBlock>)
    requires forall k :: 0 <= k < |blocks| ==> SlotIndexValid(blocks[k].slotIndex)
    ensures (set i | 0 <= i < TotalSlotsPerDay && SlotDataOf(blocks, i).Some?) == OccupiedSlots(blocks)
    ensures |OccupiedSlots(blocks)| <= TotalSlotsPerDay
  {
    var occupied := set i | 0 <= i < TotalSlotsPerDay && SlotDataOf(blocks, i).Some?;
    forall i | i in OccupiedSlots(blocks) ensures 0 <= i < TotalSlotsPerDay && i in occupied {
      var k :| 0 <= k < |blocks| && blocks[k].slotIndex == i;
      assert SlotIndexValid(blocks[k].slotIndex);
    }
    BoundedSetSize(OccupiedSlots(blocks), TotalSlotsPerDay);
  }

  /** A set of integers from [0, n) has at most n elements. */
  lemma BoundedSetSize(a: set<int>, n: nat)
    requires forall i :: i in a ==> 0 <= i < n
    ensures |a| <= n
  {
    var r := SlotRange(n);
    assert a <= r;
    assert r == a + (r - a);
    assert a * (r - a) == {};
  }

  /** The integers 0 .. n-1. */
  function SlotRange(n: nat): (r: set<int>)
    ensures |r| == n && forall i :: i in r <==> 0 <= i < n
  {
    if n == 0 then {} else
      var r := SlotRange(n - 1);
      assert n - 1 !in r;
      r + {n - 1}
  }

  /** `time_headers`: `(i*10 - 1) % 60 + 1` minutes for i in 1..12. */
  function TimeHeaders(): (r: seq<string>)
    ensures |r| == 12
    ensures forall i :: 0 <= i < 12 ==> r[i] == NatToString(10 * (i % 6) + 10) + "분"
  {
    var r := seq(12, i requires 0 <= i < 12 => NatToString(((i + 1) * 10 - 1) % 60 + 1) + "분");
    forall i | 0 <= i < 12 ensures ((i + 1) * 10 - 1) % 60 + 1 == 10 * (i % 6) + 10 {
      HeaderMinute(i);
    }
    r
  }

  lemma HeaderMinute(i: int)
    requires 0 <= i < 12
    ensures ((i + 1) * 10 - 1) % 60 + 1 == 10 * (i % 6) + 10
  {
    if i < 6 {
      assert (i + 1) * 10 - 1 == 10 * i + 9 < 60;
    } else {
      assert (i + 1) * 10 - 1 == 60 + (10 * (i - 6) + 9);
    }
  }

  /** The headers read ten to sixty minutes, twice: one row per ten-minute column, two rows. */
  lemma HeadersRepeatEveryHour()
    ensures forall i :: 0 <= i < 6 ==> TimeHeaders()[i] == TimeHeaders()[i + 6]
  {
    var h := TimeHeaders();
    forall i | 0 <= i < 6 ensures h[i] == h[i + 6] {
      assert (i + 6) % 6 == i % 6;
    }
  }

  /** The first row of headers starts at "10분" and ends at "60분". */
  lemma HeaderEnds()
    ensures TimeHeaders()[0] == "10분" && TimeHeaders()[5] == "60분"
  {
    var h := TimeHeaders();
    assert 0 % 6 == 0 && 5 % 6 == 5;
    assert h[0] == NatToString(10) + "분" && h[5] == NatToString(60) + "분";
    Render2(1, 0);
    Render2(6, 0);
  }

  lemma Render2(a: nat, b: nat)
    requires 1 <= a < 10 && b < 10
    ensures NatToString(10 * a + b) == [DigitChar(a), DigitChar(b)]
  {
    assert (10 * a + b) / 10 == a && (10 * a + b) % 10 == b;
  }

  // ---------------------------------------------------------------------
  // time_block_api: request validation

  /** `json.loads(request.body)` with its `slot_indexes`, `date`, `tag_id` and `memo`. */
  datatype RequestBody = RequestBody(slotIndexes: seq<int>, date: Option<string>,
                                     tagId: Option<int>, memo: string)

  datatype Verb = Post | Delete

  const MissingSlotsMessage := "슬롯 인덱스가 누락되었습니다."
  const MissingDateMessage := "날짜가 누락되었습니다."
  const InvalidDateFormatMessage := "올바른 날짜 형식(YYYY-MM-DD)을 사용해주세요."
  const InvalidJsonMessage := "올바른 JSON 형식이 아닙니다."
  const MissingTagMessage := "태그가 선택되지 않았습니다."
  const TagNotFoundMessage := "존재하지 않는 태그이거나 접근 권한이 없습니다."
  const NoBlocksMessage := "삭제할 기록이 없습니다."
  const SaveErrorPrefix := "저장 중 오류가 발생했습니다: "
  const SavedSuffix := "개의 슬롯이 저장되었습니다."
  const DeletedSuffix := "개의 슬롯이 삭제되었습니다."

  const InvalidDateFormatCode := "INVALID_DATE_FORMAT"

  /**
   * The `try` block of time_block_api. `body` is None when the body is not
   * JSON; `today` is the server's date and `parsed` what strptime makes of
   * the date string. A date string that does not parse silently becomes
   * today, so INVALID_DATE_FORMAT is never answered.
   */
  function ValidateRequest(body: Option<RequestBody>, today: Date, parsed: Option<Date>): (r: Result<Date, JsonResponse>)
    ensures body.None? ==> r == Err(ErrorResponse(InvalidJsonMessage, Some("INVALID_JSON"), 400))
    ensures r.Err? <==> body.None? || body.value.slotIndexes == [] ||
                        body.value.date.None? || body.value.date.value == ""
    ensures body.Some? && body.value.slotIndexes == [] ==>
              r == Err(ErrorResponse(MissingSlotsMessage, Some("MISSING_SLOTS"), 400))
    ensures body.Some? && body.value.slotIndexes != [] && r.Err? ==>
              r == Err(ErrorResponse(MissingDateMessage, Some("MISSING_DATE"), 400))
    ensures r.Err? ==> r.error.status == 400 && r.error.error != Some(InvalidDateFormatCode)
    ensures r.Ok? ==> r.value == (if parsed.Some? then parsed.value else today)
  {
    match body
    case None => Err(ErrorResponse(InvalidJsonMessage, Some("INVALID_JSON"), DefaultErrorStatus))
    case Some(data) =>
      if data.slotIndexes == [] then
        Err(ErrorResponse(MissingSlotsMessage, Some("MISSING_SLOTS"), DefaultErrorStatus))
      else if data.date.None? || data.date.value == "" then
        Err(ErrorResponse(MissingDateMessage, Some("MISSING_DATE"), DefaultErrorStatus))
      else
        Ok(SafeDateParse(data.date, None, today, parsed))
  }

  // ---------------------------------------------------------------------
  // Rows of one user's day

  /** A row of `user`'s `date`. */
  predicate OnDay(b: TimeBlock, user: UserId, date: int) { b.user == user && b.date == date }

  /** A row the request names: `filter(user=, date=, slot_index__in=slot_indexes)`. */
  predicate Requested(b: TimeBlock, user: UserId, date: int, slotIndexes: seq<int>) {
    OnDay(b, user, date) && b.slotIndex in slotIndexes
  }

  /** `existing_slots.get(i)`: the day's row in slot i (the last one, were there several). */
  function ExistingBlock(db: seq<TimeBlock>, user: UserId, date: int, i: int): (r: Option<TimeBlock>)
    ensures r.Some? ==> r.value in db && OnDay(r.value, user, date) && r.value.slotIndex == i
    ensures r.None? ==> forall b :: b in db ==> !(OnDay(b, user, date) && b.slotIndex == i)
  {
    if db == [] then None
    else if OnDay(Last(db), user, date) && Last(db).slotIndex == i then Some(Last(db))
    else
      assert db == Front(db) + [Last(db)];
      ExistingBlock(Front(db), user, date, i)
  }

  /** The requested indexes that have no row yet, in request order. */
  function Fresh(db: seq<TimeBlock>, user: UserId, date: int, slotIndexes: seq<int>): (r: seq<int>)
    ensures forall i :: i in r <==> i in slotIndexes && ExistingBlock(db, user, date, i).None?
  {
    if slotIndexes == [] then []
    else
      var f := Fresh(db, user, date, Front(slotIndexes));
      assert slotIndexes == Front(slotIndexes) + [Last(slotIndexes)];
      if ExistingBlock(db, user, date, Last(slotIndexes)).None? then f + [Last(slotIndexes)] else f
  }

  /** The rows of the requested indexes that exist, in request order. */
  function Stale(db: seq<TimeBlock>, user: UserId, date: int, slotIndexes: seq<int>): (r: seq<TimeBlock>)
    ensures forall b :: b in r ==> b.slotIndex in slotIndexes &&
                                   ExistingBlock(db, user, date, b.slotIndex) == Some(b)
    ensures forall i :: i in slotIndexes && ExistingBlock(db, user, date, i).Some? ==>
                          ExistingBlock(db, user, date, i).value in r
  {
    if slotIndexes == [] then []
    else
      var s := Stale(db, user, date, Front(slotIndexes));
      assert slotIndexes == Front(slotIndexes) + [Last(slotIndexes)];
      match ExistingBlock(db, user, date, Last(slotIndexes))
      case None => s
      case Some(b) => s + [b]
  }

  /** Every requested index goes to exactly one of the two lists. */
  lemma {:induction false} FreshStaleCount(db: seq<TimeBlock>, user: UserId, date: int, slotIndexes: seq<int>)
    ensures |Fresh(db, user, date, slotIndexes)| + |Stale(db, user, date, slotIndexes)| == |slotIndexes|
  {
    if slotIndexes != [] {
      FreshStaleCount(db, user, date, Front(slotIndexes));
    }
  }

  predicate Distinct(s: seq<int>) {
    forall i, j :: 0 <= i < j < |s| ==> s[i] != s[j]
  }

  /** A request without repeated indexes creates no slot twice. */
  lemma {:induction false} DistinctFresh(db: seq<TimeBlock>, user: UserId, date: int, slotIndexes: seq<int>)
    requires Distinct(slotIndexes)
    ensures Distinct(Fresh(db, user, date, slotIndexes))
  {
    if slotIndexes != [] {
      var front := Front(slotIndexes);
      assert Distinct(front);
      DistinctFresh(db, user, date, front);
      assert Last(slotIndexes) !in front by {
        assert forall k :: 0 <= k < |front| ==> front[k] == slotIndexes[k];
      }
    }
  }

  // ---------------------------------------------------------------------
  // _handle_time_block_create_update

  /** `Tag.objects.get(Q(id=tag_id, user=user) | Q(id=tag_id, is_default=True))`. */
  predicate Usable(t: Tag, id: int, user: UserId) {
    t.id == id && (t.user == Some(user) || t.isDefault)
  }

  function FindTag(tags: seq<Tag>, id: int, user: UserId): (r: Option<Tag>)
    ensures r.Some? ==> r.value in tags && Usable(r.value, id, user)
    ensures r.None? ==> forall t :: t in tags ==> !Usable(t, id, user)
  {
    if tags == [] then None
    else if Usable(tags[0], id, user) then Some(tags[0])
    else
      assert tags == [tags[0]] + tags[1..];
      FindTag(tags[1..], id, user)
  }

  /** `not tag_id`: absent, null or 0. */
  predicate TagGiven(tagId: Option<int>) { tagId.Some? && tagId.value != 0 }

  /** The unsaved `TimeBlock(...)` objects for the new indexes. */
  function NewBlocks(user: UserId, date: int, newSlots: seq<int>, tag: Tag, memo: string): (r: seq<TimeBlock>)
    ensures |r| == |newSlots|
    ensures forall k :: 0 <= k < |r| ==> r[k] == TimeBlock(user, date, newSlots[k], Some(tag), memo)
  {
    seq(|newSlots|, k requires 0 <= k < |newSlots| => TimeBlock(user, date, newSlots[k], Some(tag), memo))
  }

  /** The existing rows with `block.tag = tag` and `block.memo = memo` set. */
  function Retagged(rows: seq<TimeBlock>, tag: Tag, memo: string): (r: seq<TimeBlock>)
    ensures |r| == |rows|
    ensures forall k :: 0 <= k < |r| ==> r[k] == rows[k].(tag := Some(tag), memo := memo)
  {
    seq(|rows|, k requires 0 <= k < |rows| => rows[k].(tag := Some(tag), memo := memo))
  }

  /** The row key of the uniqueness constraint; the row's primary key stands in for it. */
  function Key(b: TimeBlock): (UserId, int, int) { (b.user, b.date, b.slotIndex) }

  /** The row as `bulk_update` leaves it: replaced by the first update with its key. */
  function Replaced(b: TimeBlock, updates: seq<TimeBlock>): (r: TimeBlock)
    ensures Key(r) == Key(b)
    ensures (exists u :: u in updates && Key(u) == Key(b)) ==> r in updates
    ensures (forall u :: u in updates ==> Key(u) != Key(b)) ==> r == b
  {
    if updates == [] then b
    else if Key(updates[0]) == Key(b) then updates[0]
    else
      assert updates == [updates[0]] + updates[1..];
      Replaced(b, updates[1..])
  }

  /** `bulk_update(rows, ["tag", "memo"])` on the whole table. */
  function BulkUpdate(db: seq<TimeBlock>, updates: seq<TimeBlock>): (r: seq<TimeBlock>)
    ensures |r| == |db|
    ensures forall k :: 0 <= k < |r| ==> r[k] == Replaced(db[k], updates)
  {
    seq(|db|, k requires 0 <= k < |db| => Replaced(db[k], updates))
  }

  /**
   * What a POST does to the table and what it answers. `dbError` is the
   * text of the integrity error the database raises when `bulk_create`
   * inserts one slot twice (a request repeating a new index).
   */
  function CreateUpdateOutcome(db: seq<TimeBlock>, tags: seq<Tag>, user: UserId, date: int,
                               body: RequestBody, dbError: string): (r: (JsonResponse, seq<TimeBlock>))
    ensures !r.0.success ==> r.1 == db
    ensures !TagGiven(body.tagId) ==> r.0 == ErrorResponse(MissingTagMessage, Some("MISSING_TAG"), 400)
    ensures TagGiven(body.tagId) && (forall t :: t in tags ==> !Usable(t, body.tagId.value, user)) ==>
              r.0 == ErrorResponse(TagNotFoundMessage, Some("TAG_NOT_FOUND"), 404)
    ensures r.0.success ==> (r.0.status == 201 && TagGiven(body.tagId) &&
                             FindTag(tags, body.tagId.value, user).Some?)
  {
    if !TagGiven(body.tagId) then
      (ErrorResponse(MissingTagMessage, Some("MISSING_TAG"), DefaultErrorStatus), db)
    else
      match FindTag(tags, body.tagId.value, user)
      case None => (ErrorResponse(TagNotFoundMessage, Some("TAG_NOT_FOUND"), 404), db)
      case Some(tag) =>
        var idxs := body.slotIndexes;
        var newSlots := Fresh(db, user, date, idxs);
        var stale := Stale(db, user, date, idxs);
        if !Distinct(newSlots) then
          (ErrorResponse(SaveErrorPrefix + dbError, Some("SERVER_ERROR"), 500), db)
        else
          (SuccessResponse(Http.CountMessage(|idxs|, SavedSuffix),
                           SavedData(|newSlots|, |stale|, |idxs|, tag), 201),
           BulkUpdate(db, Retagged(stale, tag, body.memo)) + NewBlocks(user, date, newSlots, tag, body.memo))
  }

  /** The `data` of a successful save. */
  function SavedData(created: nat, updated: nat, total: nat, tag: Tag): Json {
    JObject([("created_count", JInt(created)), ("updated_count", JInt(updated)),
             ("total_count", JInt(total)),
             ("tag", JObject([("id", JInt(tag.id)), ("name", JStr(tag.name)), ("color", JStr(tag.color))]))])
  }

  /** The loop of lines deciding, slot by slot, between update and create. */
  method PartitionSlots(db: seq<TimeBlock>, user: UserId, date: int, slotIndexes: seq<int>,
                        tag: Tag, memo: string)
    returns (toCreate: seq<TimeBlock>, toUpdate: seq<TimeBlock>)
    ensures toCreate == NewBlocks(user, date, Fresh(db, user, date, slotIndexes), tag, memo)
    ensures toUpdate == Retagged(Stale(db, user, date, slotIndexes), tag, memo)
  {
    toCreate, toUpdate := [], [];
    var i := 0;
    while i < |slotIndexes|
      invariant 0 <= i <= |slotIndexes|
      invariant toCreate == NewBlocks(user, date, Fresh(db, user, date, slotIndexes[..i]), tag, memo)
      invariant toUpdate == Retagged(Stale(db, user, date, slotIndexes[..i]), tag, memo)
    {
      PrefixStep(slotIndexes, i);
      var slotIndex := slotIndexes[i];
      var existing := ExistingBlock(db, user, date, slotIndex);
      if existing.Some? {
        toUpdate := toUpdate + [existing.value.(tag := Some(tag), memo := memo)];
      } else {
        toCreate := toCreate + [TimeBlock(user, date, slotIndex, Some(tag), memo)];
      }
      i := i + 1;
    }
    assert slotIndexes[..i] == slotIndexes;
  }

  /** The block indexes `bulk_create` would insert are pairwise different. */
  predicate InsertableSlots(rows: seq<TimeBlock>) {
    forall i, j :: 0 <= i < j < |rows| ==> rows[i].slotIndex != rows[j].slotIndex
  }

  /** _handle_time_block_create_update, with the table before and after. */
  method HandleCreateUpdate(db: seq<TimeBlock>, tags: seq<Tag>, user: UserId, date: int,
                            body: RequestBody, dbError: string)
    returns (response: JsonResponse, dbAfter: seq<TimeBlock>)
    ensures (response, dbAfter) == CreateUpdateOutcome(db, tags, user, date, body, dbError)
  {
    if !TagGiven(body.tagId) {
      return ErrorResponse(MissingTagMessage, Some("MISSING_TAG"), DefaultErrorStatus), db;
    }
    var found := FindTag(tags, body.tagId.value, user);
    if found.None? {
      return ErrorResponse(TagNotFoundMessage, Some("TAG_NOT_FOUND"), 404), db;
    }
    var tag := found.value;
    var toCreate, toUpdate := PartitionSlots(db, user, date, body.slotIndexes, tag, body.memo);
    if !InsertableSlots(toCreate) {
      return ErrorResponse(SaveErrorPrefix + dbError, Some("SERVER_ERROR"), 500), db;
    }
    var created, updated := |toCreate|, |toUpdate|;
    dbAfter := BulkUpdate(db, toUpdate) + toCreate;
    response := SuccessResponse(Http.CountMessage(|body.slotIndexes|, SavedSuffix),
                                SavedData(created, updated, |body.slotIndexes|, tag), 201);
  }

  /** A successful save reports created + updated == total == the number of requested indexes. */
  lemma SaveCounts(db: seq<TimeBlock>, tags: seq<Tag>, user: UserId, date: int,
                   body: RequestBody, dbError: string)
    requires CreateUpdateOutcome(db, tags, user, date, body, dbError).0.success
    ensures var created := |Fresh(db, user, date, body.slotIndexes)|;
            var updated := |Stale(db, user, date, body.slotIndexes)|;
            CreateUpdateOutcome(db, tags, user, date, body, dbError).0.data ==
              Some(SavedData(created, updated, |body.slotIndexes|, FindTag(tags, body.tagId.value, user).value)) &&
            created + updated == |body.slotIndexes|
  {
    FreshStaleCount(db, user, date, body.slotIndexes);
    var tag := FindTag(tags, body.tagId.value, user).value;
    var data := SavedData(|Fresh(db, user, date, body.slotIndexes)|,
                          |Stale(db, user, date, body.slotIndexes)|, |body.slotIndexes|, tag);
    assert Truthy(data);
    assert CreateUpdateOutcome(db, tags, user, date, body, dbError).0 ==
             SuccessResponse(Http.CountMessage(|body.slotIndexes|, SavedSuffix), data, 201);
  }

  /** A usable tag and a request without repeated indexes always save. */
  lemma DistinctRequestSaves(db: seq<TimeBlock>, tags: seq<Tag>, user: UserId, date: int,
                             body: RequestBody, dbError: string)
    requires TagGiven(body.tagId) && exists t :: t in tags && Usable(t, body.tagId.value, user)
    requires Distinct(body.slotIndexes)
    ensures CreateUpdateOutcome(db, tags, user, date, body, dbError).0.success
  {
    DistinctFresh(db, user, date, body.slotIndexes);
  }

  /** Without a tag nothing is looked up or written. */
  lemma MissingTagTouchesNothing(db: seq<TimeBlock>, tags: seq<Tag>, user: UserId, date: int,
                                 body: RequestBody, dbError: string)
    requires !TagGiven(body.tagId)
    ensures CreateUpdateOutcome(db, tags, user, date, body, dbError) ==
              (ErrorResponse(MissingTagMessage, Some("MISSING_TAG"), 400), db)
  {
  }

  /** Under the uniqueness constraint, `b` is the only row with its key. */
  lemma OnlyRowWithKey(db: seq<TimeBlock>, k: nat, b: TimeBlock)
    requires UniqueUserDateSlot(db) && k < |db| && b in db && Key(b) == Key(db[k])
    ensures b == db[k]
  {
    var j :| 0 <= j < |db| && db[j] == b;
    assert Key(db[j]) == Key(db[k]);
  }

  /**
   * A save changes exactly the requested rows of the day, giving them the
   * new tag and memo and keeping everything else about them, leaves every
   * other row as it was, and appends the new rows after them.
   */
  lemma SaveTouchesOnlyRequested(db: seq<TimeBlock>, tags: seq<Tag>, user: UserId, date: int,
                                 body: RequestBody, dbError: string)
    requires UniqueUserDateSlot(db)
    requires CreateUpdateOutcome(db, tags, user, date, body, dbError).0.success
    ensures var after := CreateUpdateOutcome(db, tags, user, date, body, dbError).1;
            var tag := FindTag(tags, body.tagId.value, user).value;
            |after| == |db| + |Fresh(db, user, date, body.slotIndexes)| &&
            (forall k :: 0 <= k < |db| && !Requested(db[k], user, date, body.slotIndexes) ==>
               after[k] == db[k]) &&
            (forall k :: 0 <= k < |db| && Requested(db[k], user, date, body.slotIndexes) ==>
               after[k] == db[k].(tag := Some(tag), memo := body.memo))
  {
    var tag := FindTag(tags, body.tagId.value, user).value;
    var stale := Stale(db, user, date, body.slotIndexes);
    var updates := Retagged(stale, tag, body.memo);
    forall k | 0 <= k < |db| && !Requested(db[k], user, date, body.slotIndexes)
      ensures Replaced(db[k], updates) == db[k]
    {
      forall u | u in updates ensures Key(u) != Key(db[k]) {
        var j :| 0 <= j < |updates| && updates[j] == u;
        assert stale[j] in stale;
      }
    }
    forall k | 0 <= k < |db| && Requested(db[k], user, date, body.slotIndexes)
      ensures Replaced(db[k], updates) == db[k].(tag := Some(tag), memo := body.memo)
    {
      RequestedRowRetagged(db, user, date, body.slotIndexes, tag, body.memo, k);
    }
  }

  lemma RequestedRowRetagged(db: seq<TimeBlock>, user: UserId, date: int, slotIndexes: seq<int>,
                             tag: Tag, memo: string, k: nat)
    requires UniqueUserDateSlot(db) && k < |db| && Requested(db[k], user, date, slotIndexes)
    ensures Replaced(db[k], Retagged(Stale(db, user, date, slotIndexes), tag, memo)) ==
            db[k].(tag := Some(tag), memo := memo)
  {
    var stale := Stale(db, user, date, slotIndexes);
    var updates := Retagged(stale, tag, memo);
    var e := ExistingBlock(db, user, date, db[k].slotIndex).value;
    OnlyRowWithKey(db, k, e);
    var j :| 0 <= j < |stale| && stale[j] == e;
    assert updates[j] == db[k].(tag := Some(tag), memo := memo);
    assert updates[j] in updates && Key(updates[j]) == Key(db[k]);
    var r := Replaced(db[k], updates);
    var i :| 0 <= i < |updates| && updates[i] == r;
    assert stale[i] in stale;
    OnlyRowWithKey(db, k, stale[i]);
  }

  /** A save keeps the table's (user, date, slot_index) uniqueness. */
  lemma SaveKeepsUniqueness(db: seq<TimeBlock>, tags: seq<Tag>, user: UserId, date: int,
                            body: RequestBody, dbError: string)
    requires UniqueUserDateSlot(db)
    requires CreateUpdateOutcome(db, tags, user, date, body, dbError).0.success
    ensures UniqueUserDateSlot(CreateUpdateOutcome(db, tags, user, date, body, dbError).1)
  {
    var tag := FindTag(tags, body.tagId.value, user).value;
    var newSlots := Fresh(db, user, date, body.slotIndexes);
    var updated := BulkUpdate(db, Retagged(Stale(db, user, date, body.slotIndexes), tag, body.memo));
    var created := NewBlocks(user, date, newSlots, tag, body.memo);
    var after := updated + created;
    assert after == CreateUpdateOutcome(db, tags, user, date, body, dbError).1;
    forall i, j | 0 <= i < j < |after| ensures Key(after[i]) != Key(after[j]) {
      if j < |db| {
        assert Key(after[i]) == Key(db[i]) && Key(after[j]) == Key(db[j]);
        assert (db[i].user, db[i].date, db[i].slotIndex) != (db[j].user, db[j].date, db[j].slotIndex);
      } else if i < |db| {
        var f := newSlots[j - |db|];
        assert f in newSlots;
        assert db[i] in db;
        assert Key(after[i]) == Key(db[i]);
      } else {
        assert newSlots[i - |db|] != newSlots[j - |db|];
      }
    }
  }

  /** After a save every requested slot of the day holds a row with the new tag and memo. */
  lemma SavedSlotsCarryTag(db: seq<TimeBlock>, tags: seq<Tag>, user: UserId, date: int,
                           body: RequestBody, dbError: string, i: int)
    requires UniqueUserDateSlot(db)
    requires CreateUpdateOutcome(db, tags, user, date, body, dbError).0.success
    requires i in body.slotIndexes
    ensures var after := CreateUpdateOutcome(db, tags, user, date, body, dbError).1;
            exists k :: 0 <= k < |after| && OnDay(after[k], user, date) && after[k].slotIndex == i &&
                        after[k].tag == FindTag(tags, body.tagId.value, user) && after[k].memo == body.memo
  {
    var after := CreateUpdateOutcome(db, tags, user, date, body, dbError).1;
    var newSlots := Fresh(db, user, date, body.slotIndexes);
    SaveTouchesOnlyRequested(db, tags, user, date, body, dbError);
    match ExistingBlock(db, user, date, i)
    case Some(e) =>
      var k :| 0 <= k < |db| && db[k] == e;
      assert Requested(db[k], user, date, body.slotIndexes);
      assert OnDay(after[k], user, date) && after[k].slotIndex == i;
    case None =>
      assert i in newSlots;
      var j :| 0 <= j < |newSlots| && newSlots[j] == i;
      assert after[|db| + j] == TimeBlock(user, date, i, FindTag(tags, body.tagId.value, user), body.memo);
  }

  // ---------------------------------------------------------------------
  // _handle_time_block_delete

  /** The rows a DELETE leaves: all but the requested rows of the day, in order. */
  function Kept(db: seq<TimeBlock>, user: UserId, date: int, slotIndexes: seq<int>): (r: seq<TimeBlock>)
    ensures |r| <= |db|
    ensures forall b :: b in r <==> b in db && !Requested(b, user, date, slotIndexes)
    ensures |r| == |db| <==> forall k :: 0 <= k < |db| ==> !Requested(db[k], user, date, slotIndexes)
    ensures |r| == |db| ==> r == db
  {
    if db == [] then []
    else
      var r := Kept(Front(db), user, date, slotIndexes);
      assert db == Front(db) + [Last(db)];
      assert forall k :: 0 <= k < |db| - 1 ==> Front(db)[k] == db[k];
      if Requested(Last(db), user, date, slotIndexes) then r else r + [Last(db)]
  }

  /** _handle_time_block_delete: the answer and the table afterwards. */
  function DeleteOutcome(db: seq<TimeBlock>, user: UserId, date: int, slotIndexes: seq<int>): (r: (JsonResponse, seq<TimeBlock>))
    ensures |r.1| <= |db|
    ensures forall b :: b in r.1 <==> b in db && !Requested(b, user, date, slotIndexes)
    ensures !r.0.success <==> slotIndexes != [] &&
                              forall k :: 0 <= k < |db| ==> !Requested(db[k], user, date, slotIndexes)
    ensures !r.0.success ==> r.0 == ErrorResponse(NoBlocksMessage, Some("NO_BLOCKS_FOUND"), 404) && r.1 == db
    ensures r.0.success ==> (r.0.status == 200 &&
                             r.0.message == Http.CountMessage(|db| - |r.1|, DeletedSuffix) &&
                             r.0.data == Some(JObject([("deleted_count", JInt(|db| - |r.1|)),
                                                       ("requested_count", JInt(|slotIndexes|))])))
  {
    var kept := Kept(db, user, date, slotIndexes);
    var deleted := |db| - |kept|;
    if deleted == 0 && |slotIndexes| > 0 then
      (ErrorResponse(NoBlocksMessage, Some("NO_BLOCKS_FOUND"), 404), kept)
    else
      (SuccessResponse(Http.CountMessage(deleted, DeletedSuffix),
                       JObject([("deleted_count", JInt(deleted)), ("requested_count", JInt(|slotIndexes|))]),
                       DefaultSuccessStatus),
       kept)
  }

  /** Deleting twice answers NO_BLOCKS_FOUND the second time and changes nothing more. */
  lemma DeleteTwice(db: seq<TimeBlock>, user: UserId, date: int, slotIndexes: seq<int>)
    requires slotIndexes != []
    ensures var once := DeleteOutcome(db, user, date, slotIndexes).1;
            DeleteOutcome(once, user, date, slotIndexes) ==
              (ErrorResponse(NoBlocksMessage, Some("NO_BLOCKS_FOUND"), 404), once)
  {
    var once := DeleteOutcome(db, user, date, slotIndexes).1;
    assert forall k :: 0 <= k < |once| ==> once[k] in once;
  }

  // ---------------------------------------------------------------------
  // time_block_api

  /**
   * The whole endpoint: validation, then the POST or DELETE handler on the
   * parsed date. `today` and the strptime result are the clock's and the
   * parser's contributions.
   */
  method TimeBlockApi(verb: Verb, body: Option<RequestBody>, today: Date, parsed: Option<Date>,
                      db: seq<TimeBlock>, tags: seq<Tag>, user: UserId, dbError: string)
    returns (response: JsonResponse, dbAfter: seq<TimeBlock>)
    requires ValidDate(today) && (parsed.Some? ==> ValidDate(parsed.value))
    ensures response.error != Some(InvalidDateFormatCode)
    ensures ValidateRequest(body, today, parsed).Err? ==>
              response == ValidateRequest(body, today, parsed).error && dbAfter == db
    ensures ValidateRequest(body, today, parsed).Ok? && verb == Post ==>
              (response, dbAfter) ==
                CreateUpdateOutcome(db, tags, user, Ordinal(ValidateRequest(body, today, parsed).value),
                                    body.value, dbError)
    ensures ValidateRequest(body, today, parsed).Ok? && verb == Delete ==>
              (response, dbAfter) ==
                DeleteOutcome(db, user, Ordinal(ValidateRequest(body, today, parsed).value),
                              body.value.slotIndexes)
  {
    var checked := ValidateRequest(body, today, parsed);
    if checked.Err? {
      return checked.error, db;
    }
    var date := Ordinal(checked.value);
    match verb {
      case Post =>
        response, dbAfter := HandleCreateUpdate(db, tags, user, date, body.value, dbError);
      case Delete =>
        response, dbAfter := DeleteOutcome(db, user, date, body.value.slotIndexes).0,
                             DeleteOutcome(db, user, date, body.value.slotIndexes).1;
    }
  }
}
