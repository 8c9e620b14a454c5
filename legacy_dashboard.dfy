// The legacy dashboard script: the same grid as the class-based slot
// manager, but with module-level globals, its own `apiCall` wrapper and a
// few different rendering rules.  `alert`, `confirm`, `fetch` and the page
// reload are inputs or recorded outcomes.
module LegacyDashboard {
  import opened Wrappers
  import opened Strings
  import opened SlotGrid
  import SlotUtils
  import SlotManager
  import Config = DashboardConfig

  // ---------------------------------------------------------------------
  // apiCall

  /** The JSON body fields the page looks at; None is `undefined`. */
  datatype Body = Body(success: Option<bool>, message: Option<string>)

  /** How `fetch` ended: a response whose body parsed or threw, or a thrown error. */
  datatype FetchOutcome =
    | Response(status: int, body: Result<Body, string>)
    | Thrown(name: string, message: string)

  const UnknownError: string := "알 수 없는 오류가 발생했습니다."

  /** `result.message || fallback`: a missing or empty message gives the fallback. */
  function MessageOr(message: Option<string>, fallback: string): (r: string)
    ensures message.Some? && message.value != "" ==> r == message.value
    ensures message.None? || message.value == "" ==> r == fallback
  {
    if message.Some? && message.value != "" then message.value else fallback
  }

  /** A JS template or `+` on a possibly `undefined` value. */
  function JsText(message: Option<string>): (r: string)
    ensures message.Some? ==> r == message.value
    ensures message.None? ==> r == "undefined"
  {
    if message.Some? then message.value else "undefined"
  }

  /** `apiCall`'s request body rule: only POST, PUT and DELETE with data carry one. */
  predicate SendsBody(httpMethod: string, hasData: bool) {
    hasData && (httpMethod == "POST" || httpMethod == "PUT" || httpMethod == "DELETE")
  }

  /**
   * `apiCall`: 403, 404 and 5xx become fixed messages; other statuses fall
   * through to the body; a body with `success === false` is thrown with its
   * message; a TypeError about `fetch` becomes the network message; every
   * other error is rethrown unchanged.
   */
  function ApiCall(outcome: FetchOutcome): (r: Result<Body, string>)
    ensures r.Ok? ==> outcome.Response? && outcome.body == Ok(r.value) && r.value.success != Some(false)
    ensures outcome.Response? && !(200 <= outcome.status < 300) && outcome.status == 403 ==>
              r == Err(Config.PermissionDenied)
    ensures outcome.Response? && !(200 <= outcome.status < 300) && outcome.status == 404 ==>
              r == Err(Config.NotFound)
    ensures outcome.Response? && outcome.status >= 500 ==> r == Err(Config.ServerError)
    ensures outcome.Response? && (200 <= outcome.status < 300 || (outcome.status != 403 && outcome.status != 404 && outcome.status < 500)) ==>
              match outcome.body
              case Err(e) => r == Err(e)
              case Ok(b) => r == (if b.success == Some(false) then Err(MessageOr(b.message, UnknownError)) else Ok(b))
    ensures outcome.Thrown? ==>
              r == Err(if outcome.name == "TypeError" && Contains(outcome.message, "fetch")
                       then Config.NetworkError else outcome.message)
  {
    match outcome
    case Thrown(name, message) =>
      if name == "TypeError" && Contains(message, "fetch") then Err(Config.NetworkError) else Err(message)
    case Response(status, body) =>
      if !(200 <= status < 300) && status == 403 then Err(Config.PermissionDenied)
      else if !(200 <= status < 300) && status == 404 then Err(Config.NotFound)
      else if !(200 <= status < 300) && status >= 500 then Err(Config.ServerError)
      else
        match body
        case Err(e) => Err(e)
        case Ok(b) => if b.success == Some(false) then Err(MessageOr(b.message, UnknownError)) else Ok(b)
  }

  /** A response that parsed and does not say `success: false` reaches the caller unchanged. */
  lemma ApiCallPassesBody(status: int, b: Body)
    requires status != 403 && status != 404 && status < 500 && b.success != Some(false)
    ensures ApiCall(Response(status, Ok(b))) == Ok(b)
  {
  }

  // ---------------------------------------------------------------------
  // The information card, legacy rules

  /** `HH:MM - HH:MM` for one slot; the status is the parsed tag name whenever the slot is filled. */
  function LegacySingleSlotInfo(slotIndex: nat, cells: seq<Cell>): (r: Info)
    requires slotIndex < SlotCount && |cells| == SlotCount
    ensures r.SingleSlot?
    ensures r.timeRange == SlotUtils.IndexToTimeString(slotIndex) + " - " + SlotUtils.IndexToTimeString(slotIndex + 1)
    ensures r.status == (if cells[slotIndex].filled then TagNameFromTitle(cells[slotIndex].title) else EmptySlotText)
  {
    SingleSlot(SlotUtils.IndexToTimeString(slotIndex) + " - " + SlotUtils.IndexToTimeString(slotIndex + 1),
               if cells[slotIndex].filled then TagNameFromTitle(cells[slotIndex].title) else EmptySlotText)
  }

  /** The duration line of the legacy card: always `${h}시간 ${m}분`. */
  function LegacyDuration(slotCount: nat): (r: string)
    ensures EndsWith(r, "분") && Contains(r, "시간 ")
  {
    var total := slotCount * 10;
    var r := NatToString(total / 60) + "시간 " + NatToString(total % 60) + "분";
    assert StartsWith(r[|NatToString(total / 60)|..], "시간 ");
    assert OccursAt(r, "시간 ", |NatToString(total / 60)|);
    ContainsIff(r, "시간 ");
    r
  }

  /** Several slots: the count, the range from the earliest start to the latest end, and the duration. */
  function LegacyMultipleSlotInfo(selected: seq<int>): (r: Info)
    requires selected != [] && InGrid(selected)
    ensures r.ManySlots? && r.count == |selected| && r.duration == LegacyDuration(|selected|)
    ensures r.timeRange == SlotManager.RenderMultipleSlotInfo(selected).timeRange
  {
    var m := SlotManager.RenderMultipleSlotInfo(selected);
    ManySlots(|selected|, m.timeRange, LegacyDuration(|selected|))
  }

  /** `showSlotInfo(Array.from(selectedSlots))`. */
  function LegacySlotInfo(selected: seq<int>, cells: seq<Cell>): (r: Info)
    requires InGrid(selected) && |cells| == SlotCount
    ensures r.Hidden? <==> selected == []
    ensures r.SingleSlot? <==> |selected| == 1
  {
    if selected == [] then Hidden
    else if |selected| == 1 then
      assert selected[0] in selected;
      LegacySingleSlotInfo(selected[0], cells)
    else LegacyMultipleSlotInfo(selected)
  }

  /** The single-slot range is the multi-slot range of that one slot (both spaced). */
  lemma SingleRangeIsSpanOfOne(i: int)
    requires 0 <= i < SlotCount
    ensures LegacySingleSlotInfo(i, seq(SlotCount, k => Cell("", false, false, "", "", []))).timeRange
            == SlotManager.RenderMultipleSlotInfo([i]).timeRange
  {
    assert SlotManager.SeqMin([i]) == i && SlotManager.SeqMax([i]) == i;
  }

  /** Where the two scripts agree on the duration text and where they do not. */
  lemma DurationTexts()
    ensures LegacyDuration(9) == SlotUtils.SlotsToTimeString(9) == "1시간 30분"
    ensures LegacyDuration(2) == "0시간 20분" && SlotUtils.SlotsToTimeString(2) == "20분"
  {
    LegacyDurationExamples();
    SlotDurationExamples();
  }

  lemma SmallNumerals()
    ensures NatToString(0) == "0" && NatToString(1) == "1"
    ensures NatToString(20) == "20" && NatToString(30) == "30"
  {
    assert NatToString(2) == "2" && NatToString(3) == "3";
  }

  lemma LegacyDurationExamples()
    ensures LegacyDuration(9) == "1시간 30분" && LegacyDuration(2) == "0시간 20분"
  {
    LegacyDurationNine();
    LegacyDurationTwo();
  }

  lemma LegacyDurationNine()
    ensures LegacyDuration(9) == "1시간 30분"
  {
    LegacyDurationParts(9, 1, 30);
    assert NatToString(1) == "1";
    assert NatToString(30) == "30" by {
      assert NatToString(3) == "3";
    }
  }

  lemma LegacyDurationTwo()
    ensures LegacyDuration(2) == "0시간 20분"
  {
    LegacyDurationParts(2, 0, 20);
    assert NatToString(0) == "0";
    assert NatToString(20) == "20" by {
      assert NatToString(2) == "2";
    }
  }

  lemma LegacyDurationParts(slotCount: nat, h: nat, m: nat)
    requires slotCount * 10 == h * 60 + m && m < 60
    ensures LegacyDuration(slotCount) == NatToString(h) + "시간 " + NatToString(m) + "분"
  {
  }

  lemma SlotDurationExamples()
    ensures SlotUtils.SlotsToTimeString(9) == "1시간 30분" && SlotUtils.SlotsToTimeString(2) == "20분"
  {
    SmallNumerals();
    assert SlotUtils.DurationText(1, 30) == "1시간 30분";
    assert SlotUtils.DurationText(0, 20) == "20분";
  }

  // ---------------------------------------------------------------------
  // The colour input pair

  /**
   * `setupColorSync`: the picker's value goes into the text field; text goes
   * into the picker only when it matches `^#[0-9A-Fa-f]{6}$` (no `m` flag,
   * so `$` is the end of the string).
   */
  class ColorSync {
    var colorValue: string
    var textValue: string

    ghost predicate Valid() reads this { IsHexColor6(colorValue) }

    constructor (initialColor: string, initialText: string)
      requires IsHexColor6(initialColor)
      ensures Valid() && colorValue == initialColor && textValue == initialText
    {
      colorValue := initialColor;
      textValue := initialText;
    }

    /** A colour picker only ever reports `#rrggbb`. */
    method OnColorInput(picked: string)
      requires Valid() && IsHexColor6(picked)
      modifies this
      ensures Valid() && textValue == picked && colorValue == picked
    {
      colorValue := picked;
      textValue := colorValue;
    }

    method OnTextInput(typed: string)
      requires Valid()
      modifies this
      ensures Valid() && textValue == typed
      ensures colorValue == (if IsHexColor6(typed) then typed else old(colorValue))
    {
      textValue := typed;
      if IsHexColor6(textValue) {
        colorValue := textValue;
      }
    }
  }

  // ---------------------------------------------------------------------
  // The page and its globals

  /** The POST/DELETE that the page sent, if any. */
  datatype Sent = NotSent | SentSave(saveRequest: SaveRequest) | SentDelete(deleteRequest: DeleteRequest)

  const SaveFailedPrefix: string := "저장 실패: "
  const DeleteFailedPrefix: string := "삭제 실패: "
  const SaveErrorAlert: string := "저장 중 오류가 발생했습니다."
  const DeleteErrorAlert: string := "삭제 중 오류가 발생했습니다."

  class Page {
    // the globals
    var selectedSlots: seq<int>
    var selectedTag: Option<TagChoice>
    var isDragging: bool
    var startSlot: Option<int>
    // the page elements the script writes
    const cells: array<Cell>
    /** The `data-time` of each cell, fixed when the page is built. */
    ghost const times: seq<string>
    var memo: string
    var info: Info
    var saveEnabled: bool
    var deleteEnabled: bool
    var activeTagButton: Option<int>
    var reloaded: bool

    /** The selection and the grid agree. */
    ghost predicate GridValid()
      reads this`selectedSlots, cells
    {
      cells.Length == SlotCount &&
      NoDup(selectedSlots) && InGrid(selectedSlots) &&
      (forall k :: 0 <= k < SlotCount ==> (cells[k].selected <==> k in selectedSlots)) &&
      |times| == SlotCount &&
      (forall k :: 0 <= k < SlotCount ==> cells[k].time == times[k])
    }

    ghost predicate Valid()
      reads this`selectedSlots, this`isDragging, this`startSlot, cells
    {
      GridValid() &&
      (isDragging ==> startSlot.Some? && 0 <= startSlot.value < SlotCount) &&
      (!isDragging ==> startSlot.None?)
    }

    /** Nothing the page shows or holds has changed: the selection, the tag, the memo, the card, the buttons, the grid. */
    twostate predicate Untouched()
      reads this, cells
    {
      selectedSlots == old(selectedSlots) && selectedTag == old(selectedTag) && memo == old(memo) &&
      info == old(info) && saveEnabled == old(saveEnabled) && deleteEnabled == old(deleteEnabled) &&
      activeTagButton == old(activeTagButton) && reloaded == old(reloaded) && cells[..] == old(cells[..])
    }

    constructor (page: seq<Cell>)
      requires |page| == SlotCount
      requires forall k :: 0 <= k < SlotCount ==> page[k].time == SlotUtils.IndexToTimeString(k) && !page[k].selected
      ensures Valid() && fresh(cells) && cells[..] == page
      ensures forall k :: 0 <= k < SlotCount ==> times[k] == SlotUtils.IndexToTimeString(k)
      ensures selectedSlots == [] && selectedTag.None? && !isDragging && startSlot.None?
      ensures memo == "" && info.Hidden? && !saveEnabled && !deleteEnabled && activeTagButton.None? && !reloaded
    {
      times := seq(SlotCount, k requires 0 <= k < SlotCount => page[k].time);
      selectedSlots := [];
      selectedTag := None;
      isDragging := false;
      startSlot := None;
      cells := new Cell[SlotCount](k requires 0 <= k < SlotCount => page[k]);
      memo := "";
      info := Hidden;
      saveEnabled := false;
      deleteEnabled := false;
      activeTagButton := None;
      reloaded := false;
      new;
      assert cells[..] == page;
    }

    /** `clearSelection`. */
    method ClearSelection()
      requires Valid()
      modifies this`selectedSlots, cells
      ensures Valid() && selectedSlots == []
      ensures forall k :: 0 <= k < SlotCount ==> cells[k] == old(cells[k]).(selected := false)
    {
      selectedSlots := [];
      UnmarkAll(cells);
    }

    method AddSlot(slotIndex: int)
      requires Valid() && 0 <= slotIndex < SlotCount
      modifies this`selectedSlots, cells
      ensures Valid() && selectedSlots == SetAdd(old(selectedSlots), slotIndex)
      ensures forall k :: 0 <= k < SlotCount ==> cells[k] == old(cells[k]).(selected := k in selectedSlots)
    {
      Mark(cells, slotIndex, true);
      selectedSlots := SetAdd(selectedSlots, slotIndex);
    }

    method DropSlot(slotIndex: int)
      requires Valid() && 0 <= slotIndex < SlotCount
      modifies this`selectedSlots, cells
      ensures Valid() && selectedSlots == SetDelete(old(selectedSlots), slotIndex)
      ensures forall k :: 0 <= k < SlotCount ==> cells[k] == old(cells[k]).(selected := k in selectedSlots)
    {
      Mark(cells, slotIndex, false);
      selectedSlots := SetDelete(selectedSlots, slotIndex);
    }

    method SelectOnly(slotIndex: int)
      requires Valid() && 0 <= slotIndex < SlotCount
      modifies this`selectedSlots, cells
      ensures Valid() && selectedSlots == [slotIndex]
      ensures forall k :: 0 <= k < SlotCount ==> cells[k] == old(cells[k]).(selected := k == slotIndex)
    {
      ClearSelection();
      AddSlot(slotIndex);
    }

    /** `updateButtons`, with `some` for the filled test. */
    method UpdateButtons()
      requires Valid()
      modifies this`saveEnabled, this`deleteEnabled
      ensures Valid()
      ensures saveEnabled == SaveEnabled(selectedSlots, selectedTag)
      ensures deleteEnabled == (|selectedSlots| > 0 && AnyFilled(selectedSlots, cells[..]))
      ensures deleteEnabled == DeleteEnabled(selectedSlots, cells[..])
    {
      saveEnabled := |selectedSlots| > 0 && selectedTag.Some?;
      var hasFilledSlot := |FilledSubset(selectedSlots, cells[..])| > 0;
      DeleteEnabledIff(selectedSlots, cells[..]);
      deleteEnabled := |selectedSlots| > 0 && hasFilledSlot;
    }

    method ShowSlotInfo()
      requires Valid()
      modifies this`info
      ensures Valid()
      ensures info == LegacySlotInfo(selectedSlots, cells[..])
    {
      info := LegacySlotInfo(selectedSlots, cells[..]);
    }

    /** `showSlotInfo(...)` followed by `updateButtons()`. */
    method Refresh()
      requires Valid()
      modifies this`info, this`saveEnabled, this`deleteEnabled
      ensures Valid() && cells[..] == old(cells[..])
      ensures info == LegacySlotInfo(selectedSlots, cells[..])
      ensures saveEnabled == SaveEnabled(selectedSlots, selectedTag)
      ensures deleteEnabled == DeleteEnabled(selectedSlots, cells[..])
    {
      ghost var grid := cells[..];
      ShowSlotInfo();
      assert cells[..] == grid;
      UpdateButtons();
      assert cells[..] == grid;
    }

    method Click(slotIndex: int, multiSelect: bool)
      requires Valid() && 0 <= slotIndex < SlotCount
      modifies this`selectedSlots, cells
      ensures Valid()
      ensures selectedSlots == (if multiSelect then Toggle(old(selectedSlots), slotIndex) else [slotIndex])
      ensures forall k :: 0 <= k < SlotCount ==> cells[k] == old(cells[k]).(selected := k in selectedSlots)
    {
      if !multiSelect {
        SelectOnly(slotIndex);
      } else if slotIndex in selectedSlots {
        DropSlot(slotIndex);
      } else {
        AddSlot(slotIndex);
      }
    }

    /** `selectSlot`: ignored while dragging; click selects one, ctrl/meta-click toggles. */
    method SelectSlot(slotIndex: int, multiSelect: bool)
      requires Valid() && 0 <= slotIndex < SlotCount
      modifies this`selectedSlots, cells, this`info, this`saveEnabled, this`deleteEnabled
      ensures Valid()
      ensures old(isDragging) ==>
                selectedSlots == old(selectedSlots) && info == old(info) &&
                saveEnabled == old(saveEnabled) && deleteEnabled == old(deleteEnabled) &&
                cells[..] == old(cells[..])
      ensures !old(isDragging) ==>
                selectedSlots == (if multiSelect then Toggle(old(selectedSlots), slotIndex) else [slotIndex]) &&
                info == LegacySlotInfo(selectedSlots, cells[..]) &&
                saveEnabled == SaveEnabled(selectedSlots, selectedTag) &&
                deleteEnabled == DeleteEnabled(selectedSlots, cells[..])
      ensures forall k :: 0 <= k < SlotCount ==> cells[k] == old(cells[k]).(selected := k in selectedSlots)
    {
      if isDragging {
        return;
      }
      Click(slotIndex, multiSelect);
      Refresh();
    }

    /** `startDrag`: anchors the drag and selects the anchor; the card is not refreshed. */
    method StartDrag(slotIndex: int)
      requires Valid() && 0 <= slotIndex < SlotCount
      modifies this`isDragging, this`startSlot, this`selectedSlots, cells
      ensures Valid() && isDragging && startSlot == Some(slotIndex) && selectedSlots == [slotIndex]
      ensures forall k :: 0 <= k < SlotCount ==> cells[k] == old(cells[k]).(selected := k == slotIndex)
    {
      isDragging := true;
      startSlot := Some(slotIndex);
      SelectOnly(slotIndex);
    }

    method SelectRange(lo: int, hi: int)
      requires Valid() && selectedSlots == [] && 0 <= lo <= hi < SlotCount
      modifies this`selectedSlots, cells
      ensures Valid() && selectedSlots == Interval(lo, hi)
      ensures forall k :: 0 <= k < SlotCount ==> cells[k] == old(cells[k]).(selected := lo <= k <= hi)
    {
      var i := lo;
      while i <= hi
        invariant lo <= i <= hi + 1
        invariant Valid()
        invariant selectedSlots == Interval(lo, i - 1)
        invariant forall k :: 0 <= k < SlotCount ==> cells[k] == old(cells[k]).(selected := lo <= k < i)
      {
        SlotManager.IntervalAdd(lo, i - 1);
        AddSlot(i);
        i := i + 1;
      }
    }

    /** Replaces the selection with the slots between `anchor` and `current`. */
    method DragSelect(anchor: int, current: int)
      requires Valid() && 0 <= anchor < SlotCount && 0 <= current < SlotCount
      modifies this`selectedSlots, cells
      ensures Valid() && selectedSlots == DragRange(anchor, current)
      ensures forall k :: 0 <= k < SlotCount ==> cells[k] == old(cells[k]).(selected := k in selectedSlots)
    {
      ClearSelection();
      SelectRange(Min(anchor, current), Max(anchor, current));
    }

    /** The body of `dragOver` once the guard has passed. */
    method DragAndRefresh(anchor: int, current: int)
      requires Valid() && 0 <= anchor < SlotCount && 0 <= current < SlotCount
      modifies this`selectedSlots, cells, this`info, this`saveEnabled, this`deleteEnabled
      ensures Valid() && selectedSlots == DragRange(anchor, current)
      ensures info == LegacySlotInfo(selectedSlots, cells[..])
      ensures saveEnabled == SaveEnabled(selectedSlots, selectedTag)
      ensures deleteEnabled == DeleteEnabled(selectedSlots, cells[..])
      ensures forall k :: 0 <= k < SlotCount ==> cells[k] == old(cells[k]).(selected := k in selectedSlots)
    {
      DragSelect(anchor, current);
      Refresh();
    }

    /**
     * `dragOver`: replaces the selection with the slots between the anchor
     * and this one, then refreshes the card and the buttons.
     */
    method DragOver(slotIndex: int)
      requires Valid() && 0 <= slotIndex < SlotCount
      modifies this`selectedSlots, cells, this`info, this`saveEnabled, this`deleteEnabled
      ensures Valid()
      ensures !old(isDragging) ==>
                selectedSlots == old(selectedSlots) && info == old(info) &&
                saveEnabled == old(saveEnabled) && deleteEnabled == old(deleteEnabled) &&
                cells[..] == old(cells[..])
      ensures old(isDragging) ==>
                selectedSlots == DragRange(old(startSlot).value, slotIndex) &&
                info == LegacySlotInfo(selectedSlots, cells[..]) &&
                saveEnabled == SaveEnabled(selectedSlots, selectedTag) &&
                deleteEnabled == DeleteEnabled(selectedSlots, cells[..])
      ensures forall k :: 0 <= k < SlotCount ==> cells[k] == old(cells[k]).(selected := k in selectedSlots)
    {
      if !isDragging || startSlot.None? {
        return;
      }
      DragAndRefresh(startSlot.value, slotIndex);
    }

    /** `endDrag`, bound to both mouseup and mouseleave. */
    method EndDrag()
      requires Valid()
      modifies this`isDragging, this`startSlot, this`info, this`saveEnabled, this`deleteEnabled
      ensures Valid() && !isDragging && startSlot.None?
      ensures !old(isDragging) ==>
                info == old(info) && saveEnabled == old(saveEnabled) &&
                deleteEnabled == old(deleteEnabled)
      ensures old(isDragging) ==>
                info == LegacySlotInfo(selectedSlots, cells[..]) &&
                saveEnabled == SaveEnabled(selectedSlots, selectedTag) &&
                deleteEnabled == DeleteEnabled(selectedSlots, cells[..])
    {
      if isDragging {
        isDragging := false;
        startSlot := None;
        Refresh();
      }
    }

    /** `selectTag`. */
    method SelectTag(tag: TagChoice, button: Option<int>)
      requires Valid()
      modifies this`selectedTag, this`activeTagButton, this`saveEnabled, this`deleteEnabled
      ensures Valid() && selectedTag == Some(tag) && activeTagButton == button
      ensures saveEnabled == SaveEnabled(selectedSlots, selectedTag)
      ensures deleteEnabled == DeleteEnabled(selectedSlots, cells[..])
    {
      activeTagButton := button;
      selectedTag := Some(tag);
      UpdateButtons();
    }

    /** `resetUI`: clears memo, selection and tag, and hides the card. */
    method ResetUI()
      requires Valid()
      modifies this`memo, this`selectedSlots, this`selectedTag, this`activeTagButton,
               this`saveEnabled, this`deleteEnabled, this`info, cells
      ensures Valid()
      ensures memo == "" && selectedSlots == [] && selectedTag.None? && activeTagButton.None?
      ensures !saveEnabled && !deleteEnabled && info.Hidden?
      ensures forall k :: 0 <= k < SlotCount ==> cells[k] == old(cells[k]).(selected := false)
    {
      memo := "";
      ClearSelection();
      selectedTag := None;
      activeTagButton := None;
      UpdateButtons();
      info := Hidden;
    }

    /**
     * `saveSlot`: alerts without a selection and a tag; otherwise posts the
     * selection, tag id, memo and date through `apiCall`, paints the
     * selected cells and resets on success, and alerts on failure.
     */
    method SaveSlot(outcome: FetchOutcome, dateField: string, today: string)
      returns (sent: Sent, notice: Notice)
      requires Valid()
      modifies this, cells
      ensures Valid() && isDragging == old(isDragging) && startSlot == old(startSlot) && reloaded == old(reloaded)
      ensures sent.NotSent? <==> !SaveEnabled(old(selectedSlots), old(selectedTag))
      ensures sent.NotSent? ==> notice == Alert(Config.NoSelection) && Untouched()
      ensures sent.SentSave? ==>
                sent.saveRequest == SaveRequest(old(selectedSlots), old(selectedTag).value.id, old(memo),
                                            ChosenDate(dateField, today))
      ensures sent.SentSave? && ApiCall(outcome).Ok? && ApiCall(outcome).value.success == Some(true) ==>
                notice == Success(JsText(ApiCall(outcome).value.message)) &&
                memo == "" && selectedSlots == [] && selectedTag.None? && info.Hidden? &&
                !saveEnabled && !deleteEnabled && activeTagButton.None? &&
                forall k :: 0 <= k < SlotCount ==>
                  cells[k] == (if k in old(selectedSlots)
                               then Painted(old(cells[k]), old(selectedTag).value, old(memo))
                               else old(cells[k])).(selected := false)
      ensures sent.SentSave? && ApiCall(outcome).Ok? && ApiCall(outcome).value.success != Some(true) ==>
                notice == Alert(SaveFailedPrefix + JsText(ApiCall(outcome).value.message)) && Untouched()
      ensures sent.SentSave? && ApiCall(outcome).Err? ==> notice == Alert(SaveErrorAlert) && Untouched()
    {
      if |selectedSlots| == 0 || selectedTag.None? {
        return NotSent, Alert(Config.NoSelection);
      }
      var tag := selectedTag.value;
      var memoText := memo;
      var selected := selectedSlots;
      sent := SentSave(SaveRequest(selected, tag.id, memoText, ChosenDate(dateField, today)));
      match ApiCall(outcome)
      case Err(_) =>
        notice := Alert(SaveErrorAlert);
      case Ok(result) =>
        if result.success == Some(true) {
          PaintSlots(cells, selected, tag, memoText);
          ResetUI();
          notice := Success(JsText(result.message));
        } else {
          notice := Alert(SaveFailedPrefix + JsText(result.message));
        }
    }

    /**
     * `deleteSlot`: alerts without a selection or a filled selected slot,
     * asks for confirmation, deletes only the filled slots, and on success
     * wipes them, resets, alerts the message and reloads the page.
     */
    method DeleteSlot(confirmed: bool, outcome: FetchOutcome, dateField: string, today: string)
      returns (prompt: Option<string>, sent: Sent, notice: Notice)
      requires Valid()
      modifies this, cells
      ensures Valid() && isDragging == old(isDragging) && startSlot == old(startSlot)
      ensures old(selectedSlots) == [] ==> prompt.None? && notice == Alert(Config.NoSlotsToDelete)
      ensures old(selectedSlots) != [] && old(FilledSubset(selectedSlots, cells[..])) == [] ==>
                prompt.None? && notice == Alert(Config.NoFilledSlots)
      ensures prompt.Some? <==> old(DeleteEnabled(selectedSlots, cells[..]))
      ensures prompt.Some? ==>
                prompt.value == NatToString(|old(FilledSubset(selectedSlots, cells[..]))|) + Config.ConfirmDeleteSlotsSuffix
      ensures sent.SentDelete? <==> prompt.Some? && confirmed
      ensures !sent.SentSave?
      ensures sent.NotSent? ==> Untouched()
      ensures prompt.Some? && !confirmed ==> notice == Quiet
      ensures sent.SentDelete? ==>
                sent.deleteRequest == DeleteRequest(old(FilledSubset(selectedSlots, cells[..])), ChosenDate(dateField, today))
      ensures sent.SentDelete? && ApiCall(outcome).Ok? && ApiCall(outcome).value.success == Some(true) ==>
                notice == Alert(JsText(ApiCall(outcome).value.message)) && reloaded &&
                memo == "" && selectedSlots == [] && selectedTag.None? && info.Hidden? &&
                !saveEnabled && !deleteEnabled && activeTagButton.None? &&
                forall k :: 0 <= k < SlotCount ==>
                  cells[k] == (if k in old(FilledSubset(selectedSlots, cells[..]))
                               then Wiped(old(cells[k])) else old(cells[k])).(selected := false)
      ensures sent.SentDelete? && ApiCall(outcome).Ok? && ApiCall(outcome).value.success != Some(true) ==>
                notice == Alert(DeleteFailedPrefix + JsText(ApiCall(outcome).value.message)) && Untouched()
      ensures sent.SentDelete? && ApiCall(outcome).Err? ==> notice == Alert(DeleteErrorAlert) && Untouched()
    {
      prompt, sent := None, NotSent;
      if |selectedSlots| == 0 {
        return None, NotSent, Alert(Config.NoSlotsToDelete);
      }
      var filledSlots := FilledSubset(selectedSlots, cells[..]);
      if |filledSlots| == 0 {
        return None, NotSent, Alert(Config.NoFilledSlots);
      }
      prompt := Some(NatToString(|filledSlots|) + Config.ConfirmDeleteSlotsSuffix);
      if !confirmed {
        return prompt, NotSent, Quiet;
      }
      sent := SentDelete(DeleteRequest(filledSlots, ChosenDate(dateField, today)));
      match ApiCall(outcome)
      case Err(_) =>
        notice := Alert(DeleteErrorAlert);
      case Ok(result) =>
        if result.success == Some(true) {
          WipeSlots(cells, filledSlots);
          ResetUI();
          notice := Alert(JsText(result.message));
          reloaded := true;
        } else {
          notice := Alert(DeleteFailedPrefix + JsText(result.message));
        }
    }
  }

  /**
   * The "save failed" alert needs a body whose `success` is missing: a body
   * with `success: false` is already turned into an error by `apiCall`.
   */
  lemma SaveFailedNeedsMissingFlag(outcome: FetchOutcome)
    requires ApiCall(outcome).Ok? && ApiCall(outcome).value.success != Some(true)
    ensures ApiCall(outcome).value.success.None?
  {
    var s := ApiCall(outcome).value.success;
    assert s != Some(false) && s != Some(true);
    match s
    case None =>
    case Some(b) =>
      assert false;
  }
}
