// The class-based slot manager of the dashboard page: `SlotState` (the
// selection set, the chosen tag, the drag flag and anchor) and `SlotManager`,
// whose handlers update that state, the 144 grid cells, the memo input, the
// information card and the Save/Delete buttons.  The awaited request is
// passed in as its outcome; the user's answer to the confirmation too.
module SlotManager {
  import opened Wrappers
  import opened Strings
  import opened SlotGrid
  import SlotUtils
  import Config = DashboardConfig

  // ---------------------------------------------------------------------
  // The information card

  /** `_renderSingleSlotInfo`: the slot's range and its tag name, or the empty-slot text. */
  function RenderSingleSlotInfo(slotIndex: nat, cells: seq<Cell>): (r: Info)
    requires slotIndex < SlotCount && |cells| == SlotCount
    ensures r.SingleSlot? && r.timeRange == SlotUtils.IndexToTimeRange(slotIndex)
    ensures !cells[slotIndex].filled ==> r.status == EmptySlotText
    ensures r.status == EmptySlotText || r.status == TagNameFromTitle(cells[slotIndex].title)
  {
    var c := cells[slotIndex];
    var tagName := if c.filled then TagNameFromTitle(c.title) else "";
    SingleSlot(SlotUtils.IndexToTimeRange(slotIndex), if tagName != "" then tagName else EmptySlotText)
  }

  /** A slot painted with a tag shows that tag's name. */
  lemma SingleInfoShowsPaintedTag(slotIndex: nat, cells: seq<Cell>, before: Cell, tag: TagChoice, memo: string)
    requires slotIndex < SlotCount && |cells| == SlotCount
    requires cells[slotIndex] == Painted(before, tag, memo)
    requires NoSpace(before.time) && tag.name != ""
    requires !Contains(tag.name, ":") && !Contains(tag.name, " - ")
    ensures RenderSingleSlotInfo(slotIndex, cells).status == tag.name
  {
    PaintedReadsBack(before, tag, memo);
  }

  /** The smallest element. */
  function SeqMin(s: seq<int>): (m: int)
    requires s != []
    ensures m in s && forall x :: x in s ==> m <= x
  {
    if |s| == 1 then s[0]
    else
      assert s == [s[0]] + s[1..];
      Min(s[0], SeqMin(s[1..]))
  }

  /** The largest element. */
  function SeqMax(s: seq<int>): (m: int)
    requires s != []
    ensures m in s && forall x :: x in s ==> x <= m
  {
    if |s| == 1 then s[0]
    else
      assert s == [s[0]] + s[1..];
      Max(s[0], SeqMax(s[1..]))
  }

  /**
   * `_renderMultipleSlotInfo`: the count, "start - end" from the start of the
   * earliest selected slot to the end of the latest, and the duration text.
   */
  function RenderMultipleSlotInfo(selected: seq<int>): (r: Info)
    requires selected != [] && InGrid(selected)
    ensures r.ManySlots? && r.count == |selected|
    ensures r.duration == SlotUtils.SlotsToTimeString(|selected|)
    ensures r.timeRange == SlotUtils.IndexToTimeString(SeqMin(selected)) + " - " +
                           SlotUtils.IndexToTimeString(SeqMax(selected) + 1)
  {
    var sorted := SlotUtils.SortAsc(selected);
    SortedEnds(selected, sorted);
    assert SeqMin(selected) in selected && SeqMax(selected) in selected;
    ManySlots(|selected|,
              SlotUtils.IndexToTimeString(sorted[0]) + " - " +
              SlotUtils.IndexToTimeString(sorted[|sorted| - 1] + 1),
              SlotUtils.SlotsToTimeString(|selected|))
  }

  /** The first and last of the sorted copy are the smallest and largest elements. */
  lemma SortedEnds(s: seq<int>, t: seq<int>)
    requires s != [] && SlotUtils.SortedAsc(t) && multiset(t) == multiset(s)
    ensures |t| == |s| && t[0] == SeqMin(s) && t[|t| - 1] == SeqMax(s)
  {
    assert |t| == |multiset(t)| == |multiset(s)| == |s|;
    var lo, hi := SeqMin(s), SeqMax(s);
    assert lo in multiset(t) && hi in multiset(t);
    var i :| 0 <= i < |t| && t[i] == lo;
    var j :| 0 <= j < |t| && t[j] == hi;
    assert t[0] in multiset(s) && t[|t| - 1] in multiset(s);
    assert t[0] <= t[i] && t[j] <= t[|t| - 1];
    assert t[0] in s && t[|t| - 1] in s;
    assert lo <= t[0] && t[|t| - 1] <= hi;
  }

  /** Adding the next number to an interval extends it. */
  lemma IntervalAdd(lo: int, hi: int)
    requires lo <= hi + 1
    ensures SetAdd(Interval(lo, hi), hi + 1) == Interval(lo, hi + 1)
  {
    var r := Interval(lo, hi);
    assert forall k :: 0 <= k < |r| ==> r[k] != hi + 1;
    IntervalSnoc(lo, hi);
  }

  /** `_showSlotInfo`: hidden for no selection, single or multiple otherwise. */
  function SlotInfo(selected: seq<int>, cells: seq<Cell>): (r: Info)
    requires InGrid(selected) && |cells| == SlotCount
    ensures r.Hidden? <==> selected == []
    ensures r.SingleSlot? <==> |selected| == 1
    ensures r.ManySlots? ==> r.count == |selected|
  {
    if selected == [] then Hidden
    else if |selected| == 1 then
      assert selected[0] in selected;
      RenderSingleSlotInfo(selected[0], cells)
    else RenderMultipleSlotInfo(selected)
  }

  /** Everything the page shows or keeps, for stating what a handler changed. */
  datatype Screen = Screen(selected: seq<int>, tag: Option<TagChoice>, dragging: bool,
                           anchor: Option<int>, memo: string, info: Info, saveEnabled: bool,
                           deleteEnabled: bool, activeTagButton: Option<int>,
                           cells: seq<Cell>, statisticsUpdates: nat)

  // ---------------------------------------------------------------------
  // SlotState

  class SlotState {
    var selectedSlots: seq<int>
    var selectedTag: Option<TagChoice>
    var isDragging: bool
    var startSlot: Option<int>

    constructor ()
      ensures selectedSlots == [] && selectedTag.None? && !isDragging && startSlot.None?
    {
      selectedSlots := [];
      selectedTag := None;
      isDragging := false;
      startSlot := None;
    }

    method AddSelectedSlot(slotIndex: int)
      modifies this`selectedSlots
      ensures selectedSlots == SetAdd(old(selectedSlots), slotIndex)
    {
      selectedSlots := SetAdd(selectedSlots, slotIndex);
    }

    method RemoveSelectedSlot(slotIndex: int)
      modifies this`selectedSlots
      ensures selectedSlots == SetDelete(old(selectedSlots), slotIndex)
    {
      selectedSlots := SetDelete(selectedSlots, slotIndex);
    }

    method ClearSelection()
      modifies this`selectedSlots
      ensures selectedSlots == []
    {
      selectedSlots := [];
    }

    predicate IsSelected(slotIndex: int)
      reads this
    {
      slotIndex in selectedSlots
    }

    /** `getSelectedCount`: the size of the selected set, which a duplicate-free selection lists once each. */
    function GetSelectedCount(): (n: nat)
      reads this
      ensures NoDup(selectedSlots) ==> n == |set y | y in selectedSlots|
    {
      assert NoDup(selectedSlots) ==> |set y | y in selectedSlots| == |selectedSlots| by {
        if NoDup(selectedSlots) { NoDupCardinality(selectedSlots); }
      }
      |selectedSlots|
    }

    method SetSelectedTag(tag: Option<TagChoice>)
      modifies this`selectedTag
      ensures selectedTag == tag
    {
      selectedTag := tag;
    }

    /** `setDragging(isDragging, startSlot = null)`. */
    method SetDragging(dragging: bool, start: Option<int>)
      modifies this`isDragging, this`startSlot
      ensures isDragging == dragging && startSlot == start
    {
      isDragging := dragging;
      startSlot := start;
    }
  }

  // ---------------------------------------------------------------------
  // SlotManager

  class SlotManager {
    const state: SlotState
    const cells: array<Cell>
    /** The `data-time` of each cell, fixed when the page is built. */
    ghost const times: seq<string>
    /** Whether a statistics callback was passed to the constructor. */
    const hasStatisticsUpdater: bool
    var memo: string
    var info: Info
    var saveEnabled: bool
    var deleteEnabled: bool
    var activeTagButton: Option<int>
    var statisticsUpdates: nat

    /**
     * The page and the state agree: 144 cells with their fixed `data-time`,
     * the `selected` class on exactly the selected cells, a duplicate-free
     * selection of grid slots, and an anchor exactly while dragging.
     */
    ghost predicate Valid()
      reads state`selectedSlots, state`isDragging, state`startSlot, cells
    {
      cells.Length == SlotCount &&
      NoDup(state.selectedSlots) && InGrid(state.selectedSlots) &&
      (forall k :: 0 <= k < SlotCount ==> (cells[k].selected <==> k in state.selectedSlots)) &&
      |times| == SlotCount &&
      (forall k :: 0 <= k < SlotCount ==> cells[k].time == times[k]) &&
      (state.isDragging <==> state.startSlot.Some?) &&
      (state.startSlot.Some? ==> 0 <= state.startSlot.value < SlotCount)
    }

    ghost function View(): Screen
      reads this, state, cells
    {
      Screen(state.selectedSlots, state.selectedTag, state.isDragging, state.startSlot, memo,
             info, saveEnabled, deleteEnabled, activeTagButton, cells[..], statisticsUpdates)
    }

    constructor (page: seq<Cell>, statisticsUpdater: bool)
      requires |page| == SlotCount
      requires forall k :: 0 <= k < SlotCount ==> page[k].time == SlotUtils.IndexToTimeString(k) && !page[k].selected
      ensures Valid() && fresh(state) && fresh(cells)
      ensures forall k :: 0 <= k < SlotCount ==> times[k] == SlotUtils.IndexToTimeString(k)
      ensures View() == Screen([], None, false, None, "", Hidden, false, false, None, page, 0)
      ensures hasStatisticsUpdater == statisticsUpdater
    {
      times := seq(SlotCount, k requires 0 <= k < SlotCount => page[k].time);
      state := new SlotState();
      cells := new Cell[SlotCount](k requires 0 <= k < SlotCount => page[k]);
      hasStatisticsUpdater := statisticsUpdater;
      memo := "";
      info := Hidden;
      saveEnabled := false;
      deleteEnabled := false;
      activeTagButton := None;
      statisticsUpdates := 0;
      new;
      assert cells[..] == page;
    }

    /** `_getFilledSlotsFromSelection`: the selected slots that hold a block, each once. */
    function GetFilledSlotsFromSelection(): (r: seq<int>)
      reads this, state, cells
      requires Valid()
      ensures forall y :: y in r <==> y in state.selectedSlots && cells[y].filled
      ensures NoDup(r) && |r| <= state.GetSelectedCount()
    {
      FilledSubset(state.selectedSlots, cells[..])
    }

    /** `clearSelection`: empties the set and removes `selected` from every cell. */
    method ClearSelection()
      requires Valid()
      modifies state`selectedSlots, cells
      ensures Valid() && state.selectedSlots == []
      ensures forall k :: 0 <= k < SlotCount ==> cells[k] == old(cells[k]).(selected := false)
    {
      state.ClearSelection();
      UnmarkAll(cells);
    }

    /** `_updateButtons`: Save needs a selection and a tag, Delete a filled selected slot. */
    method UpdateButtons()
      requires Valid()
      modifies this`saveEnabled, this`deleteEnabled
      ensures Valid()
      ensures saveEnabled == SaveEnabled(state.selectedSlots, state.selectedTag)
      ensures deleteEnabled == DeleteEnabled(state.selectedSlots, cells[..])
    {
      saveEnabled := state.GetSelectedCount() > 0 && state.selectedTag.Some?;
      var hasFilledSlot := |GetFilledSlotsFromSelection()| > 0;
      deleteEnabled := state.GetSelectedCount() > 0 && hasFilledSlot;
    }

    /** `_showSlotInfo`. */
    method ShowSlotInfo()
      requires Valid()
      modifies this`info
      ensures Valid()
      ensures info == SlotInfo(state.selectedSlots, cells[..])
    {
      info := SlotInfo(state.selectedSlots, cells[..]);
    }

    /** `_showSlotInfo(...)` followed by `_updateButtons()`. */
    method Refresh()
      requires Valid()
      modifies this`info, this`saveEnabled, this`deleteEnabled
      ensures Valid() && cells[..] == old(cells[..])
      ensures info == SlotInfo(state.selectedSlots, cells[..])
      ensures saveEnabled == SaveEnabled(state.selectedSlots, state.selectedTag)
      ensures deleteEnabled == DeleteEnabled(state.selectedSlots, cells[..])
    {
      ghost var grid := cells[..];
      ShowSlotInfo();
      assert cells[..] == grid;
      UpdateButtons();
      assert cells[..] == grid;
    }

    /** Adds a slot to the selection and gives its cell the `selected` class. */
    method AddSlot(slotIndex: int)
      requires Valid() && 0 <= slotIndex < SlotCount
      modifies state`selectedSlots, cells
      ensures Valid() && state.selectedSlots == SetAdd(old(state.selectedSlots), slotIndex)
      ensures forall k :: 0 <= k < SlotCount ==>
                cells[k] == old(cells[k]).(selected := k in state.selectedSlots)
    {
      state.AddSelectedSlot(slotIndex);
      Mark(cells, slotIndex, true);
    }

    /** Removes a slot from the selection and takes the `selected` class off its cell. */
    method DropSlot(slotIndex: int)
      requires Valid() && 0 <= slotIndex < SlotCount
      modifies state`selectedSlots, cells
      ensures Valid() && state.selectedSlots == SetDelete(old(state.selectedSlots), slotIndex)
      ensures forall k :: 0 <= k < SlotCount ==>
                cells[k] == old(cells[k]).(selected := k in state.selectedSlots)
    {
      state.RemoveSelectedSlot(slotIndex);
      Mark(cells, slotIndex, false);
    }

    /** Clears the selection and selects just one slot. */
    method SelectOnly(slotIndex: int)
      requires Valid() && 0 <= slotIndex < SlotCount
      modifies state`selectedSlots, cells
      ensures Valid() && state.selectedSlots == [slotIndex]
      ensures forall k :: 0 <= k < SlotCount ==> cells[k] == old(cells[k]).(selected := k == slotIndex)
    {
      ClearSelection();
      AddSlot(slotIndex);
    }

    /** The selection change of a click: just this slot, or this slot toggled. */
    method Click(slotIndex: int, multiSelect: bool)
      requires Valid() && 0 <= slotIndex < SlotCount
      modifies state`selectedSlots, cells
      ensures Valid()
      ensures state.selectedSlots == (if multiSelect then Toggle(old(state.selectedSlots), slotIndex)
                                      else [slotIndex])
      ensures forall k :: 0 <= k < SlotCount ==>
                cells[k] == old(cells[k]).(selected := k in state.selectedSlots)
    {
      if !multiSelect {
        SelectOnly(slotIndex);
      } else if state.IsSelected(slotIndex) {
        DropSlot(slotIndex);
      } else {
        AddSlot(slotIndex);
      }
    }

    /**
     * `selectSlot`: ignored while dragging; a plain click selects just this
     * slot, a ctrl/cmd-click toggles it; then the card and the buttons follow.
     */
    method SelectSlot(slotIndex: int, multiSelect: bool)
      requires Valid() && 0 <= slotIndex < SlotCount
      modifies state`selectedSlots, cells, this`info, this`saveEnabled, this`deleteEnabled
      ensures Valid()
      ensures old(state.isDragging) ==> View() == old(View())
      ensures !old(state.isDragging) ==>
                state.selectedSlots == (if multiSelect then Toggle(old(state.selectedSlots), slotIndex)
                                        else [slotIndex])
      ensures !old(state.isDragging) ==>
                info == SlotInfo(state.selectedSlots, cells[..]) &&
                saveEnabled == SaveEnabled(state.selectedSlots, state.selectedTag) &&
                deleteEnabled == DeleteEnabled(state.selectedSlots, cells[..])
      ensures forall k :: 0 <= k < SlotCount ==>
                cells[k] == old(cells[k]).(selected := k in state.selectedSlots)
    {
      if state.isDragging {
        return;
      }
      Click(slotIndex, multiSelect);
      Refresh();
    }

    /** `startDrag`: anchors the drag and selects just the anchor slot. */
    method StartDrag(slotIndex: int)
      requires Valid() && 0 <= slotIndex < SlotCount
      modifies state`selectedSlots, state`isDragging, state`startSlot, cells
      ensures Valid()
      ensures state.isDragging && state.startSlot == Some(slotIndex)
      ensures state.selectedSlots == [slotIndex]
      ensures forall k :: 0 <= k < SlotCount ==> cells[k] == old(cells[k]).(selected := k == slotIndex)
    {
      state.SetDragging(true, Some(slotIndex));
      SelectOnly(slotIndex);
    }

    /**
     * `dragOver`: while dragging, the selection becomes every slot between
     * the anchor and this one, whatever was selected before.
     */
    method DragOver(slotIndex: int)
      requires Valid() && 0 <= slotIndex < SlotCount
      modifies state`selectedSlots, cells
      ensures Valid()
      ensures !old(state.isDragging) || old(state.startSlot).None? ==> View() == old(View())
      ensures old(state.isDragging) && old(state.startSlot).Some? ==>
                state.selectedSlots == DragRange(old(state.startSlot).value, slotIndex)
      ensures forall k :: 0 <= k < SlotCount ==>
                cells[k] == old(cells[k]).(selected := k in state.selectedSlots)
    {
      if !state.isDragging || state.startSlot.None? {
        return;
      }
      var startSlot := state.startSlot.value;
      var endSlot := slotIndex;
      ClearSelection();
      SelectRange(Min(startSlot, endSlot), Max(startSlot, endSlot));
    }

    /** The drag loop: adds `lo`, …, `hi` in order to an empty selection. */
    method SelectRange(lo: int, hi: int)
      requires Valid() && state.selectedSlots == [] && 0 <= lo <= hi < SlotCount
      modifies state`selectedSlots, cells
      ensures Valid() && state.selectedSlots == Interval(lo, hi)
      ensures forall k :: 0 <= k < SlotCount ==> cells[k] == old(cells[k]).(selected := lo <= k <= hi)
    {
      var i := lo;
      while i <= hi
        invariant lo <= i <= hi + 1
        invariant Valid()
        invariant state.selectedSlots == Interval(lo, i - 1)
        invariant forall k :: 0 <= k < SlotCount ==> cells[k] == old(cells[k]).(selected := lo <= k < i)
      {
        IntervalAdd(lo, i - 1);
        AddSlot(i);
        i := i + 1;
      }
    }

    /** `endDrag`: drops the anchor; the selection stays and the card and buttons follow. */
    method EndDrag()
      requires Valid()
      modifies state`isDragging, state`startSlot, this`info, this`saveEnabled, this`deleteEnabled
      ensures Valid()
      ensures !old(state.isDragging) ==> View() == old(View())
      ensures !state.isDragging && state.startSlot.None?
      ensures old(state.isDragging) ==>
                info == SlotInfo(state.selectedSlots, cells[..]) &&
                saveEnabled == SaveEnabled(state.selectedSlots, state.selectedTag) &&
                deleteEnabled == DeleteEnabled(state.selectedSlots, cells[..])
    {
      if state.isDragging {
        state.SetDragging(false, None);
        Refresh();
      }
    }

    /** `selectTag`: marks the pressed tag button and remembers the tag. */
    method SelectTag(tag: TagChoice, button: Option<int>)
      requires Valid()
      modifies state`selectedTag, this`activeTagButton, this`saveEnabled, this`deleteEnabled
      ensures Valid()
      ensures state.selectedTag == Some(tag) && activeTagButton == button
      ensures saveEnabled == SaveEnabled(state.selectedSlots, state.selectedTag)
      ensures deleteEnabled == DeleteEnabled(state.selectedSlots, cells[..])
    {
      activeTagButton := button;
      state.SetSelectedTag(Some(tag));
      UpdateButtons();
    }

    /** `_resetUI`: clears the memo, the selection and the tag; the card is left as it was. */
    method ResetUI()
      requires Valid()
      modifies this`memo, this`activeTagButton, this`saveEnabled, this`deleteEnabled,
               state`selectedSlots, state`selectedTag, cells
      ensures Valid()
      ensures memo == "" && state.selectedSlots == [] && state.selectedTag.None? && activeTagButton.None?
      ensures !saveEnabled && !deleteEnabled
      ensures forall k :: 0 <= k < SlotCount ==> cells[k] == old(cells[k]).(selected := false)
    {
      memo := "";
      ClearSelection();
      state.SetSelectedTag(None);
      activeTagButton := None;
      UpdateButtons();
    }

    /** `_triggerStatisticsUpdate`. */
    method TriggerStatisticsUpdate()
      modifies this`statisticsUpdates
      ensures statisticsUpdates == old(statisticsUpdates) + (if hasStatisticsUpdater then 1 else 0)
    {
      if hasStatisticsUpdater {
        statisticsUpdates := statisticsUpdates + 1;
      }
    }

    /**
     * `saveSlots`: refuses without a selection and a tag; otherwise sends the
     * selection, the tag id, the memo and the date, and on success paints
     * the selected cells and resets the controls.
     */
    method SaveSlots(reply: Reply, dateField: string, today: string)
      returns (request: Option<SaveRequest>, notice: Notice)
      requires Valid()
      modifies this, state`selectedSlots, state`selectedTag, cells
      ensures Valid()
      ensures request.None? <==> !SaveEnabled(old(state.selectedSlots), old(state.selectedTag))
      ensures request.None? ==> notice == Failure(Config.NoSelection) && View() == old(View())
      ensures request.Some? ==>
                request.value == SaveRequest(old(state.selectedSlots), old(state.selectedTag).value.id,
                                             old(memo), ChosenDate(dateField, today))
      ensures request.Some? && reply == Resolved(true, reply.message) ==>
                notice == Success(reply.message) &&
                memo == "" && state.selectedSlots == [] && state.selectedTag.None? &&
                activeTagButton.None? && !saveEnabled && !deleteEnabled && info == old(info) &&
                statisticsUpdates == old(statisticsUpdates) + (if hasStatisticsUpdater then 1 else 0) &&
                forall k :: 0 <= k < SlotCount ==>
                  cells[k] == (if k in old(state.selectedSlots)
                               then Painted(old(cells[k]), old(state.selectedTag).value, old(memo))
                               else old(cells[k])).(selected := false)
      ensures request.Some? && reply == Resolved(false, reply.message) ==>
                notice == Quiet && View() == old(View())
      ensures request.Some? && reply.Rejected? ==>
                notice == Failure(if reply.message != "" then reply.message else Config.SaveFailed) &&
                View() == old(View())
      ensures state.isDragging == old(state.isDragging) && state.startSlot == old(state.startSlot)
    {
      if state.GetSelectedCount() == 0 || state.selectedTag.None? {
        return None, Failure(Config.NoSelection);
      }
      var memoText := memo;
      var tag := state.selectedTag.value;
      var selected := state.selectedSlots;
      request := Some(SaveRequest(selected, tag.id, memoText, ChosenDate(dateField, today)));
      match reply
      case Resolved(success, message) =>
        if success {
          PaintSlots(cells, selected, tag, memoText);
          ResetUI();
          TriggerStatisticsUpdate();
          notice := Success(message);
        } else {
          notice := Quiet;
        }
      case Rejected(message) =>
        notice := Failure(if message != "" then message else Config.SaveFailed);
    }

    /**
     * `deleteSlots`: refuses without a selection or without a filled selected
     * slot, asks for confirmation with the number of filled slots, sends only
     * those, and on success wipes them and resets the controls.
     */
    method DeleteSlots(confirmed: bool, reply: Reply, dateField: string, today: string)
      returns (prompt: Option<string>, request: Option<DeleteRequest>, notice: Notice)
      requires Valid()
      modifies this, state`selectedSlots, state`selectedTag, cells
      ensures Valid()
      ensures old(state.selectedSlots) == [] ==>
                prompt.None? && request.None? && notice == Failure(Config.NoSlotsToDelete) && View() == old(View())
      ensures old(state.selectedSlots) != [] && old(FilledSubset(state.selectedSlots, cells[..])) == [] ==>
                prompt.None? && request.None? && notice == Failure(Config.NoFilledSlots) && View() == old(View())
      ensures prompt.Some? <==> old(DeleteEnabled(state.selectedSlots, cells[..]))
      ensures prompt.Some? ==>
                prompt.value == NatToString(|old(FilledSubset(state.selectedSlots, cells[..]))|) +
                                Config.ConfirmDeleteSlotsSuffix
      ensures request.Some? <==> prompt.Some? && confirmed
      ensures prompt.Some? && !confirmed ==> notice == Quiet && View() == old(View())
      ensures request.Some? ==>
                request.value == DeleteRequest(old(FilledSubset(state.selectedSlots, cells[..])),
                                               ChosenDate(dateField, today))
      ensures request.Some? && reply == Resolved(true, reply.message) ==>
                notice == Success(reply.message) &&
                memo == "" && state.selectedSlots == [] && state.selectedTag.None? &&
                activeTagButton.None? && !saveEnabled && !deleteEnabled && info == old(info) &&
                statisticsUpdates == old(statisticsUpdates) + (if hasStatisticsUpdater then 1 else 0) &&
                forall k :: 0 <= k < SlotCount ==>
                  cells[k] == (if k in old(FilledSubset(state.selectedSlots, cells[..]))
                               then Wiped(old(cells[k])) else old(cells[k])).(selected := false)
      ensures request.Some? && reply == Resolved(false, reply.message) ==>
                notice == Quiet && View() == old(View())
      ensures request.Some? && reply.Rejected? ==>
                notice == Failure(if reply.message != "" then reply.message else Config.DeleteFailed) &&
                View() == old(View())
      ensures state.isDragging == old(state.isDragging) && state.startSlot == old(state.startSlot)
    {
      prompt, request := None, None;
      if state.GetSelectedCount() == 0 {
        return None, None, Failure(Config.NoSlotsToDelete);
      }
      var filledSlots := GetFilledSlotsFromSelection();
      if |filledSlots| == 0 {
        return None, None, Failure(Config.NoFilledSlots);
      }
      prompt := Some(NatToString(|filledSlots|) + Config.ConfirmDeleteSlotsSuffix);
      if !confirmed {
        return prompt, None, Quiet;
      }
      request := Some(DeleteRequest(filledSlots, ChosenDate(dateField, today)));
      match reply
      case Resolved(success, message) =>
        if success {
          WipeSlots(cells, filledSlots);
          ResetUI();
          TriggerStatisticsUpdate();
          notice := Success(message);
        } else {
          notice := Quiet;
        }
      case Rejected(message) =>
        notice := Failure(if message != "" then message else Config.DeleteFailed);
    }

    /** `_handleGlobalMouseUp`: a mouse-up anywhere ends a drag. */
    method HandleGlobalMouseUp()
      requires Valid()
      modifies state`isDragging, state`startSlot, this`info, this`saveEnabled, this`deleteEnabled
      ensures Valid()
      ensures !old(state.isDragging) ==> View() == old(View())
      ensures !state.isDragging && state.startSlot.None?
      ensures old(state.isDragging) ==> info == SlotInfo(state.selectedSlots, cells[..])
    {
      if state.isDragging {
        EndDrag();
      }
    }

    /** `_handleKeyDown`: Escape clears the selection and updates the buttons. */
    method HandleKeyDown(key: string)
      requires Valid()
      modifies state`selectedSlots, cells, this`saveEnabled, this`deleteEnabled
      ensures Valid()
      ensures key != Config.EscapeKey ==> View() == old(View())
      ensures key == Config.EscapeKey ==>
                state.selectedSlots == [] && !saveEnabled && !deleteEnabled &&
                forall k :: 0 <= k < SlotCount ==> cells[k] == old(cells[k]).(selected := false)
    {
      if key == Config.EscapeKey {
        ClearSelection();
        UpdateButtons();
      }
    }
  }

  /**
   * The drag gesture as a whole: after a start at `a` and moves over `b`
   * and then `c`, exactly the slots between `a` and `c` are selected.
   */
  method DragGesture(m: SlotManager, a: int, b: int, c: int)
    requires m.Valid() && 0 <= a < SlotCount && 0 <= b < SlotCount && 0 <= c < SlotCount
    modifies m.state, m.cells, m
    ensures m.Valid()
    ensures m.state.selectedSlots == DragRange(a, c)
    ensures forall y :: y in m.state.selectedSlots <==> Min(a, c) <= y <= Max(a, c)
  {
    m.StartDrag(a);
    m.DragOver(b);
    m.DragOver(c);
  }
}
