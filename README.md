# lifeDiary, modelled in Dafny

lifeDiary is a personal time diary. A day is a grid of 144 ten-minute slots. The user selects slots, by clicking or by dragging across them, and saves a tag (a named, coloured category) and an optional memo on them. The server stores one row per user, date and slot. It then produces daily, weekly, monthly and per-tag statistics, counting unrecorded time under the unclassified tag (미분류).

This project models the deterministic core of that system and proves properties of it. It covers both the browser scripts and the Django backend. There is one Dafny module per source file, plus a few shared modules:

- **Day grid and slot selection**
  - `SlotGrid` holds the 144-cell grid array and the selection rules shared by both dashboard scripts.
  - `SlotManager` is the class-based dashboard page: a `SlotState` class and a `SlotManager` class whose handlers update the selection, the cells and the buttons.
  - `LegacyDashboard` is the older script: a `Page` class of its globals, and the colour-input sync.
- **Slot and time helpers**
  - `SlotUtils` covers the dashboard's slot and colour helpers.
  - `CoreUtils` holds the server-side constants, slot/time conversion, date ranges, response envelopes and the date parser.
  - `TimeBlockModel` and `TagModel` are the two tables with their constraints and `clean`.
- **Statistics**
  - `Statistics` is the dashboard's statistics panel.
  - `StatsLogic` is the server-side aggregation.
  - `StatsUtils` holds the integer-safe helpers of the statistics page.
  - `StatsViews` is `chunked_iterable`.
- **Requests and validation**
  - `DashboardViews` covers the dashboard page's slot list and the time-block API: validation, the create/update partition and the delete.
  - `Http`, `DashboardApi` and `TagApi` are the two `fetch` clients: outcome classification, status messages, message rewriting and the retry loop.
  - `CoreJs` is the shared `apiCall` wrapper.
  - `Cookies` holds the cookie readers, in their two shapes.
- **Tag page**
  - `TagUtils` holds the validators and the button loading state.
  - `TagUi` covers the rendering decisions and the dialog (`ModalManager`).
  - `TagManager` is the page controller.
- **Shared modules**
  - `Wrappers` holds the option and result types.
  - `Strings` holds the string built-ins the code relies on.
  - `DashboardConfig` and `TagsConfig` hold the configuration constants.

**How the model stands in for the runtime**
- Code that updates objects in place is modelled as classes with `modifies` clauses. This covers the slot state, the grid cells, the statistics snapshot, the tag manager, the dialog and the loading button.
- Loops are modelled as methods with invariants. This covers the cookie scan, grouping, the server tallies, the slot-list build, the partition, the retry loop and `chunked_iterable`.
- Pure code is modelled as functions with lemmas.
- Each awaited network call is a single step, and its outcome is a parameter. The same holds for the user's answer to a confirmation dialog and for today's date.
- ORM queries are replaced by the sequences of rows they return.

**Where the code and its comments disagree**
- The dashboard's minute headers: the comment at `lifeDiary/apps/dashboard/views.py:60` announces 1분, 11분, …, 51분. The expression on line 61 gives 10분 to 60분, twice over. The model follows the code (`DashboardViews.HeaderEnds`).

**Consequences the proofs bring out**
- The `INVALID_DATE_FORMAT` branch of the time-block API (`views.py:115-118`) can never be reached. `safe_date_parse` falls back to today's date and never returns nothing (`DashboardViews.ValidateRequest`).
- On a day with no duplicate slot, every hour of the daily statistics ends at exactly sixty minutes, because each gap is filled with unclassified time. So the reported peak hour is always hour 0 (`StatsLogic.FullDayPeaksAtMidnight`).

## Model

| member | source | states |
|---|---|---|
| Cookies.MatchEntry | lifeDiary/apps/core/static/core/js/utils.js:18-23 | one step of the scan: the entry is trimmed, and its rest after `name=` is returned exactly when the trimmed entry starts with `name=` |
| Cookies.ScanCookies | lifeDiary/apps/core/static/core/js/utils.js:16-24 | the loop over the `split(';')` entries returns the rest of the first trimmed entry that starts with `name=`, or null when none does |
| Cookies.GetCookie | lifeDiary/apps/core/static/core/js/utils.js:13-27 | the loop variant (also lifeDiary/apps/dashboard/static/dashboard/js/dashboard.js:93-106, where the name is always given) returns the rest of the first matching trimmed entry (the name defaulting to `csrftoken`), and null when the cookie string is empty |
| Cookies.FirstMatchFromIsFirst | lifeDiary/apps/core/static/core/js/utils.js:17-22 | the entry the scan stops at is the first match: no earlier entry starts with `name=`, and none at all when nothing is found |
| Cookies.RemainderReassembles | lifeDiary/apps/core/static/core/js/utils.js:20-21 | a found value is exactly what follows `name=` in some trimmed entry: the entry is `name=` followed by the value |
| Cookies.GetCookieSegment | lifeDiary/apps/dashboard/static/dashboard/js/utils.js:13-25 | the split variant (also lifeDiary/apps/tags/static/tags/js/utils.js:13-25) finds a cookie exactly when the loop variant does, and its value never contains '=' |
| Cookies.SegmentAfterFirstEquals | lifeDiary/apps/dashboard/static/dashboard/js/utils.js:23 | `split('=')[1]` is the part between the first and second '=' and so contains no '=' |
| Cookies.VariantsDifferOnEquals | lifeDiary/apps/dashboard/static/dashboard/js/utils.js:22-24 | on the cookie `t=a=b` the loop variant returns `a=b` and the split variant returns only `a` |
| CoreUtils.SlotFromTimeFromSlot | lifeDiary/apps/core/utils.py:121-149 | converting a slot index to its start time and back gives the same index, for every index |
| CoreUtils.TimeFromSlotFromTime | lifeDiary/apps/core/utils.py:121-149 | converting a time to its slot and back gives the same hour with the minute rounded down to a multiple of ten |
| CoreUtils.GetTimeFromSlotBounds | lifeDiary/apps/core/utils.py:137-149 | every slot of the day starts at an hour from 0 to 23 and at a minute 0, 10, …, 50 |
| CoreUtils.CalculateTimeStatistics | lifeDiary/apps/core/utils.py:58-78 | the total is ten minutes per block, split exactly into hours and the remaining minutes (under 60, a multiple of ten); a day's worth of blocks is at most 24 hours |
| CoreUtils.FormatTimeDisplay | lifeDiary/apps/core/utils.py:152-170 | exactly the four texts: "<h>시간 <m>분" when both are positive, "<h>시간" when only the hours are, "<m>분" when only the minutes are, and "0분" exactly when neither is |
| CoreUtils.FormatTimeDisplayReadsBack | lifeDiary/apps/core/utils.py:152-170 | reading the text back gives the hours and minutes it was made from, each non-positive part read as zero |
| CoreUtils.GetSlotFromTime | lifeDiary/apps/core/utils.py:121-134 | for a minute below sixty, the slot is the ten-minute interval of the day that contains hour:minute |
| CoreUtils.GetTimeFromSlot | lifeDiary/apps/core/utils.py:137-149 | the time at which the slot starts: 60 × hour + minute is ten times the slot, with the minute below sixty and a multiple of ten |
| CoreUtils.GetWeekDateRange | lifeDiary/apps/core/utils.py:173-188 | the week starts on the Monday on or before the date, at most six days back, and ends six days later on Sunday |
| CoreUtils.WeekStartUnique | lifeDiary/apps/core/utils.py:183-186 | that Monday is the only Monday at most six days before the date |
| CoreUtils.DaysInMonth | lifeDiary/apps/core/utils.py:201-204 | every month has 28 to 31 days |
| CoreUtils.FebruaryLength | lifeDiary/apps/core/utils.py:204 | February has 29 days exactly in Gregorian leap years (1900 no, 2000 and 2024 yes) |
| CoreUtils.NextDay | lifeDiary/apps/core/utils.py:191-207 | the day after a valid date is a valid date |
| CoreUtils.GetMonthDateRange | lifeDiary/apps/core/utils.py:191-207 | the month starts on day one of the date's month and ends on its last day: both are valid dates of that month around the date, and the day after the end is in another month |
| CoreUtils.SuccessResponse | lifeDiary/apps/core/utils.py:81-98 | a success body carries the message and status, includes `data` exactly when the data is truthy, and has no error code |
| CoreUtils.ErrorResponse | lifeDiary/apps/core/utils.py:101-118 | a failure body carries the message and status, has no data, and includes the error code exactly when one is given and non-empty |
| CoreUtils.SafeDateParse | lifeDiary/apps/core/utils.py:38-55 | a missing, empty or unparsable date string gives the default or, without one, today; a parsable one gives the parsed date |
| TimeBlockModel.UniqueDaySlotsDistinct | lifeDiary/apps/dashboard/models.py:40-46 | under unique_user_date_slot, the rows of one user's day occupy pairwise different slot indexes |
| TimeBlockModel.SlotIndexToTimeToSlotIndex | lifeDiary/apps/dashboard/models.py:65-75 | converting a slot index to its time and back gives the same index |
| TimeBlockModel.TimeToSlotIndexToTime | lifeDiary/apps/dashboard/models.py:65-75 | converting a time to its slot and back keeps the hour and rounds the minute down to ten |
| TimeBlockModel.TimeToSlotIndex | lifeDiary/apps/dashboard/models.py:65-68 | for a minute below sixty, the slot index is the ten-minute interval of the day containing hour:minute |
| TimeBlockModel.SlotIndexToTime | lifeDiary/apps/dashboard/models.py:70-75 | the slot starts at 60 × hour + minute = ten times its index, the minute below sixty and a multiple of ten |
| TimeBlockModel.HelpersAgreeWithCore | lifeDiary/apps/dashboard/models.py:65-75 | the model's static helpers compute the same as get_slot_from_time and get_time_from_slot of lifeDiary/apps/core/utils.py |
| TimeBlockModel.Clock | lifeDiary/apps/dashboard/models.py:63 | `{:02d}:{:02d}` is five characters, two digits, a colon and two digits, and reads back as the same number of minutes |
| TimeBlockModel.GetTimeRange | lifeDiary/apps/dashboard/models.py:58-63 | the range is "HH:MM-HH:MM": it starts 10 × slot minutes after midnight and ends ten minutes later |
| TimeBlockModel.FirstSlotRange | lifeDiary/apps/dashboard/models.py:23 | the first slot is "00:00-00:10", as the field's help text says |
| TimeBlockModel.LastSlotRange | lifeDiary/apps/dashboard/models.py:23 | the last slot, 143, is "23:50-24:00", as the field's help text says |
| TimeBlockModel.Str | lifeDiary/apps/dashboard/models.py:54-56 | a block reads "user - date [range] tag": the user's name, " - ", the date, the slot's "HH:MM-HH:MM" range in brackets, a space and the name it is shown under |
| TimeBlockModel.StrOfUntagged | lifeDiary/apps/dashboard/models.py:55 | a block without a tag, or whose tag was deleted, ends in the unclassified tag's name |
| TimeBlockModel.Clean | lifeDiary/apps/dashboard/models.py:77-87 | a block is refused, with the foreign-tag message, exactly when its tag is a non-default tag of another user |
| TimeBlockModel.CleanAcceptsOwnAndDefault | lifeDiary/apps/dashboard/models.py:81-86 | untagged blocks, blocks with a default tag and blocks with one of the user's own tags pass |
| TagModel.ValidColorIsHex6 | lifeDiary/apps/tags/models.py:27-37 | with the seven-character limit and the regex, a valid colour is exactly `#` and six hex digits |
| TagModel.ColorRegexMatches | lifeDiary/apps/tags/models.py:30-33 | a colour the regex accepts is `#` and six hex digits, optionally followed by one more character (Python `$` admits a final newline); within the length limit it is exactly `#` and six hex digits |
| TagModel.RegexAloneAdmitsNewline | lifeDiary/apps/tags/models.py:30-33 | the regex by itself (Python `$`) also accepts a colour with one trailing newline, which only the length limit excludes |
| TagModel.Insert | lifeDiary/apps/tags/models.py:49-62 | an insert succeeds exactly when it breaks neither constraint, appends the row, and otherwise fails with the message of the constraint it breaks, the per-user one first |
| TagModel.InsertPreservesConstraints | lifeDiary/apps/tags/models.py:49-62 | an accepted insert keeps both uniqueness constraints |
| TagModel.SameNameForDifferentOwners | lifeDiary/apps/tags/models.py:50-61 | two users may have tags of the same name, a user tag may share a default tag's name, and two default tags may not |
| TagModel.Str | lifeDiary/apps/tags/models.py:65-68 | a default tag shows as "[기본] name", a user tag as "username - name", an ownerless non-default tag as "시스템 - name" |
| TagModel.Clean | lifeDiary/apps/tags/models.py:70-76 | a non-empty name is stripped in place and only the other fields stay; a name that strips to nothing is refused with the blank-name message; an empty name is left alone |
| TagModel.CleanIdempotent | lifeDiary/apps/tags/models.py:70-76 | cleaning a row that was cleaned without error changes it no further |
| SlotUtils.IndexToTimeString | lifeDiary/apps/dashboard/static/dashboard/js/utils.js:88-93 | a slot's start is "HH:MM", zero-padded, ten minutes per slot after midnight, with the minute a multiple of ten up to 50 |
| SlotUtils.IndexToTimeRange | lifeDiary/apps/dashboard/static/dashboard/js/utils.js:100-104 | the range is the slot's start, a hyphen, and the next slot's start |
| SlotUtils.TimeRangeMatchesServer | lifeDiary/apps/dashboard/static/dashboard/js/utils.js:100-104 | for every slot of the day the browser's range text is the server's `get_time_range` text (lifeDiary/apps/dashboard/models.py:58-63) |
| SlotUtils.InsertSorted | lifeDiary/apps/dashboard/static/dashboard/js/utils.js:114 | inserting into a sorted sequence keeps it sorted and adds exactly one occurrence of the element |
| SlotUtils.SortAsc | lifeDiary/apps/dashboard/static/dashboard/js/utils.js:114 | `[...s].sort((a, b) => a - b)` gives a sorted permutation of the input |
| SlotUtils.SortedIsIdentity | lifeDiary/apps/dashboard/static/dashboard/js/utils.js:114 | sorting an already sorted sequence changes nothing |
| SlotUtils.SortedUnique | lifeDiary/apps/dashboard/static/dashboard/js/utils.js:114 | two sorted sequences with the same elements are the same sequence, so the sort result is determined by its input's multiset |
| SlotUtils.GroupRuns | lifeDiary/apps/dashboard/static/dashboard/js/utils.js:116-126 | the cutting loop splits a non-empty sorted sequence into its maximal runs of consecutive numbers |
| SlotUtils.GroupConsecutiveSlots | lifeDiary/apps/dashboard/static/dashboard/js/utils.js:111-129 | the groups are the maximal runs of the sorted input: they join to the sorted input, each is a non-empty run, no group continues its predecessor; no groups exactly for no input |
| SlotUtils.GroupingUnique | lifeDiary/apps/dashboard/static/dashboard/js/utils.js:111-129 | there is only one way to split a sequence into maximal runs, so the result is determined |
| SlotUtils.FirstGroupLength | lifeDiary/apps/dashboard/static/dashboard/js/utils.js:118-124 | the first group ends at the first place where the next number is not one more |
| SlotUtils.GroupingExample | lifeDiary/apps/dashboard/static/dashboard/js/utils.js:106-110 | [1, 2, 3, 7, 8, 10] groups as [[1, 2, 3], [7, 8], [10]] and as nothing else |
| SlotUtils.DurationText | lifeDiary/apps/dashboard/static/dashboard/js/utils.js:141-144 | exactly the four texts: "0시간 0분" for nothing, "<m>분" for minutes only, "<h>시간" for hours only, "<h>시간 <m>분" for both |
| SlotUtils.DurationTextReadsBack | lifeDiary/apps/dashboard/static/dashboard/js/utils.js:141-144 | reading the text back gives both of its numbers, zero included |
| SlotUtils.SlotsToTimeString | lifeDiary/apps/dashboard/static/dashboard/js/utils.js:136-145 | "0시간 0분" exactly for no slots; otherwise the very text of the server's format_time_display (lifeDiary/apps/core/utils.py:152-170) for the slots' whole hours and remaining minutes |
| SlotUtils.SlotsToTimeStringReadsBack | lifeDiary/apps/dashboard/static/dashboard/js/utils.js:136-145 | the text reads back as hours and minutes below sixty that add up to ten minutes per slot |
| SlotUtils.IsValidHexExamples | lifeDiary/apps/dashboard/static/dashboard/js/utils.js:157-159 | the regex accepts "#a0B1c2" and "#FFFFFF" and refuses "#abc", "a0b1c2", a trailing newline and a non-hex digit |
| SlotUtils.GetContrastColor | lifeDiary/apps/dashboard/static/dashboard/js/utils.js:179-181 | the text colour is always "black" or "white" |
| SlotUtils.ContrastOfHexColor | lifeDiary/apps/dashboard/static/dashboard/js/utils.js:166-181 | for "#RRGGBB" the text is black exactly when 299·R + 587·G + 114·B exceeds 128 000, that is a brightness above 128 |
| SlotGrid.SetAdd | lifeDiary/apps/dashboard/static/dashboard/js/slot-manager.js:25-27 | `Set.add`: the element is present afterwards, all others are kept in order, and the size grows by one exactly when it was absent |
| SlotGrid.SetDelete | lifeDiary/apps/dashboard/static/dashboard/js/slot-manager.js:33-35 | `Set.delete`: the element is gone afterwards, the others are kept, and the size shrinks by one exactly when it was present |
| SlotGrid.Toggle | lifeDiary/apps/dashboard/static/dashboard/js/slot-manager.js:147-154 | the ctrl/cmd-click flips the clicked slot's membership and no other, keeping the selection duplicate-free |
| SlotGrid.ToggleTwice | lifeDiary/apps/dashboard/static/dashboard/js/slot-manager.js:147-154 | toggling the same slot twice restores the selection's elements, and the very same sequence when the slot was not selected |
| SlotGrid.DeleteAbsent | lifeDiary/apps/dashboard/static/dashboard/js/slot-manager.js:33-35 | deleting an absent slot changes nothing |
| SlotGrid.DeleteLast | lifeDiary/apps/dashboard/static/dashboard/js/slot-manager.js:33-35 | deleting the slot just added restores the selection |
| SlotGrid.Interval | lifeDiary/apps/dashboard/static/dashboard/js/slot-manager.js:194-200 | the drag loop visits min, min + 1, …, max in order |
| SlotGrid.DragRange | lifeDiary/apps/dashboard/static/dashboard/js/slot-manager.js:186-200 | a drag selects exactly the slots between the anchor and the current slot, each once, in ascending order |
| SlotGrid.DragRangeSymmetric | lifeDiary/apps/dashboard/static/dashboard/js/slot-manager.js:191-192 | the selected range does not depend on the drag's direction |
| SlotGrid.FilledSubset | lifeDiary/apps/dashboard/static/dashboard/js/slot-manager.js:333-338 | the selected slots whose cell is filled, in selection order: no more than the selection, within the grid, duplicate-free when it is |
| SlotGrid.DeleteEnabledIff | lifeDiary/apps/dashboard/static/dashboard/js/slot-manager.js:507-510 | the Delete button is enabled exactly when some selected slot is filled |
| SlotGrid.FilledTitle | lifeDiary/apps/dashboard/static/dashboard/js/slot-manager.js:364 | the tooltip starts with "time - tag name" and is exactly that when there is no memo |
| SlotGrid.Label | lifeDiary/apps/dashboard/static/dashboard/js/slot-manager.js:369 | the badge is the first three UTF-16 code units of the tag name (all of them for a name shorter than three units): a prefix of the name's encoding, of length min(3, its JavaScript length) |
| SlotGrid.LabelOfPlainName | lifeDiary/apps/dashboard/static/dashboard/js/slot-manager.js:369 | for a name without characters outside the Basic Multilingual Plane, the badge decodes to the name's first three characters, or the whole of a shorter name |
| SlotGrid.LabelSplitsSurrogatePair | lifeDiary/apps/dashboard/static/dashboard/js/slot-manager.js:369 | for a name of two astral characters (two emoji, say) the badge is three units long and decodes to no string: the cut leaves a lone high surrogate |
| SlotGrid.TitleRoundTrip | lifeDiary/apps/dashboard/static/dashboard/js/slot-manager.js:454-457 | reading the tag name back from a tooltip (split on " - ", then on ':') gives the name it was built from, when the name contains neither ':' nor " - " |
| SlotGrid.TagNameFromTitle | lifeDiary/apps/dashboard/static/dashboard/js/slot-manager.js:452-457 | the name read from a tooltip contains no colon, and is empty when the tooltip has no " - " |
| SlotGrid.SecondPartAfterTime | lifeDiary/apps/dashboard/static/dashboard/js/slot-manager.js:454-456 | since the time has no space, the second " - " part starts right after the time |
| SlotGrid.EmptyTitleRoundTrip | lifeDiary/apps/dashboard/static/dashboard/js/slot-manager.js:388 | an emptied cell's tooltip reads back as "빈 슬롯" |
| SlotGrid.SlotTimeHasNoSpace | lifeDiary/apps/dashboard/static/dashboard/js/utils.js:88-93 | a grid slot's `data-time` "HH:MM" contains no space, so the round trips above apply to every cell |
| SlotGrid.Painted | lifeDiary/apps/dashboard/static/dashboard/js/slot-manager.js:362-372 | a saved cell is filled, has the tag's colour, its three-code-unit badge and its tooltip, and keeps its time and selection |
| SlotGrid.Wiped | lifeDiary/apps/dashboard/static/dashboard/js/slot-manager.js:386-389 | a deleted cell is unfilled, uncoloured, without badge (no code units), with the empty-slot tooltip, and keeps its time and selection |
| SlotGrid.PaintedReadsBack | lifeDiary/apps/dashboard/static/dashboard/js/slot-manager.js:362-364 | a painted cell reads back as the tag it was painted with |
| SlotGrid.UnmarkAll | lifeDiary/apps/dashboard/static/dashboard/js/slot-manager.js:219-221 | every cell loses the `selected` class and nothing else about it changes |
| SlotGrid.Mark | lifeDiary/apps/dashboard/static/dashboard/js/slot-manager.js:145 | one cell gets or loses the `selected` class and no other cell changes |
| SlotGrid.PaintSlots | lifeDiary/apps/dashboard/static/dashboard/js/slot-manager.js:357-374 | exactly the listed cells are painted with the tag and memo; the others are unchanged |
| SlotGrid.WipeSlots | lifeDiary/apps/dashboard/static/dashboard/js/slot-manager.js:381-391 | exactly the listed cells are wiped; the others are unchanged |
| SlotGrid.ChosenDate | lifeDiary/apps/dashboard/static/dashboard/js/slot-manager.js:345-348 | the date selector's value when it is non-empty, today's date otherwise |
| SlotManager.RenderSingleSlotInfo | lifeDiary/apps/dashboard/static/dashboard/js/slot-manager.js:448-469 | one slot's card shows its time range and, for a filled slot, the tag name read from its tooltip, otherwise the empty-slot text |
| SlotManager.SingleInfoShowsPaintedTag | lifeDiary/apps/dashboard/static/dashboard/js/slot-manager.js:448-469 | a slot painted with a tag shows that tag's name in the card |
| SlotManager.SeqMin | lifeDiary/apps/dashboard/static/dashboard/js/slot-manager.js:478-479 | the smallest selected slot, which is in the selection |
| SlotManager.SeqMax | lifeDiary/apps/dashboard/static/dashboard/js/slot-manager.js:478-479 | the largest selected slot, which is in the selection |
| SlotManager.SortedEnds | lifeDiary/apps/dashboard/static/dashboard/js/slot-manager.js:478-479 | the first and last of the sorted copy are the smallest and largest selected slots |
| SlotManager.RenderMultipleSlotInfo | lifeDiary/apps/dashboard/static/dashboard/js/slot-manager.js:477-493 | several slots' card shows their count, the range from the start of the earliest slot to the end of the latest, and their duration text |
| SlotManager.IntervalAdd | lifeDiary/apps/dashboard/static/dashboard/js/slot-manager.js:194-195 | adding the next slot to an interval of slots extends the interval |
| SlotManager.SlotInfo | lifeDiary/apps/dashboard/static/dashboard/js/slot-manager.js:416-440 | the card is hidden exactly for no selection, shows one slot exactly for a single selected slot, and otherwise counts the selection |
| SlotManager.SlotState.constructor | lifeDiary/apps/dashboard/static/dashboard/js/slot-manager.js:14-19 | a new state has no selection, no tag, no drag and no anchor |
| SlotManager.SlotState.AddSelectedSlot | lifeDiary/apps/dashboard/static/dashboard/js/slot-manager.js:25-27 | the selection gains the slot as `Set.add` does |
| SlotManager.SlotState.RemoveSelectedSlot | lifeDiary/apps/dashboard/static/dashboard/js/slot-manager.js:33-35 | the selection loses the slot as `Set.delete` does |
| SlotManager.SlotState.ClearSelection | lifeDiary/apps/dashboard/static/dashboard/js/slot-manager.js:40-42 | the selection is empty |
| SlotManager.SlotState.GetSelectedCount | lifeDiary/apps/dashboard/static/dashboard/js/slot-manager.js:65-67 | `selectedSlots.size`: for a duplicate-free selection, the number of distinct selected slots |
| SlotManager.SlotState.SetSelectedTag | lifeDiary/apps/dashboard/static/dashboard/js/slot-manager.js:73-75 | the tag is remembered |
| SlotManager.SlotState.SetDragging | lifeDiary/apps/dashboard/static/dashboard/js/slot-manager.js:82-85 | the drag flag and anchor are set, the anchor null by default |
| SlotManager.SlotManager.constructor | lifeDiary/apps/dashboard/static/dashboard/js/slot-manager.js:92-98 | a new manager starts with no selection, no tag, no drag, a hidden card and disabled buttons, over a grid whose cells carry their slot's start time |
| SlotManager.SlotManager.ClearSelection | lifeDiary/apps/dashboard/static/dashboard/js/slot-manager.js:217-222 | the selection is emptied and every cell loses `selected`, nothing else changing |
| SlotManager.SlotManager.UpdateButtons | lifeDiary/apps/dashboard/static/dashboard/js/slot-manager.js:499-511 | Save is enabled exactly with a selection and a tag, Delete exactly when a selected slot is filled |
| SlotManager.SlotManager.GetFilledSlotsFromSelection | lifeDiary/apps/dashboard/static/dashboard/js/slot-manager.js:333-338 | exactly the selected slots whose cell is filled, without duplicates and no more than the selection |
| SlotManager.SlotManager.ShowSlotInfo | lifeDiary/apps/dashboard/static/dashboard/js/slot-manager.js:416-440 | the card shows what SlotInfo gives for the selection |
| SlotManager.SlotManager.Refresh | lifeDiary/apps/dashboard/static/dashboard/js/slot-manager.js:157-158 | the card and both buttons follow the selection; no cell changes |
| SlotManager.SlotManager.AddSlot | lifeDiary/apps/dashboard/static/dashboard/js/slot-manager.js:144-145 | the slot is added to the selection and its cell marked, no other cell changing |
| SlotManager.SlotManager.DropSlot | lifeDiary/apps/dashboard/static/dashboard/js/slot-manager.js:149-150 | the slot is removed from the selection and its cell unmarked, no other cell changing |
| SlotManager.SlotManager.SelectOnly | lifeDiary/apps/dashboard/static/dashboard/js/slot-manager.js:143-145 | the selection is just that slot and only its cell is marked |
| SlotManager.SlotManager.Click | lifeDiary/apps/dashboard/static/dashboard/js/slot-manager.js:139-155 | a plain click selects just the slot, a ctrl/cmd-click toggles it; the marked cells are exactly the selected ones |
| SlotManager.SlotManager.SelectSlot | lifeDiary/apps/dashboard/static/dashboard/js/slot-manager.js:132-159 | ignored while dragging; otherwise the click's selection change, then the card and buttons follow it; the marked cells are exactly the selected ones |
| SlotManager.SlotManager.StartDrag | lifeDiary/apps/dashboard/static/dashboard/js/slot-manager.js:165-176 | the drag is anchored at the slot and the selection is just that slot |
| SlotManager.SlotManager.DragOver | lifeDiary/apps/dashboard/static/dashboard/js/slot-manager.js:182-201 | without a drag nothing changes; during one, the selection becomes exactly the slots between the anchor and this slot, marked in the grid |
| SlotManager.SlotManager.SelectRange | lifeDiary/apps/dashboard/static/dashboard/js/slot-manager.js:194-200 | the loop adds lo … hi to the empty selection, marking exactly those cells |
| SlotManager.SlotManager.EndDrag | lifeDiary/apps/dashboard/static/dashboard/js/slot-manager.js:206-212 | the drag ends and the selection stays; when a drag was in progress the card and buttons follow; otherwise nothing changes |
| SlotManager.SlotManager.SelectTag | lifeDiary/apps/dashboard/static/dashboard/js/slot-manager.js:229-242 | the pressed tag and its button become active and the buttons follow |
| SlotManager.SlotManager.ResetUI | lifeDiary/apps/dashboard/static/dashboard/js/slot-manager.js:397-410 | the memo, selection, tag and active button are cleared, both buttons disabled, every cell unmarked |
| SlotManager.SlotManager.TriggerStatisticsUpdate | lifeDiary/apps/dashboard/static/dashboard/js/slot-manager.js:517-521 | the statistics callback runs once exactly when one was given |
| SlotManager.SlotManager.SaveSlots | lifeDiary/apps/dashboard/static/dashboard/js/slot-manager.js:247-275 | without a selection and a tag: the no-selection error and no change; otherwise the selection, tag id, memo and date are sent; on `success` the selected cells are painted, the controls reset, statistics refreshed and the message shown; a thrown error shows its message or the save-failed text and changes nothing |
| SlotManager.SlotManager.DeleteSlots | lifeDiary/apps/dashboard/static/dashboard/js/slot-manager.js:280-316 | no selection or no filled selected slot: the matching error and no change; otherwise the count of filled slots is confirmed, only those are sent, and on `success` they are wiped and the controls reset; a refusal or a thrown error changes nothing |
| SlotManager.SlotManager.HandleGlobalMouseUp | lifeDiary/apps/dashboard/static/dashboard/js/slot-manager.js:528-532 | a mouse-up ends any drag and refreshes the card; without a drag nothing changes |
| SlotManager.SlotManager.HandleKeyDown | lifeDiary/apps/dashboard/static/dashboard/js/slot-manager.js:539-544 | Escape clears the selection and disables both buttons; any other key changes nothing |
| SlotManager.DragGesture | lifeDiary/apps/dashboard/static/dashboard/js/slot-manager.js:165-201 | after a drag starts at a and passes over b and then c, exactly the slots between a and c are selected |
| LegacyDashboard.MessageOr | lifeDiary/apps/dashboard/static/dashboard/js/dashboard.js:74 | `result.message \|\| fallback`: a present non-empty message, otherwise the fallback |
| LegacyDashboard.JsText | lifeDiary/apps/dashboard/static/dashboard/js/dashboard.js:953 | string concatenation with a value: the text itself, or "undefined" when absent |
| LegacyDashboard.ApiCall | lifeDiary/apps/dashboard/static/dashboard/js/dashboard.js:43-88 | a non-ok 403, 404 or 5xx becomes its fixed message; other statuses reach the body; `success === false` is thrown with its message or the unknown-error text; a TypeError mentioning fetch becomes the network message; every other error passes unchanged; a returned body never says `success: false` |
| LegacyDashboard.ApiCallPassesBody | lifeDiary/apps/dashboard/static/dashboard/js/dashboard.js:56-77 | a parsed body that does not say `success: false` reaches the caller unchanged when the status has no fixed message |
| LegacyDashboard.LegacySingleSlotInfo | lifeDiary/apps/dashboard/static/dashboard/js/dashboard.js:765-803 | one slot's card shows "HH:MM - HH:MM" and, for a filled slot, the tag name read from its tooltip, otherwise the empty-slot text |
| LegacyDashboard.LegacyDuration | lifeDiary/apps/dashboard/static/dashboard/js/dashboard.js:842-854 | the duration line always has the form "<h>시간 <m>분" |
| LegacyDashboard.LegacyMultipleSlotInfo | lifeDiary/apps/dashboard/static/dashboard/js/dashboard.js:827-857 | several slots' card shows their count, the same range as the newer page, and the legacy duration |
| LegacyDashboard.LegacySlotInfo | lifeDiary/apps/dashboard/static/dashboard/js/dashboard.js:755-872 | the card is hidden exactly for no selection and shows one slot exactly for one selected slot |
| LegacyDashboard.SingleRangeIsSpanOfOne | lifeDiary/apps/dashboard/static/dashboard/js/dashboard.js:778 | a single slot's range is the multi-slot range of that slot alone |
| LegacyDashboard.DurationTexts | lifeDiary/apps/dashboard/static/dashboard/js/dashboard.js:854 | the legacy page and the newer page agree on nine slots ("1시간 30분") and differ on two ("0시간 20분" versus "20분") |
| LegacyDashboard.LegacyDurationParts | lifeDiary/apps/dashboard/static/dashboard/js/dashboard.js:842-854 | for slotCount × 10 = 60h + m with m < 60, the duration text is "<h>시간 <m>분" |
| LegacyDashboard.ColorSync.constructor | lifeDiary/apps/dashboard/static/dashboard/js/dashboard.js:17-21 | the picker starts on a valid `#rrggbb` colour and the text field on its text |
| LegacyDashboard.ColorSync.OnColorInput | lifeDiary/apps/dashboard/static/dashboard/js/dashboard.js:24-26 | a picked colour is copied into the text field |
| LegacyDashboard.ColorSync.OnTextInput | lifeDiary/apps/dashboard/static/dashboard/js/dashboard.js:29-33 | typed text reaches the picker exactly when it is `#` and six hex digits; the picker keeps a valid colour |
| LegacyDashboard.Page.constructor | lifeDiary/apps/dashboard/static/dashboard/js/dashboard.js:637-1030 | the page starts with no selection, tag, drag, memo or active button, a hidden card and disabled buttons, over a grid whose cells carry their slot's start time |
| LegacyDashboard.Page.ClearSelection | lifeDiary/apps/dashboard/static/dashboard/js/dashboard.js:677-682 | the selection is emptied and every cell loses `selected` |
| LegacyDashboard.Page.AddSlot | lifeDiary/apps/dashboard/static/dashboard/js/dashboard.js:664-665 | the slot is added and the marked cells are exactly the selected ones |
| LegacyDashboard.Page.DropSlot | lifeDiary/apps/dashboard/static/dashboard/js/dashboard.js:661-662 | the slot is removed and the marked cells are exactly the selected ones |
| LegacyDashboard.Page.SelectOnly | lifeDiary/apps/dashboard/static/dashboard/js/dashboard.js:655-657 | the selection is just that slot and only its cell is marked |
| LegacyDashboard.Page.UpdateButtons | lifeDiary/apps/dashboard/static/dashboard/js/dashboard.js:875-891 | Save is enabled exactly with a selection and a tag; Delete exactly when some selected slot is filled, the same rule as the newer page |
| LegacyDashboard.Page.ShowSlotInfo | lifeDiary/apps/dashboard/static/dashboard/js/dashboard.js:755-872 | the card shows what LegacySlotInfo gives for the selection |
| LegacyDashboard.Page.Refresh | lifeDiary/apps/dashboard/static/dashboard/js/dashboard.js:670-673 | the card and both buttons follow the selection; no cell changes |
| LegacyDashboard.Page.Click | lifeDiary/apps/dashboard/static/dashboard/js/dashboard.js:651-667 | a plain click selects just the slot, a ctrl/meta-click toggles it |
| LegacyDashboard.Page.SelectSlot | lifeDiary/apps/dashboard/static/dashboard/js/dashboard.js:644-674 | ignored while dragging; otherwise the click's change, then the card and buttons follow |
| LegacyDashboard.Page.StartDrag | lifeDiary/apps/dashboard/static/dashboard/js/dashboard.js:685-698 | the drag is anchored at the slot and the selection is just that slot; the card is not refreshed |
| LegacyDashboard.Page.SelectRange | lifeDiary/apps/dashboard/static/dashboard/js/dashboard.js:712-716 | the loop adds lo … hi to the empty selection, marking exactly those cells |
| LegacyDashboard.Page.DragSelect | lifeDiary/apps/dashboard/static/dashboard/js/dashboard.js:705-716 | the selection becomes exactly the slots between the anchor and the current slot |
| LegacyDashboard.Page.DragAndRefresh | lifeDiary/apps/dashboard/static/dashboard/js/dashboard.js:705-719 | the drag's new selection, with the card and buttons following it |
| LegacyDashboard.Page.DragOver | lifeDiary/apps/dashboard/static/dashboard/js/dashboard.js:701-720 | without a drag nothing changes; with one, the selection is the range between anchor and slot and the card and buttons follow |
| LegacyDashboard.Page.EndDrag | lifeDiary/apps/dashboard/static/dashboard/js/dashboard.js:723-732 | the drag ends; when one was in progress the card and buttons follow; otherwise nothing changes |
| LegacyDashboard.Page.SelectTag | lifeDiary/apps/dashboard/static/dashboard/js/dashboard.js:893-909 | the tag and its button become active and the buttons follow |
| LegacyDashboard.Page.ResetUI | lifeDiary/apps/dashboard/static/dashboard/js/dashboard.js:1015-1030 | memo, selection, tag and active button are cleared, both buttons disabled, the card hidden and every cell unmarked |
| LegacyDashboard.Page.SaveSlot | lifeDiary/apps/dashboard/static/dashboard/js/dashboard.js:912-959 | without a selection and a tag: an alert and nothing else changes; otherwise the selection, tag id, memo and date are posted; on `success` the selected cells are painted and the page reset (selection, tag, memo and active button cleared, both buttons disabled); a body without `success` alerts "저장 실패: " and its message, and an error the save-error text, both leaving the page unchanged; the page is never reloaded |
| LegacyDashboard.Page.DeleteSlot | lifeDiary/apps/dashboard/static/dashboard/js/dashboard.js:962-1010 | no selection or no filled selected slot: the matching alert and nothing else changes; otherwise the filled count is confirmed and a declined prompt shows nothing and changes nothing; a confirmed delete sends only the filled slots; on `success` they are wiped, the page reset and reloaded and the message alerted; a failure or error alerts and leaves the page unchanged |
| LegacyDashboard.SaveFailedNeedsMissingFlag | lifeDiary/apps/dashboard/static/dashboard/js/dashboard.js:73-75 | the "저장 실패" branch needs a body without `success`, since `success: false` already becomes an error in apiCall |
| Statistics.FilledIndexes | lifeDiary/apps/dashboard/static/dashboard/js/statistics.js:264-269 | the slot indexes of the filled cells, in document order: increasing, and exactly the filled cells' indexes |
| Statistics.FilledIndexesSorted | lifeDiary/apps/dashboard/static/dashboard/js/statistics.js:264-271 | those indexes are sorted and non-negative, so the later sort leaves them as they are |
| Statistics.FillTenths | lifeDiary/apps/dashboard/static/dashboard/js/statistics.js:59-60 | the fill percentage, rounded to one decimal, is within half a tenth of 100 × filled / 144 |
| Statistics.CalculateStatistics | lifeDiary/apps/dashboard/static/dashboard/js/statistics.js:55-74 | 144 slots in all, the filled count, ten minutes per filled slot split into hours and remaining minutes (under 60), the percentage within rounding, at most 24 hours and 100% on the day grid |
| Statistics.ChangeIffFilledCountMoved | lifeDiary/apps/dashboard/static/dashboard/js/statistics.js:82-91 | between two computed snapshots a change is detected exactly when the filled count differs |
| Statistics.StoredSnapshotIsQuiet | lifeDiary/apps/dashboard/static/dashboard/js/statistics.js:82-91 | a snapshot compared with itself never counts as a change |
| Statistics.FormatTimeText | lifeDiary/apps/dashboard/static/dashboard/js/statistics.js:139-144 | the same four texts as the slot card's duration, "0시간 0분" exactly for nothing, reading back as the hours and minutes shown |
| Statistics.HasStatsChanged | lifeDiary/apps/dashboard/static/dashboard/js/statistics.js:82-91 | always changed when nothing is cached; never changed against the snapshot cached from the very same statistics |
| Statistics.StatisticsManager.constructor | lifeDiary/apps/dashboard/static/dashboard/js/statistics.js:24-28 | a new manager has no cached snapshot and the panel's current texts |
| Statistics.StatisticsManager.UpdateStatistics | lifeDiary/apps/dashboard/static/dashboard/js/statistics.js:97-130 | the given snapshot, or a computed one, is written as the three texts and cached when it differs from the cache and the elements exist; otherwise nothing changes; afterwards a written snapshot is no longer a change |
| Statistics.StatisticsManager.Refresh | lifeDiary/apps/dashboard/static/dashboard/js/statistics.js:190-193 | dropping the cache makes the current grid's snapshot always written, when the elements exist |
| Statistics.HourlyOf | lifeDiary/apps/dashboard/static/dashboard/js/statistics.js:218-229 | there are 24 hourly counters |
| Statistics.CalculateHourlyStatistics | lifeDiary/apps/dashboard/static/dashboard/js/statistics.js:217-232 | the loop's counters are HourlyOf of the filled indexes |
| Statistics.HourlyBucket | lifeDiary/apps/dashboard/static/dashboard/js/statistics.js:224-227 | counter h counts the filled indexes in [6h, 6h + 6) |
| Statistics.HourlySum | lifeDiary/apps/dashboard/static/dashboard/js/statistics.js:221-229 | the counters together count every filled index inside the day exactly once |
| Statistics.HourlyAddsUp | lifeDiary/apps/dashboard/static/dashboard/js/statistics.js:217-232 | on the day grid the counters add up to the filled count |
| Statistics.HourlyAtMostSix | lifeDiary/apps/dashboard/static/dashboard/js/statistics.js:224-227 | no hour counts more than its six slots |
| Statistics.HourPercentage | lifeDiary/apps/dashboard/static/dashboard/js/statistics.js:254 | Math.round(slots / 6 × 100) is within half a unit of 100 × slots / 6 |
| Statistics.PercentText | lifeDiary/apps/dashboard/static/dashboard/js/statistics.js:121 | `${fillPercentage}%` ends in the percent sign and has a decimal point exactly when the tenths digit is not zero |
| Statistics.PercentTextReadsBack | lifeDiary/apps/dashboard/static/dashboard/js/statistics.js:121 | the percentage text reads back as the number of tenths it was made from |
| Statistics.PercentTextExamples | lifeDiary/apps/dashboard/static/dashboard/js/statistics.js:59-60 | 12.5 is shown as "12.5%" and 12.0 as "12%", as JavaScript renders the rounded number |
| Statistics.GetMostActiveHour | lifeDiary/apps/dashboard/static/dashboard/js/statistics.js:238-256 | the earliest hour with the most slots (hour 0 when nothing is filled), its "HH:00-HH:00" range and its rounded percentage, 0 for no slots |
| Statistics.RunValues | lifeDiary/apps/dashboard/static/dashboard/js/statistics.js:273-276 | a run of consecutive slots climbs by one per position |
| Statistics.RunBlock | lifeDiary/apps/dashboard/static/dashboard/js/statistics.js:273-276 | a run's block starts at its first slot, ends at its last, and spans exactly duration slots, all in the run |
| Statistics.BlocksOf | lifeDiary/apps/dashboard/static/dashboard/js/statistics.js:273-279 | one block per group, in order |
| Statistics.GroupMember | lifeDiary/apps/dashboard/static/dashboard/js/utils.js:111-129 | every slot of a group is a slot of the grouped input |
| Statistics.GroupsWithin | lifeDiary/apps/dashboard/static/dashboard/js/statistics.js:271 | the groups of non-negative slot indexes are non-empty and non-negative |
| Statistics.GroupsAscend | lifeDiary/apps/dashboard/static/dashboard/js/statistics.js:271 | in the grouping of an increasing sequence each group ends below the next group's start |
| Statistics.DurationsAddUp | lifeDiary/apps/dashboard/static/dashboard/js/statistics.js:276 | the durations add up to the number of grouped slots |
| Statistics.BlocksOfGrouping | lifeDiary/apps/dashboard/static/dashboard/js/statistics.js:271-279 | the blocks of an increasing sequence each span filled slots of the input, are separated by at least one slot, and have durations totalling the input's length |
| Statistics.AnalyzeContinuousBlocks | lifeDiary/apps/dashboard/static/dashboard/js/statistics.js:262-280 | one block per maximal run of filled cells: each block's slots are all filled, consecutive blocks are separated by at least one empty slot, and the durations add up to the filled count; each block's range text runs from its first slot's start to its last slot's end, and its duration text is that of its slot count |
| Statistics.BlockTexts | lifeDiary/apps/dashboard/static/dashboard/js/statistics.js:273-279 | the block of every well-formed run carries the range text "start-end" of its first slot and one past its last, and the duration text of its length |
| Http.MessageOr | lifeDiary/apps/dashboard/static/dashboard/js/api.js:68 | `result.message \|\| fallback`: the fallback, or the body's present non-empty message |
| Http.StatusMessage | lifeDiary/apps/dashboard/static/dashboard/js/api.js:111-112 | the default message is "HTTP error! status: " followed by decimal digits that read back as the status |
| Http.StatusMessageInjective | lifeDiary/apps/dashboard/static/dashboard/js/api.js:111-112 | the default message "HTTP error! status: n" names its status: different statuses give different messages |
| Http.CountMessage | lifeDiary/apps/dashboard/static/dashboard/js/api.js:221 | the message starts with the count's decimal digits, which read back as the count, followed by the non-digit rest of the text |
| Http.Backoff | lifeDiary/apps/dashboard/static/dashboard/js/api.js:364-367 | the waits before the retries are d, 2d, 4d, … |
| Http.BackoffTotal | lifeDiary/apps/dashboard/static/dashboard/js/api.js:364-367 | n waits take d × (2ⁿ − 1) in all |
| DashboardApi.ErrorMessage | lifeDiary/apps/dashboard/static/dashboard/js/api.js:101-114 | 400 gives the load-failed message, 403 the permission-denied one, 404 the not-found one, 500 the server-error one, and every other status "HTTP error! status: n" |
| DashboardApi.FixedMessagesDistinct | lifeDiary/apps/dashboard/static/dashboard/js/api.js:101-114 | the four fixed messages differ from each other and from every status text |
| DashboardApi.ErrorMessageDeterminesStatus | lifeDiary/apps/dashboard/static/dashboard/js/api.js:101-114 | outside the four fixed statuses, the message determines the status it came from |
| DashboardApi.Caught | lifeDiary/apps/dashboard/static/dashboard/js/api.js:75-92 | an abort becomes the network message with status 408, a TypeError whose message mentions fetch the network message with status 0, and any other error keeps its own message, with status 0 |
| DashboardApi.Request | lifeDiary/apps/dashboard/static/dashboard/js/api.js:37-93 | the body comes back exactly for a 2xx response that parsed and does not declare `success: false`; a non-ok status fails with its mapped message and status; a declared failure with its message or the server-error text; a parse error or a thrown error as caught |
| DashboardApi.NonOkResponseFails | lifeDiary/apps/dashboard/static/dashboard/js/api.js:55-61 | a non-2xx response fails with its own status and the mapped message, whatever its body |
| DashboardApi.DeclaredFailureFails | lifeDiary/apps/dashboard/static/dashboard/js/api.js:66-72 | a 2xx body saying `success: false` fails with the response's status and its message, the server-error text only when the message is missing, empty or that text |
| DashboardApi.FailureStatus | lifeDiary/apps/dashboard/static/dashboard/js/api.js:55-91 | every failure carries 408 (abort only), 0 (other exceptions) or the response's status |
| DashboardApi.KeptParams | lifeDiary/apps/dashboard/static/dashboard/js/api.js:124-128 | the query keeps exactly the parameters whose value is neither null nor undefined, with those values |
| DashboardApi.Get | lifeDiary/apps/dashboard/static/dashboard/js/api.js:122-131 | the loop over the parameters builds that query |
| DashboardApi.WithMessageOnSuccess | lifeDiary/apps/dashboard/static/dashboard/js/api.js:220-222 | a failure passes unchanged; a body saying `success: true` gets the new message and every other body is unchanged |
| DashboardApi.SaveTimeBlocks | lifeDiary/apps/dashboard/static/dashboard/js/api.js:216-225 | saving fails exactly when the request does, with the request's own error; a successful save reports "<count>개 슬롯이 저장되었습니다." for the slots sent, the rest of the body unchanged; a body not saying `success: true`, or a call without slot indexes, comes back exactly as the request gave it |
| DashboardApi.DeleteTimeBlocks | lifeDiary/apps/dashboard/static/dashboard/js/api.js:234-243 | deleting fails exactly when the request does, with the request's own error; a successful delete reports "<count>개의 기록된 슬롯이 삭제되었습니다.", the rest of the body unchanged; a body not saying `success: true`, or a call without slot indexes, comes back exactly as the request gave it |
| DashboardApi.SavedCountRoundTrip | lifeDiary/apps/dashboard/static/dashboard/js/api.js:221 | the number at the front of the save message is the number of slots sent |
| DashboardApi.TagServicesAgreeOffSuccess | lifeDiary/apps/dashboard/static/dashboard/js/api.js:281-320 | off a `success: true` body the three tag services return the same; on success they differ only in their message |
| DashboardApi.CreateTag | lifeDiary/apps/dashboard/static/dashboard/js/api.js:281-289 | fails exactly when the request does, with the request's own error; a `success: true` body gets the creation message and keeps everything else; any other body comes back as it was |
| DashboardApi.UpdateTag | lifeDiary/apps/dashboard/static/dashboard/js/api.js:297-305 | fails exactly when the request does, with the request's own error; a `success: true` body gets the update message and keeps everything else; any other body comes back as it was |
| DashboardApi.DeleteTag | lifeDiary/apps/dashboard/static/dashboard/js/api.js:312-320 | fails exactly when the request does, with the request's own error; a `success: true` body gets the deletion message and keeps everything else; any other body comes back as it was |
| DashboardApi.GetTimeBlocks | lifeDiary/apps/dashboard/static/dashboard/js/api.js:202-205 | the blocks are the body's `data`, or none when it has no `data`; fails exactly when the request does, with the request's own error |
| DashboardApi.GetTags | lifeDiary/apps/dashboard/static/dashboard/js/api.js:258-261 | the tags are the body's `tags`, or none when absent; fails exactly when the request does, with the request's own error |
| DashboardApi.CheckHealth | lifeDiary/apps/dashboard/static/dashboard/js/api.js:337-345 | the API counts as healthy exactly when the tag list came back 2xx, parsed, and not declaring failure |
| DashboardApi.FirstSuccess | lifeDiary/apps/dashboard/static/dashboard/js/api.js:357-359 | the index of the first resolved call among the first n, or none when all of them failed |
| DashboardApi.WithRetry | lifeDiary/apps/dashboard/static/dashboard/js/api.js:354-375 | at most maxRetries calls; the first success is returned after as many calls as it took; otherwise the last error is rethrown (undefined for no attempt); the waits double from the given delay and none follows the last attempt |
| TagApi.ErrorMessage | lifeDiary/apps/tags/static/tags/js/api.js:97-110 | 400 gives the tag page's validation-failed message, 403 the permission-denied one, 404 the not-found one, 500 the server-error one, and every other status "HTTP error! status: n" |
| TagApi.Caught | lifeDiary/apps/tags/static/tags/js/api.js:75-88 | an abort becomes the network message with status 408; every other exception the network message with status 0 |
| TagApi.Request | lifeDiary/apps/tags/static/tags/js/api.js:37-89 | the body comes back exactly for a 2xx response that parsed and does not declare `success: false`, and it comes back unchanged |
| TagApi.BadRequestIsValidation | lifeDiary/apps/tags/static/tags/js/api.js:99-100 | a 400 fails with "입력값을 확인해주세요" and status 400, whatever the body |
| TagApi.OtherExceptionsAreNetworkErrors | lifeDiary/apps/tags/static/tags/js/api.js:86-87 | any exception other than an abort is reported as the network error with status 0 |
| TagApi.ClientsAgreeOnStatus | lifeDiary/apps/tags/static/tags/js/api.js:37-89 | the tag page's client and the dashboard's (lifeDiary/apps/dashboard/static/dashboard/js/api.js:37-93) succeed on the same outcomes with the same body, and fail with the same status |
| TagApi.ClientsDifferOnParseErrors | lifeDiary/apps/tags/static/tags/js/api.js:86-87 | on an unparsable 200 body the tag client reports the network error while the dashboard client passes the parse error's own message |
| TagApi.GetTags | lifeDiary/apps/tags/static/tags/js/api.js:173-176 | the tags are the body's `tags`, or none when absent; fails exactly when the request does, with the request's own error |
| StatsLogic.GetTagInfo | lifeDiary/apps/stats/logic.py:23-26 | a block yields tag info exactly when it has a tag with a non-empty name; the info carries that name, and the tag's colour, or grey when the colour is empty |
| StatsLogic.FirstColor | lifeDiary/apps/stats/logic.py:118-123 | a tag has a first colour exactly when some block is counted under it |
| StatsLogic.CountedBlocksAtMostAll | lifeDiary/apps/stats/logic.py:27-31 | the blocks passed on are a subset of the blocks: excluding names only lowers the count, and all blocks are counted exactly when every block has a named tag |
| StatsLogic.Credit | lifeDiary/apps/stats/logic.py:120-125 | an existing entry is updated in place, a new one appended last with the credited name, colour, minutes and blocks; every existing entry keeps its place, name and colour |
| StatsLogic.CreditEffect | lifeDiary/apps/stats/logic.py:122-125 | crediting a tag entry adds the minutes and the blocks to the credited name and leaves every other name's tally as it was |
| StatsLogic.CreditKeys | lifeDiary/apps/stats/logic.py:122-123 | after crediting, the keys are the old keys plus the credited name, and unique keys stay unique |
| StatsLogic.ColorOf | lifeDiary/apps/stats/logic.py:120-123 | a colour is found exactly for a name that is a key |
| StatsLogic.CreditColor | lifeDiary/apps/stats/logic.py:120-123 | crediting gives a new key the credited colour and keeps the colour of every existing key |
| StatsLogic.EntryHoldsTally | lifeDiary/apps/stats/logic.py:122-125 | with unique keys the tally read for a name is that of the one entry holding it |
| StatsLogic.AbsentNameTalliesZero | lifeDiary/apps/stats/logic.py:122-123 | a name that is not a key has no minutes and no blocks |
| StatsLogic.AddMinutesEffect | lifeDiary/apps/stats/logic.py:129 | `d[n] = d.get(n, 0) + x` adds x to n only and makes n a key, leaving every other key and value alone |
| StatsLogic.AddMinutesTotal | lifeDiary/apps/stats/logic.py:129 | the same update adds exactly x to the sum of the dictionary's values |
| StatsLogic.AddUnclassified | lifeDiary/apps/stats/logic.py:35-47 | non-positive minutes change nothing; positive minutes make the unclassified tag a key and add to it those minutes and their whole slots; unique keys stay unique |
| StatsLogic.EmptyHours | lifeDiary/apps/stats/logic.py:116 | twenty-four hour dictionaries, all empty |
| StatsLogic.TagTallyStep | lifeDiary/apps/stats/logic.py:118-125 | one counted block adds ten minutes and one block to its tag and nothing elsewhere; the tag table stays the tally of the blocks seen |
| StatsLogic.HourTallyStep | lifeDiary/apps/stats/logic.py:128-129 | one counted block adds ten minutes to its tag in its own hour (slot index div 6) and nothing elsewhere |
| StatsLogic.SkipStep | lifeDiary/apps/stats/logic.py:27-31 | a block without a named tag changes neither the tag table, nor the hour table, nor the active count |
| StatsLogic.DailyTally | lifeDiary/apps/stats/logic.py:114-131 | after the block loop the tag table and the hour table are exactly the tallies of the counted blocks, and the active count is the number of counted blocks not under the unclassified tag |
| StatsLogic.AddUnclassifiedEffect | lifeDiary/apps/stats/logic.py:35-47 | non-positive minutes change nothing; otherwise the minutes and their whole ten-minute slots go to the unclassified tag only, which becomes a key, and keys stay unique |
| StatsLogic.AddUnclassifiedToHour | lifeDiary/apps/stats/logic.py:68-70 | positive minutes are added to the hour's unclassified entry, making it a key, and to the hour's total; otherwise nothing changes |
| StatsLogic.HourFilledStep | lifeDiary/apps/stats/logic.py:72-77 | topping up one hour adds its shortfall below sixty minutes to the unclassified entry of that hour only, and an hour of sixty minutes or more is left alone |
| StatsLogic.TagFilledStep | lifeDiary/apps/stats/logic.py:72-76 | topping up one hour adds the same shortfall, with its whole slots, to the unclassified tag, and no other tag's tally, key or colour changes |
| StatsLogic.HoursFilledTo | lifeDiary/apps/stats/logic.py:71-77 | the hour dictionaries after the first i hours of the loop: the hours not yet reached are untouched |
| StatsLogic.HoursFilledToHolds | lifeDiary/apps/stats/logic.py:71-77 | after i hours every hour done holds its old values plus its shortfall under the unclassified tag, its total now the old total plus the shortfall |
| StatsLogic.TagsFilledToHolds | lifeDiary/apps/stats/logic.py:71-76 | after i hours the tag table holds the sum of those hours' shortfalls, in minutes and in slots, under the unclassified tag, which it has exactly when it had it or some hour was short; no other tag changes |
| StatsLogic.FillEmptySlotsDaily | lifeDiary/apps/stats/logic.py:71-77 | after the loop every hour's dictionary holds its old values plus its shortfall under the unclassified tag, and the tag table holds the sum of all shortfalls under that tag |
| StatsLogic.PeakHour | lifeDiary/apps/stats/logic.py:134-140 | the earliest hour with the greatest total and that total, no hour exceeding it; -1 and -1 when there are no hours |
| StatsLogic.InsertDesc | lifeDiary/apps/stats/logic.py:143 | insertion into a ranked list adds exactly the one element |
| StatsLogic.InsertSorted | lifeDiary/apps/stats/logic.py:143 | insertion keeps a list ranked by descending key |
| StatsLogic.SortDesc | lifeDiary/apps/stats/logic.py:143 | `sorted(..., reverse=True)`: a permutation of the input in descending key order |
| StatsLogic.FirstMax | lifeDiary/apps/stats/logic.py:151 | the index of the first element whose key is the greatest: no key exceeds it and every earlier key is smaller |
| StatsLogic.SortDescHead | lifeDiary/apps/stats/logic.py:151 | the sort is stable at the top: the first ranked element is the first of the greatest, so `top_tag` is, among tags with the most minutes, the one recorded first |
| StatsLogic.Without | lifeDiary/apps/stats/logic.py:239 | the filter keeps exactly the elements whose name differs from the excluded one, each as often as before |
| StatsLogic.WithoutKeepsOrder | lifeDiary/apps/stats/logic.py:238-239 | filtering a ranked list leaves it ranked |
| StatsLogic.SortKeepsTallies | lifeDiary/apps/stats/logic.py:143 | ranking the tag table changes no tag's minutes or blocks |
| StatsLogic.InsertKeepsTallies | lifeDiary/apps/stats/logic.py:143 | an inserted entry adds its own tally and nothing more |
| StatsLogic.SortKeepsNames | lifeDiary/apps/stats/logic.py:143 | ranking a table with unique keys keeps them unique and keeps every key's colour |
| StatsLogic.GapsFromCounts | lifeDiary/apps/stats/logic.py:72-77 | the shortfalls read from the hour tallies are those given by the counts of blocks per hour |
| StatsLogic.HourSlots | lifeDiary/apps/stats/logic.py:128 | the slots counted in hour h lie in h's six-slot range and are slots of the day's blocks |
| StatsLogic.CountHourIsSlotCount | lifeDiary/apps/stats/logic.py:128 | with distinct slot indexes, the blocks counted in an hour are as many as their slot indexes |
| StatsLogic.Range | lifeDiary/apps/stats/logic.py:128 | the n consecutive integers from a, and nothing else |
| StatsLogic.AtMostSixPerHour | lifeDiary/apps/stats/logic.py:128-129 | with distinct slot indexes no hour holds more than six counted blocks |
| StatsLogic.FullHoursWhenDistinct | lifeDiary/apps/stats/logic.py:72-77 | with distinct slot indexes every hour's minutes plus its shortfall is exactly sixty |
| StatsLogic.DailyTagsAfterFill | lifeDiary/apps/stats/logic.py:131-143 | after the fill and the ranking, each tag's minutes and blocks are ten per counted block and one per counted block, the unclassified tag also taking the day's shortfalls |
| StatsLogic.DailyHoursAfterFill | lifeDiary/apps/stats/logic.py:128-131 | after the fill each hour holds ten minutes per counted block of each tag plus the hour's shortfall under the unclassified tag |
| StatsLogic.FullDayPeaksAtMidnight | lifeDiary/apps/stats/logic.py:134-140 | on a day without duplicate slots every hour totals sixty minutes, so the peak is hour 0 with sixty minutes |
| StatsLogic.DailyColor | lifeDiary/apps/stats/logic.py:118-131 | a tag of the day has a colour exactly when a block is counted under it or it is the unclassified tag and the day has gaps; that of its first block, or grey for an unclassified entry only the gaps created |
| StatsLogic.GetDailyStatsData | lifeDiary/apps/stats/logic.py:113-152 | the ranked tag table has unique names, holds a tag exactly when a block is counted under it or it is the unclassified tag of a day with gaps, in the colour of its first block (grey for gaps only), with ten minutes and one block per counted block plus the gaps; the hour table likewise; recorded and active block counts; the peak hour is maximal and earliest; the top tag is the first ranked entry, absent exactly when no tag was recorded; with distinct slots the peak is midnight at sixty minutes |
| StatsLogic.DayTagMinutesCounts | lifeDiary/apps/stats/logic.py:164-170 | the weekly day dictionary holds ten minutes per counted block of each tag, a tag being a key exactly when it has a block, and the day total is ten minutes per counted block |
| StatsLogic.CreditDay | lifeDiary/apps/stats/logic.py:174-181 | crediting a tag on a day keeps every weekly entry at seven days |
| StatsLogic.CreditDayEffect | lifeDiary/apps/stats/logic.py:174-181 | crediting a tag on a day changes that tag's cell for that day only, by the credited minutes |
| StatsLogic.CreditDayColor | lifeDiary/apps/stats/logic.py:174-180 | crediting a day gives a new key the credited colour, keeps every other colour and keeps the keys unique |
| StatsLogic.WeekCredit | lifeDiary/apps/stats/logic.py:174-182 | the loop over a day's blocks keeps every weekly entry at seven days |
| StatsLogic.WeekCreditEffect | lifeDiary/apps/stats/logic.py:174-182 | the loop over a day's blocks adds ten minutes per counted block of a tag to that tag's cell for that day, and changes no other day |
| StatsLogic.WeekCreditColor | lifeDiary/apps/stats/logic.py:174-182 | a day's blocks add each new tag in the colour of its first block that day, keeping existing colours and unique keys |
| StatsLogic.FillEmptySlotsWeekly | lifeDiary/apps/stats/logic.py:78-85 | the corrected weekly fill keeps every weekly entry at seven days |
| StatsLogic.FillEmptySlotsWeeklyEffect | lifeDiary/apps/stats/logic.py:78-85 | the corrected weekly fill credits the day's unrecorded minutes to the unclassified tag in the day's dictionary and in that day's weekly cell, and changes nothing else |
| StatsLogic.FillEmptySlotsWeeklyColor | lifeDiary/apps/stats/logic.py:78-85 | the fill adds the unclassified tag in grey when it is absent, keeps every other colour, and keeps the keys unique |
| StatsLogic.WholeDayAccounted | lifeDiary/apps/stats/logic.py:78-85 | with the corrected fill, a day whose blocks all count and fit the grid accounts for all 1440 of its minutes |
| StatsLogic.WeeklyFillAsWrittenFailsIff | lifeDiary/apps/stats/logic.py:36-47 | the fill as written raises exactly when the day has unrecorded time and already holds unclassified minutes; otherwise it agrees with the corrected fill on every tag |
| StatsLogic.AddUnclassifiedToDayAsWritten | lifeDiary/apps/stats/logic.py:36-47 | on a dictionary of plain minute counts: fails with the subscript TypeError exactly for positive minutes when the unclassified key already exists; a fresh entry is appended holding the minutes |
| StatsLogic.FillEmptySlotsWeeklyAsWritten | lifeDiary/apps/stats/logic.py:78-85 | fails with the subscript TypeError exactly for a day with unrecorded time whose dictionary already has the unclassified key; otherwise its weekly table is that of the corrected fill |
| StatsLogic.UnclassifiedBlockBreaksWeeklyStats | lifeDiary/apps/stats/logic.py:164-183 | a single block tagged with the unclassified name on an otherwise empty day makes the weekly statistics raise a TypeError |
| StatsLogic.ProcessWeekDay | lifeDiary/apps/stats/logic.py:159-193 | one day of the week: active blocks exclude sleep and unclassified time, at ten minutes each; the recorded count; the day's dictionary and the weekly table credited on that day and then filled |
| StatsLogic.ActiveDays | lifeDiary/apps/stats/logic.py:199 | the number of days whose active block count is positive, that is the size of the set of such days: at most the days summarised, and none exactly when no day has an active block |
| StatsLogic.WeekDayStep | lifeDiary/apps/stats/logic.py:159-193 | processing day i extends the weekly table's invariant to the first i + 1 days and summarises day i |
| StatsLogic.WeekColor | lifeDiary/apps/stats/logic.py:174-182 | a tag of the weekly table has a colour exactly when it has minutes on one of the days seen |
| StatsLogic.EmptyWeekTable | lifeDiary/apps/stats/logic.py:157 | the empty weekly table is the right table for no days processed |
| StatsLogic.GetWeeklyStatsData | lifeDiary/apps/stats/logic.py:154-207 | seven day summaries, each that of its day; the weekly table has unique names, holds exactly the tags with minutes on some day, each in the colour of its first counted block (grey for gaps only); every tag's minutes on day d are ten per counted block of that day plus, for the unclassified tag, the unrecorded time; the active days are the number of days with an active block |
| StatsLogic.HoursTenths | lifeDiary/apps/stats/logic.py:283 | `round(minutes / 60, 1)` as tenths of an hour: the nearest tenth |
| StatsLogic.AnalysisTally | lifeDiary/apps/stats/logic.py:264-276 | the analysis tally holds ten minutes and one block per counted block of each tag |
| StatsLogic.FillEmptySlotsAnalysis | lifeDiary/apps/stats/logic.py:103-111 | each day's unrecorded minutes go to the unclassified tag; no other tag's tally, key or colour changes, and keys stay unique |
| StatsLogic.AnalysisEntriesFaithful | lifeDiary/apps/stats/logic.py:278-287 | after the fill and the filter, each listed entry is a counted tag other than the unclassified one, with its blocks and hours, and every such tag is listed |
| StatsLogic.GetTagAnalysisData | lifeDiary/apps/stats/logic.py:261-287 | every counted tag but the unclassified one listed, each in the colour of its first block, with its block count and hours, ranked by hours descending |
| StatsLogic.MonthlyTagList | lifeDiary/apps/stats/logic.py:238-239 | the monthly tag list is ranked by hours descending, has no unclassified entry, and holds exactly the other entries |
| DashboardViews.SlotDataOf | lifeDiary/apps/dashboard/views.py:33-36 | a slot has data exactly when one of the day's blocks occupies it, and the data is that block's tag and memo |
| DashboardViews.BuildSlots | lifeDiary/apps/dashboard/views.py:38-50 | 144 slot entries, entry i with index i, its hour and minute (which convert back to i), its zero-padded `HH:MM` string worth 10 × i minutes, and the data of the block in that slot |
| DashboardViews.FilledSlotsAreEntriesWithData | lifeDiary/apps/dashboard/views.py:58-69 | the filled slots counted for the statistics are exactly the slots with data, at most 144 of them |
| DashboardViews.SlotRange | lifeDiary/apps/dashboard/views.py:40 | the slot indexes 0 to n - 1, n of them |
| DashboardViews.TimeHeaders | lifeDiary/apps/dashboard/views.py:61 | twelve headers; header i shows 10 × (i mod 6) + 10 minutes |
| DashboardViews.HeaderMinute | lifeDiary/apps/dashboard/views.py:61 | the header expression `(i * 10 - 1) % 60 + 1` for i = 1..12 equals 10 × ((i - 1) mod 6) + 10 |
| DashboardViews.HeadersRepeatEveryHour | lifeDiary/apps/dashboard/views.py:60-61 | the second six headers repeat the first six |
| DashboardViews.HeaderEnds | lifeDiary/apps/dashboard/views.py:60-61 | the headers run from 10분 to 60분, not from 1분 to 51분 as the comment above them says |
| DashboardViews.ValidateRequest | lifeDiary/apps/dashboard/views.py:101-121 | invalid JSON, missing slot indexes and a missing date are rejected with status 400 and their own codes, in that order, and nothing else is; the date format error is never produced, since an unparsable date falls back to today; an accepted request yields the parsed date or today |
| DashboardViews.ExistingBlock | lifeDiary/apps/dashboard/views.py:151-154 | the row of the user's day in a slot, when there is one, and none exactly when no such row exists |
| DashboardViews.Fresh | lifeDiary/apps/dashboard/views.py:160-177 | the requested slots without a row of that day, which are created |
| DashboardViews.Stale | lifeDiary/apps/dashboard/views.py:160-166 | the existing rows of the requested slots, which are updated |
| DashboardViews.FreshStaleCount | lifeDiary/apps/dashboard/views.py:160-177 | every requested slot is either created or updated, so the two counts add up to the number of slots requested |
| DashboardViews.DistinctFresh | lifeDiary/apps/dashboard/views.py:168-177 | a request without repeated indexes creates no slot twice |
| DashboardViews.FindTag | lifeDiary/apps/dashboard/views.py:141-148 | the tag found is one with the requested id that is the user's own or a default tag; none exactly when there is no such tag |
| DashboardViews.NewBlocks | lifeDiary/apps/dashboard/views.py:169-177 | one new row per new slot, each with the user, the date, the slot, the tag and the memo |
| DashboardViews.Retagged | lifeDiary/apps/dashboard/views.py:163-166 | the updated rows are the existing rows with the tag and the memo replaced, nothing else |
| DashboardViews.Replaced | lifeDiary/apps/dashboard/views.py:187-188 | bulk_update leaves a row's key alone, replaces it by the update with the same key when one exists, and leaves it unchanged otherwise |
| DashboardViews.BulkUpdate | lifeDiary/apps/dashboard/views.py:187-188 | every row of the table replaced by its update, in place |
| DashboardViews.CreateUpdateOutcome | lifeDiary/apps/dashboard/views.py:131-205 | a failure leaves the table unchanged; a missing tag is MISSING_TAG (400), a tag neither the user's nor default is TAG_NOT_FOUND (404); a success has status 201 and a usable tag |
| DashboardViews.PartitionSlots | lifeDiary/apps/dashboard/views.py:157-177 | the loop creates a row for each fresh slot and retags each existing row, in request order |
| DashboardViews.HandleCreateUpdate | lifeDiary/apps/dashboard/views.py:131-205 | the handler gives the response and the table that the create-or-update outcome describes |
| DashboardViews.SaveCounts | lifeDiary/apps/dashboard/views.py:180-200 | a successful save reports the created count, the updated count (which add up to the request's slots), the total and the tag |
| DashboardViews.DistinctRequestSaves | lifeDiary/apps/dashboard/views.py:137-200 | a usable tag and no repeated index always save |
| DashboardViews.MissingTagTouchesNothing | lifeDiary/apps/dashboard/views.py:137-138 | a request without a tag answers MISSING_TAG and writes nothing |
| DashboardViews.OnlyRowWithKey | lifeDiary/apps/dashboard/views.py:151-154 | under the user–date–slot uniqueness constraint a row is the only one with its key |
| DashboardViews.SaveTouchesOnlyRequested | lifeDiary/apps/dashboard/views.py:160-190 | after a save, the table grows by the created rows, rows outside the request are unchanged and requested rows carry the new tag and memo |
| DashboardViews.RequestedRowRetagged | lifeDiary/apps/dashboard/views.py:160-166 | each requested existing row is replaced by itself retagged |
| DashboardViews.SaveKeepsUniqueness | lifeDiary/apps/dashboard/views.py:183-189 | a successful save keeps the user–date–slot uniqueness constraint |
| DashboardViews.SavedSlotsCarryTag | lifeDiary/apps/dashboard/views.py:160-190 | after a save, every requested slot of the day has a row with the tag and the memo |
| DashboardViews.Kept | lifeDiary/apps/dashboard/views.py:211-213 | the rows left after the delete are exactly those outside the request, and the table is unchanged exactly when no row is requested |
| DashboardViews.DeleteOutcome | lifeDiary/apps/dashboard/views.py:208-221 | the requested rows of the day are deleted; a non-empty request that deletes nothing is NO_BLOCKS_FOUND (404) with the table unchanged; otherwise status 200 with the deleted and requested counts |
| DashboardViews.DeleteTwice | lifeDiary/apps/dashboard/views.py:211-216 | deleting the same slots again finds nothing and changes nothing |
| DashboardViews.TimeBlockApi | lifeDiary/apps/dashboard/views.py:91-128 | a rejected request gets its validation error and leaves the table alone; POST and DELETE then run their handlers on the parsed date; INVALID_DATE_FORMAT is never answered |
| TagUtils.ValidateTagName | lifeDiary/apps/tags/static/tags/js/utils.js:88-99 | a name is valid exactly when it is present, not blank and, once trimmed, at most 50 UTF-16 code units long (JavaScript `length`); a missing or blank name gets the empty-name message, a long one the length message, a valid one an empty message |
| Strings.Utf16Length | lifeDiary/apps/tags/static/tags/js/utils.js:94 | a string's JavaScript `length` is the number of its UTF-16 code units: between its character count and twice it, equal to the character count exactly when no character lies outside the Basic Multilingual Plane, and twice it when all do |
| Strings.DecodeUtf16OfUtf16 | lifeDiary/apps/dashboard/static/dashboard/js/slot-manager.js:369 | decoding the UTF-16 code units of a string gives the string back |
| Strings.Utf16OfPrefix | lifeDiary/apps/dashboard/static/dashboard/js/slot-manager.js:369 | the code units of a string are those of any prefix followed by those of the rest |
| Strings.Utf16OfPlain | lifeDiary/apps/dashboard/static/dashboard/js/slot-manager.js:369 | a string of Basic Multilingual Plane characters is stored one code unit per character, each unit the character's code |
| TagUtils.ValidateColor | lifeDiary/apps/tags/static/tags/js/utils.js:106-114 | a colour is valid exactly when it is `#` followed by six or by three hex digits; an invalid one gets the colour message, a valid one an empty message |
| TagUtils.ClientNamePassesServer | lifeDiary/apps/tags/models.py:70-76 | a name the client accepts also passes the model's clean, and its stored form is non-empty and within the 50-character field |
| TagUtils.AstralNameRefusedByClientOnly | lifeDiary/apps/tags/static/tags/js/utils.js:94 | a trimmed name of 26 astral characters is refused by the client (52 code units) although its 26 characters are within the server's 50-character field |
| TagUtils.ColorChecksDiffer | lifeDiary/apps/tags/static/tags/js/utils.js:107 | the client and model colour checks agree on six-digit colours, but the three-digit form passes only the client and a trailing newline only the model's regex |
| TagUtils.RestoredText | lifeDiary/apps/tags/static/tags/js/utils.js:153 | the restored button text is the saved text when it is non-empty, and 확인 otherwise |
| TagUtils.Button.constructor | lifeDiary/apps/tags/static/tags/js/utils.js:144-156 | a new button holds its text, enabled, without a spinner or a saved text |
| TagUtils.SetButtonLoading | lifeDiary/apps/tags/static/tags/js/utils.js:144-156 | loading saves the text, disables the button and shows the spinner with the loading text; unloading enables it, restores the saved text (or 확인) and forgets it; a null button is left alone |
| TagManager.LoadErrorMessage | lifeDiary/apps/tags/static/tags/js/tag-manager.js:129 | the load error shown is the load-failed text, a colon and a space, then the error's message |
| TagManager.ErrorText | lifeDiary/apps/tags/static/tags/js/tag-manager.js:194 | `error.message \|\| fallback`: the error's message when non-empty, the fallback otherwise |
| TagManager.AnswerNotice | lifeDiary/apps/tags/static/tags/js/tag-manager.js:185-194 | success is shown exactly for a body with `success: true`, with its message; a body without it is thrown with its message (or the fallback); a thrown error shows its message or the fallback |
| TagManager.FormProblem | lifeDiary/apps/tags/static/tags/js/tag-manager.js:158-170 | the form passes exactly when both the name and the colour are valid; the name is checked first and its message reported, then the colour's |
| TagManager.SaveRequest | lifeDiary/apps/tags/static/tags/js/tag-manager.js:178-183 | an update of the current tag for a non-zero id, a creation otherwise, always with the form |
| TagManager.EditedTagIsUpdated | lifeDiary/apps/tags/static/tags/js/tag-manager.js:179-180 | a dialog opened on a tag saves by updating that tag |
| TagManager.FindById | lifeDiary/apps/tags/static/tags/js/tag-manager.js:250-252 | the first tag with the id, or none exactly when no tag has it |
| TagManager.NameContains | lifeDiary/apps/tags/static/tags/js/tag-manager.js:263-265 | the tags whose lower-cased name contains the term, and only those |
| TagManager.SearchByName | lifeDiary/apps/tags/static/tags/js/tag-manager.js:259-266 | a missing or blank name returns every tag; otherwise exactly the tags whose lower-cased name contains the trimmed, lower-cased term |
| TagManager.SearchFindsOwnName | lifeDiary/apps/tags/static/tags/js/tag-manager.js:259-266 | searching for a tag's own name, in any case and with surrounding spaces, finds that tag |
| TagManager.DeletePrompt | lifeDiary/apps/tags/static/tags/js/tag-manager.js:206 | the stock question with its leading "태그" replaced, as `String.replace` does, by the quoted name and "태그": the name goes through the `$` substitution ($$, $&, $`, $') against that match |
| TagManager.DeletePromptOfPlainName | lifeDiary/apps/tags/static/tags/js/tag-manager.js:206 | a name without `$` appears in the prompt as it is: the name in double quotes, a space and the question |
| TagManager.DeletePromptExpandsPatterns | lifeDiary/apps/tags/static/tags/js/tag-manager.js:206 | `$&` in a name shows as the matched "태그" and `$$` as one dollar sign |
| Strings.JsReplace | lifeDiary/apps/tags/static/tags/js/tag-manager.js:206 | `String.prototype.replace` with a string pattern: no occurrence leaves the text as it is; otherwise the first occurrence gives way to the `$` substitution of the replacement, with the text before and after the match kept |
| Strings.JsReplaceOfLiteral | lifeDiary/apps/tags/static/tags/js/tag-manager.js:206 | a replacement without `$` makes `replace` the plain first-occurrence replacement |
| TagManager.TagManager.constructor | lifeDiary/apps/tags/static/tags/js/tag-manager.js:15-24 | a new manager has no tags, is not loading and shows nothing yet |
| TagManager.TagManager.BeginLoad | lifeDiary/apps/tags/static/tags/js/tag-manager.js:118-122 | a load starts exactly when none is in flight, and then shows the loading state; loading is set either way |
| TagManager.TagManager.FinishLoad | lifeDiary/apps/tags/static/tags/js/tag-manager.js:124-132 | a list answer replaces the tags and renders them; an error keeps the tags and shows the load error; loading always ends |
| TagManager.TagManager.LoadTags | lifeDiary/apps/tags/static/tags/js/tag-manager.js:118-133 | while a load is in flight nothing changes; otherwise the answer is applied and loading ends |
| TagManager.TagManager.SaveTag | lifeDiary/apps/tags/static/tags/js/tag-manager.js:154-198 | a form problem is reported before any call and changes nothing, the save button included; without a save button nothing is sent; otherwise the create or update call is made and its answer shown; a success closes the dialog and reloads: a list answer replaces the tags and renders them, an error keeps them and shows the load error, and loading ends (unless a load was already in flight, when nothing else changes); a failure keeps tags, view, loading and dialog; the button is restored enabled |
| TagManager.TagManager.SaveWithButton | lifeDiary/apps/tags/static/tags/js/tag-manager.js:170-197 | once the form has passed: the create or update call for the form and id is made and its answer shown; a success closes the dialog and reloads the list; a failure keeps tags, view, loading and dialog; the button ends enabled with its saved text restored |
| TagManager.TagManager.DeleteTag | lifeDiary/apps/tags/static/tags/js/tag-manager.js:205-225 | the prompt names the tag; the delete request goes out, for the given id, exactly when confirmed; a success reloads the tags, replacing and rendering them or showing the load error, loading ending; a declined or failed delete leaves the tags, the view and the loading flag as they were |
| TagManager.TagManager.GetTagById | lifeDiary/apps/tags/static/tags/js/tag-manager.js:250-252 | the first loaded tag with the id, or null exactly when none has it |
| TagManager.TagManager.SearchTagsByName | lifeDiary/apps/tags/static/tags/js/tag-manager.js:259-266 | every loaded tag for a blank name; otherwise the loaded tags whose name contains the trimmed term, ignoring case |
| TagManager.TagManager.UserTagList | lifeDiary/apps/tags/static/tags/js/tag-manager.js:288-290 | the loaded tags that are not default tags |
| TagManager.TagManager.DefaultTagList | lifeDiary/apps/tags/static/tags/js/tag-manager.js:296-298 | the loaded tags that are default tags |
| TagManager.TagManager.TagCount | lifeDiary/apps/tags/static/tags/js/tag-manager.js:280-282 | the number of loaded tags, which is the user tags plus the default tags |
| TagManager.SecondLoadRefused | lifeDiary/apps/tags/static/tags/js/tag-manager.js:118-121 | a second load started while the first is in flight is refused and the tags stay as they were |
| TagUi.UserTags | lifeDiary/apps/tags/static/tags/js/ui.js:29 | the tags that are not default tags, and only those |
| TagUi.DefaultTags | lifeDiary/apps/tags/static/tags/js/ui.js:30 | the default tags, and only those |
| TagUi.FiltersPartition | lifeDiary/apps/tags/static/tags/js/ui.js:29-30 | the two filters split the tags: together they hold every tag exactly once |
| TagUi.RenderTagSections | lifeDiary/apps/tags/static/tags/js/ui.js:77-103 | at most two sections; the default section, first and without top margin, appears exactly for a superuser with default tags; the personal section, last, appears exactly when there are user tags, with a top margin exactly when the default section precedes it |
| TagUi.RenderTags | lifeDiary/apps/tags/static/tags/js/ui.js:22-40 | the empty state is shown exactly when there are no user tags and the viewer either is no superuser or has no default tags; otherwise the sections of the split tags |
| TagUi.EmptyStateIffNoSections | lifeDiary/apps/tags/static/tags/js/ui.js:33-39 | the empty state is shown exactly when there would be no section to render |
| TagUi.OrdinaryUserSeesOnlyOwnTags | lifeDiary/apps/tags/static/tags/js/ui.js:81-100 | a user who is not a superuser never sees a default tag's card |
| TagUi.RenderTagActions | lifeDiary/apps/tags/static/tags/js/ui.js:173-203 | an edit button first exactly when the tag can be edited, carrying its id, name, colour and default flag; a delete button last exactly when it can be deleted, carrying its id and name; no buttons when neither |
| TagUi.ParseDigits | lifeDiary/apps/tags/static/tags/js/ui.js:311-315 | a non-empty string of digits parses to its decimal value; an empty one gives null |
| TagUi.ModalManager.constructor | lifeDiary/apps/tags/static/tags/js/ui.js:245-256 | a new dialog is hidden, with an empty form and no tag id |
| TagUi.ModalManager.CurrentTagId | lifeDiary/apps/tags/static/tags/js/ui.js:311-315 | the tag id being edited, when a non-empty id is stored, as its decimal value; null otherwise |
| TagUi.ModalManager.GetFormData | lifeDiary/apps/tags/static/tags/js/ui.js:321-329 | the trimmed name, the colour or the default blue when it is empty, and the default flag only for a superuser who checked it |
| TagUi.ModalManager.OpenCreateModal | lifeDiary/apps/tags/static/tags/js/ui.js:271-276 | the create dialog is shown with the create title, an empty name, the default colour, the box unchecked and no tag id, so its form is an empty default-coloured non-default tag |
| TagUi.ModalManager.OpenEditModal | lifeDiary/apps/tags/static/tags/js/ui.js:286-296 | the edit dialog is shown with the edit title, the tag's name and colour, its default flag checked only for a superuser, and its id stored |
| TagUi.ModalManager.Close | lifeDiary/apps/tags/static/tags/js/ui.js:301-305 | the dialog is hidden |
| TagUi.OrdinaryFormIsNeverDefault | lifeDiary/apps/tags/static/tags/js/ui.js:325-327 | a form filled by a user who is not a superuser never asks for a default tag |
| StatsUtils.EmptyArrayCases | lifeDiary/apps/stats/static/stats/js/utils.js:132-134 | null, undefined, anything that is not an array, and the empty array count as empty; an array with an element does not |
| StatsUtils.Numbers | lifeDiary/apps/stats/static/stats/js/utils.js:224 | the numeric items of the array, and only those |
| StatsUtils.NumbersAppend | lifeDiary/apps/stats/static/stats/js/utils.js:224 | filtering the numbers of two joined arrays gives the numbers of each, in order |
| StatsUtils.TotalAppend | lifeDiary/apps/stats/static/stats/js/utils.js:245 | the reduce-sum of two joined lists is the sum of their sums |
| StatsUtils.Sum | lifeDiary/apps/stats/static/stats/js/utils.js:240-246 | an empty or non-array value sums to 0; an array sums to the total of its numeric items |
| StatsUtils.SumAppend | lifeDiary/apps/stats/static/stats/js/utils.js:240-246 | the sum of two joined arrays is the sum of their sums |
| StatsUtils.SumIgnoresNonNumbers | lifeDiary/apps/stats/static/stats/js/utils.js:244 | an item that is not a number adds nothing to the sum |
| StatsUtils.Min | lifeDiary/apps/stats/static/stats/js/utils.js:230 | `Math.min` of a non-empty list is one of its items and at most every item |
| StatsUtils.Max | lifeDiary/apps/stats/static/stats/js/utils.js:231 | `Math.max` of a non-empty list is one of its items and at least every item |
| StatsUtils.GetMinMax | lifeDiary/apps/stats/static/stats/js/utils.js:219-233 | 0 and 0 for an empty or non-array value, or for an array without numbers; otherwise the least and the greatest numeric items, both in the array |
| StatsUtils.Channel | lifeDiary/apps/stats/static/stats/js/utils.js:195-197 | a channel's rendering is never empty, and one or more hexadecimal digits render as their decimal value |
| StatsUtils.TrailingNumberLength | lifeDiary/apps/stats/static/stats/js/utils.js:203 | the longest run of digits and dots ending the text |
| StatsUtils.ReplaceLastNumber | lifeDiary/apps/stats/static/stats/js/utils.js:203 | a text not ending in a closing parenthesis preceded by digits or dots is unchanged |
| StatsUtils.AddAlphaToColor | lifeDiary/apps/stats/static/stats/js/utils.js:189-212 | an empty colour becomes transparent black; a colour neither `#` nor `rgb` comes back unchanged |
| StatsUtils.HexColorChannels | lifeDiary/apps/stats/static/stats/js/utils.js:193-199 | a `#RRGGBB` colour becomes `rgba` of its three channels in decimal and the alpha |
| StatsUtils.TwoHexDigitsAreByte | lifeDiary/apps/stats/static/stats/js/utils.js:195-197 | a channel of two hexadecimal digits is below 256 |
| StatsUtils.ShortHexThirdChannelIsNaN | lifeDiary/apps/stats/static/stats/js/utils.js:193-199 | a short `#RGB` colour is not expanded: its pairs are read as they fall and the blue channel renders NaN |
| StatsUtils.RgbaAlphaReplaced | lifeDiary/apps/stats/static/stats/js/utils.js:202-204 | an `rgba` colour keeps everything up to its last number, which the new alpha replaces |
| StatsUtils.RgbWidened | lifeDiary/apps/stats/static/stats/js/utils.js:207-209 | `rgb(...)` becomes `rgba(...)` with the alpha added before the closing parenthesis |
| CoreJs.FetchBody | lifeDiary/apps/core/static/core/js/utils.js:100-102 | a body is sent exactly when there is data and the method is POST, PUT, PATCH or DELETE, and it is that data |
| CoreJs.GetSendsNoBody | lifeDiary/apps/core/static/core/js/utils.js:72-102 | a GET, the default method, never sends a body |
| CoreJs.StatusError | lifeDiary/apps/core/static/core/js/utils.js:107-109 | a failed status throws an Error with the body's message, or `HTTP` and the status when the body has none |
| CoreJs.CallResult | lifeDiary/apps/core/static/core/js/utils.js:104-115 | the call returns the parsed body exactly when the response is ok and its body parses; an unparsable body's error comes first, then the status error; an exception from fetch is rethrown unchanged |
| CoreJs.DeclaredFailureStillReturned | lifeDiary/apps/core/static/core/js/utils.js:107-111 | an ok response whose body says `success: false` is still returned by apiCall, where the dashboard client fails it |
| CoreJs.BareStatusErrorNamesStatus | lifeDiary/apps/core/static/core/js/utils.js:108 | a failed status without a message reads `HTTP <status>`, and the status can be read back from it |
| CoreJs.LoadingElement.constructor | lifeDiary/apps/core/static/core/js/utils.js:70-77 | a new element holds its content and is enabled |
| CoreJs.StartLoading | lifeDiary/apps/core/static/core/js/utils.js:86-92 | with loading shown and an element, its content is saved and it is disabled and shows the spinner; otherwise nothing is saved or changed |
| CoreJs.StopLoading | lifeDiary/apps/core/static/core/js/utils.js:116-121 | a saved content is put back and the element enabled; otherwise the element is left alone |
| CoreJs.ApiCall | lifeDiary/apps/core/static/core/js/utils.js:70-123 | the request carries the method, the CSRF cookie's value and the body by the method rule; the result is the call's outcome; the element ends with its original content, enabled, whenever loading was shown, and untouched otherwise |
| StatsViews.FlattenSnoc | lifeDiary/apps/stats/views.py:12-18 | joining the chunks with one more chunk appends that chunk's items |
| StatsViews.CeilCount | lifeDiary/apps/stats/views.py:12-18 | k chunks of at most n items, all but the last full, holding length items, are exactly ceil(length / n) chunks |
| StatsViews.FlattenLength | lifeDiary/apps/stats/views.py:15-18 | chunks of 1 to n items with all but the last full hold more than n per chunk before the last and at most n per chunk |
| StatsViews.FullChunksLength | lifeDiary/apps/stats/views.py:15 | full chunks of n items hold n items each |
| StatsViews.WellChunkedSnoc | lifeDiary/apps/stats/views.py:15-18 | appending a chunk of 1 to n items after a full last chunk keeps the chunking well formed |
| StatsViews.ChunkCount | lifeDiary/apps/stats/views.py:12-18 | a well-formed chunking of a sequence has ceil(length / n) chunks |
| StatsViews.ChunkedIterable | lifeDiary/apps/stats/views.py:12-18 | the chunks join to the input (nothing for n = 0), each holds 1 to n items with all but the last exactly n, there are none exactly when the input is empty or n is 0, and there are ceil(length / n) of them |

## Left out

- Markup and presentation are not modelled: HTML templates, icons, notification banners, highlight animations, console logging, focus changes and Chart.js. Markup is reduced to the state it shows: a cell's filled/selected/colour/title/label, the card's text, the button state, the empty state and the sections.
- The Bootstrap modal lifecycle and its retry polling are library glue. The dialog is a `shown` flag.
- Dashboard `tag-manager.js` and every `main.js` are page wiring: modal caches, URL parameters and `window` globals. Also not modelled: stats `api.js`, `ui.js` and `charts.js`, `tags.legacy.js`, `staticfiles/core/js/tag.js`, `feedback.py`, the `admin.py` and `urls.py` files, the settings and the `users` app.
- Real time and the network are not modelled:
  - `fetch` returns an outcome given as a parameter, and an aborted request is one kind of outcome;
  - `setTimeout`, debounce and the `AbortController` timer are not modelled;
  - the retry waits are returned as a list of delays;
  - `confirm`/`alert` answers are parameters;
  - the page reload after a legacy delete (`lifeDiary/apps/dashboard/static/dashboard/js/dashboard.js:1001`) is a recorded flag.
- LegacyDashboard.LegacySingleSlotInfo: leaves out the memo of a filled slot. The legacy page fetches it at `lifeDiary/apps/dashboard/static/dashboard/js/dashboard.js:805-826` and appends it to the card as markup, so it is presentation behind a network call.
- Floating point is not modelled. That covers the monthly statistics, which accumulate 1/6 hour per slot (`lifeDiary/apps/stats/logic.py:209-259`), apart from their ranking and filtering. It also covers the rounded hours, `active_hours`, `fill_percentage` and `avg_hours` of the daily and weekly statistics, the goal percentages of `get_stats_context` (`lifeDiary/apps/stats/logic.py:288-360`), and `formatHours`/average in stats `utils.js`. Where a rounded value is needed, it is exact integer tenths:
  - `Statistics.FillTenths` for the dashboard's fill percentage;
  - `StatsLogic.HoursTenths` for the tag-analysis hours.
- StatsLogic.MonthlyTagList: ranks entries whose hours are given, in tenths. The accumulation that produces those hours is floating point.
- `fill_empty_slots_monthly` (`lifeDiary/apps/stats/logic.py:86-102`) is floating point and queries per day; it is not modelled. The `'monthly'` branch of `add_unclassified_data` is `pass` and no caller passes it, so it is not modelled either.
- StatsLogic.FillEmptySlotsAnalysis and StatsLogic.GetTagAnalysisData: take the per-day row counts of the month as a sequence, in place of one count query per day.
- StatsLogic.GetTagAnalysisData: does not state that each tag is listed only once. It states that every listed entry is a counted tag with its own colour and tally, and that every counted tag is listed.
- Python dictionaries are association lists in insertion order. The weekly day dictionary's fresh unclassified entry is recorded as its minutes, not as the nested dictionary the 'daily' branch creates.
- StatsLogic.DailyTally and StatsLogic.GetDailyStatsData: require every block's slot index to lie in the grid (0 to 143). Rows outside it can exist: the save view builds rows from the request's indexes and `bulk_create` runs no field validators (`lifeDiary/apps/dashboard/views.py:160-170`). For such a row, `hourly_stats[hour]` behaves in two ways that are not modelled. An index from -144 to -1 gives an hour h from -24 to -1, and Python's negative indexing counts it in hour 24 + h. An index of 144 or more raises IndexError.
- The ORM is not modelled: queries, `select_related`, `bulk_create`/`bulk_update`, `JsonResponse` and `strptime`. Tables are sequences of rows.
  - A `bulk_create` refused by the uniqueness constraint is the one database error modelled; its text is a parameter.
  - Other exceptions in the two handlers are not modelled (`lifeDiary/apps/dashboard/views.py:202-205`, `223-226`).
  - `deleted_count` counts only the time-block rows; no cascade exists to count.
  - The row-level save lemmas assume the table already satisfies its (user, date, slot) uniqueness constraint.
- DashboardViews.TimeBlockApi: requires today's date and a parsed date to be valid calendar dates, which `date.today()` and `strptime` guarantee. A JSON body that is not an object is not modelled.
- Browser conversions are treated as the identity: `decodeURIComponent` and `escapeHtml`. `trim`/`strip` and `toLowerCase` are modelled on ASCII characters only.
- Strings are sequences of Unicode characters. JavaScript's UTF-16 code units are modelled only where the source counts or cuts them: the 50-unit name limit (`Strings.Utf16Length`) and the three-unit badge, kept as code units (`SlotGrid.Label`) because a cut can leave a lone surrogate that no Dafny string holds.
- JavaScript numbers in stats `utils.js` are integers, and `NaN` is its own value. The alpha of `addAlphaToColor` is its rendered text.
- TagUi.ParseDigits: reads only strings of digits. The dialog stores only a tag's numeric id there, so `parseInt`'s handling of other text is not modelled.
- The tag list's edit-click handler (`lifeDiary/apps/tags/static/tags/js/tag-manager.js:96-103`) only reads the button's data attributes into `openEditModal`. Its parameters are those attributes, as `TagUi.RenderTagActions` writes them.
- LegacyDashboard.ColorSync.OnColorInput: requires a six-digit hex colour, which is the only value a colour picker produces.
- TimeBlockModel.GetTimeRange and TimeBlockModel.Str: require a slot index within the field's bounds.
- TimeBlockModel.Str: takes the user's name and the date's text as parameters. The user table and Python's `str(date)` are not modelled.
- StatsViews.ChunkedIterable: takes `n` as a natural number, because `islice` raises ValueError for a negative `n`. The lazy generator is modelled as the list of the chunks it yields.
- DashboardViews.SlotDataOf: leaves out the block's `"id"` in the slot data (`lifeDiary/apps/dashboard/views.py:33`). The page only uses the tag and the memo.
- StatsLogic.GetWeeklyStatsData: leaves out each day's `date`, `day_name` and `day_korean` (`lifeDiary/apps/stats/logic.py:185-187`). `day_name` is a locale-dependent `strftime`.
- CoreJs.ApiCall: has no `headers` option. In `lifeDiary/apps/core/static/core/js/utils.js:74-83`, extra headers are spread after the defaults, so a caller could override `X-CSRFToken` or `Content-Type`.
- DashboardApi.WithRetry: requires at least `maxRetries` outcomes in the abstract sequence of attempt outcomes.

## Findings

| source | as written | input that shows it | evidently intended | confidence | as-written member | corrected member |
|---|---|---|---|---|---|---|
| lifeDiary/apps/stats/logic.py:78-85 | `fill_empty_slots_weekly` passes the weekly day dictionary, whose values are plain minute counts (`logic.py:168-170`), to `add_unclassified_data(..., data_type='daily')`. That branch expects dictionary entries and subscripts `data_container['미분류']['minutes']` (`logic.py:46`). | a week in which some day holds a block tagged with a tag named 미분류 and fewer than 144 blocks: that day's entry is the `int` 10, and subscripting it raises `TypeError: 'int' object is not subscriptable` | the day's unrecorded minutes are added to its 미분류 count, as the weekly table already does | not executed; the failing path is a direct reading of the code | StatsLogic.FillEmptySlotsWeeklyAsWritten (the failure shown by StatsLogic.UnclassifiedBlockBreaksWeeklyStats) | StatsLogic.FillEmptySlotsWeekly (its effect proved by StatsLogic.WholeDayAccounted) |
