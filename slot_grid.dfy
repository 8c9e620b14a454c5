// The 144-cell day grid of the dashboard page and the selection rules that
// the class-based slot manager and the legacy global-variable script share:
// the selection set, the drag interval, the filled subset, the button rules,
// the cell tooltip and the tag name read back from it, and the in-place
// updates of the cells after a save or a delete.
module SlotGrid {
  import opened Wrappers
  import opened Strings
  import SlotUtils

  const SlotCount: nat := 144

  /**
   * One `.time-slot` element: its `data-time`, the `filled` and `selected`
   * classes, the background colour, the tooltip and the short badge text inside.
   */
  datatype Cell = Cell(time: string, filled: bool, selected: bool, color: string,
                       title: string, badge: seq<CodeUnit>)

  /** A tag as the tag buttons hand it to the grid. */
  datatype TagChoice = TagChoice(id: int, name: string, color: string)

  /** What the slot information card shows. */
  datatype Info =
    | Hidden
    | SingleSlot(timeRange: string, status: string)
    | ManySlots(count: nat, timeRange: string, duration: string)

  /** The user-visible reaction to an action. */
  datatype Notice = Quiet | Success(message: string) | Failure(message: string) | Alert(message: string)

  /** The bodies POSTed and DELETEd to the block endpoint. */
  datatype SaveRequest = SaveRequest(slotIndexes: seq<int>, tagId: int, memo: string, date: string)
  datatype DeleteRequest = DeleteRequest(slotIndexes: seq<int>, date: string)

  /** How the awaited request ended: a JSON body, or a thrown error's message. */
  datatype Reply = Resolved(success: bool, message: string) | Rejected(message: string)

  // ---------------------------------------------------------------------
  // The selection as a JS `Set`: duplicate-free, in insertion order

  predicate NoDup(s: seq<int>) {
    forall i, j :: 0 <= i < j < |s| ==> s[i] != s[j]
  }

  /** A duplicate-free sequence has as many elements as the set it lists. */
  lemma {:induction false} NoDupCardinality(s: seq<int>)
    requires NoDup(s)
    ensures |set y | y in s| == |s|
  {
    if s != [] {
      var f := s[..|s| - 1];
      assert NoDup(f);
      NoDupCardinality(f);
      assert (set y | y in s) == (set y | y in f) + {s[|s| - 1]};
      assert s[|s| - 1] !in f;
    }
  }

  predicate InGrid(s: seq<int>) {
    forall y :: y in s ==> 0 <= y < SlotCount
  }

  /** `set.add(x)`: appends `x` unless it is already there. */
  function SetAdd(s: seq<int>, x: int): (r: seq<int>)
    ensures forall y :: y in r <==> y in s || y == x
    ensures |r| >= |s| && r[..|s|] == s
    ensures NoDup(s) ==> NoDup(r)
    ensures NoDup(s) ==> |r| == |s| + (if x in s then 0 else 1)
  {
    if x in s then s else s + [x]
  }

  /** `set.delete(x)`: drops `x`, keeping the others in order. */
  function SetDelete(s: seq<int>, x: int): (r: seq<int>)
    ensures forall y :: y in r <==> y in s && y != x
    ensures NoDup(s) ==> NoDup(r)
    ensures NoDup(s) ==> |r| == |s| - (if x in s then 1 else 0)
  {
    if s == [] then []
    else
      var rest := SetDelete(s[1..], x);
      assert NoDup(s) ==> NoDup(s[1..]) && s[0] !in s[1..];
      if s[0] == x then rest else [s[0]] + rest
  }

  /** The ctrl/cmd-click rule: only `i`'s membership flips. */
  function Toggle(s: seq<int>, i: int): (r: seq<int>)
    ensures forall y :: y in r <==> (if y == i then i !in s else y in s)
    ensures NoDup(s) ==> NoDup(r)
  {
    if i in s then SetDelete(s, i) else SetAdd(s, i)
  }

  /** Toggling twice gives back the same elements; from outside, the very same sequence. */
  lemma ToggleTwice(s: seq<int>, i: int)
    ensures forall y :: y in Toggle(Toggle(s, i), i) <==> y in s
    ensures i !in s && NoDup(s) ==> Toggle(Toggle(s, i), i) == s
  {
    if i !in s && NoDup(s) {
      DeleteAbsent(s, i);
      DeleteLast(s, i);
    }
  }

  lemma {:induction false} DeleteAbsent(s: seq<int>, x: int)
    requires x !in s
    ensures SetDelete(s, x) == s
  {
    if s != [] {
      DeleteAbsent(s[1..], x);
      assert s == [s[0]] + s[1..];
    }
  }

  lemma {:induction false} DeleteLast(s: seq<int>, x: int)
    requires x !in s
    ensures SetDelete(s + [x], x) == s
  {
    if s == [] {
      assert SetDelete([x], x) == SetDelete([], x);
    } else {
      assert (s + [x])[1..] == s[1..] + [x];
      DeleteLast(s[1..], x);
      assert s == [s[0]] + s[1..];
    }
  }

  // ---------------------------------------------------------------------
  // Drag interval

  /** lo, lo+1, …, hi (empty when lo > hi): what the drag loop adds in order. */
  function Interval(lo: int, hi: int): (r: seq<int>)
    ensures |r| == (if lo <= hi then hi - lo + 1 else 0)
    ensures forall k :: 0 <= k < |r| ==> r[k] == lo + k
    decreases hi - lo
  {
    if lo > hi then [] else [lo] + Interval(lo + 1, hi)
  }

  lemma IntervalSnoc(lo: int, hi: int)
    requires lo <= hi + 1
    ensures Interval(lo, hi + 1) == Interval(lo, hi) + [hi + 1]
  {
    assert Interval(lo, hi + 1)[hi + 1 - lo] == hi + 1;
  }

  /** The slots a drag from `anchor` to `current` selects. */
  function DragRange(anchor: int, current: int): (r: seq<int>)
    ensures forall y :: y in r <==> Min(anchor, current) <= y <= Max(anchor, current)
    ensures NoDup(r) && |r| == Max(anchor, current) - Min(anchor, current) + 1
    ensures forall k :: 0 < k < |r| ==> r[k] == r[k - 1] + 1
  {
    var lo, hi := Min(anchor, current), Max(anchor, current);
    var r := Interval(lo, hi);
    forall y | lo <= y <= hi ensures y in r {
      assert r[y - lo] == y;
    }
    r
  }

  function Min(a: int, b: int): int { if a <= b then a else b }
  function Max(a: int, b: int): int { if a <= b then b else a }

  /** Dragging back over the anchor selects the same slots whichever way the drag ran. */
  lemma DragRangeSymmetric(a: int, b: int)
    ensures DragRange(a, b) == DragRange(b, a)
  {
  }

  // ---------------------------------------------------------------------
  // Filled subset and button rules

  /** `selected.filter(i => cell i has class filled)`, in selection order. */
  function FilledSubset(sel: seq<int>, cells: seq<Cell>): (r: seq<int>)
    requires InGrid(sel) && |cells| == SlotCount
    ensures forall y :: y in r <==> y in sel && cells[y].filled
    ensures |r| <= |sel| && InGrid(r)
    ensures NoDup(sel) ==> NoDup(r)
  {
    if sel == [] then []
    else
      assert forall y :: y in sel[1..] ==> y in sel;
      var rest := FilledSubset(sel[1..], cells);
      assert NoDup(sel) ==> NoDup(sel[1..]) && sel[0] !in sel[1..];
      assert sel[0] in sel;
      if cells[sel[0]].filled then [sel[0]] + rest else rest
  }

  /** The legacy `Array.from(selected).some(i => cell i is filled)`. */
  predicate AnyFilled(sel: seq<int>, cells: seq<Cell>)
    requires InGrid(sel) && |cells| == SlotCount
  {
    exists y :: y in sel && cells[y].filled
  }

  /** Save is enabled exactly when at least one slot and a tag are selected. */
  predicate SaveEnabled(sel: seq<int>, tag: Option<TagChoice>) {
    |sel| > 0 && tag.Some?
  }

  /** Delete is enabled exactly when one of the selected slots is filled. */
  predicate DeleteEnabled(sel: seq<int>, cells: seq<Cell>)
    requires InGrid(sel) && |cells| == SlotCount
  {
    |sel| > 0 && |FilledSubset(sel, cells)| > 0
  }

  lemma DeleteEnabledIff(sel: seq<int>, cells: seq<Cell>)
    requires InGrid(sel) && |cells| == SlotCount
    ensures DeleteEnabled(sel, cells) <==> AnyFilled(sel, cells)
  {
    var r := FilledSubset(sel, cells);
    if AnyFilled(sel, cells) {
      var y :| y in sel && cells[y].filled;
      assert y in r;
      assert r != [] && sel != [];
    }
    if DeleteEnabled(sel, cells) {
      var y := r[0];
      assert y in r;
      assert y in sel && cells[y].filled;
    }
  }

  // ---------------------------------------------------------------------
  // Tooltip and label

  const EmptySlotText: string := "빈 슬롯"

  /** `${time} - ${name}${memo ? ': ' + memo : ''}`. */
  function FilledTitle(time: string, name: string, memo: string): (r: string)
    ensures StartsWith(r, time + " - " + name)
    ensures memo == "" <==> r == time + " - " + name
  {
    var head := time + " - " + name;
    var r := head + (if memo != "" then ": " + memo else "");
    assert r[..|head|] == head;
    assert memo != "" ==> |r| > |head|;
    r
  }

  /** `${time} - 빈 슬롯`. */
  function EmptyTitle(time: string): string {
    time + " - " + EmptySlotText
  }

  /**
   * `name.substring(0, 3)`: the first three UTF-16 code units of the name, or
   * all of a shorter one. A character outside the Basic Multilingual Plane
   * takes two units, so the cut can fall inside its surrogate pair.
   */
  function Label(name: string): (r: seq<CodeUnit>)
    ensures |r| == if Utf16Length(name) < 3 then Utf16Length(name) else 3
    ensures r <= Utf16(name)
  {
    var u := Utf16(name);
    if |u| < 3 then u else u[..3]
  }

  /** For a name of Basic Multilingual Plane characters the badge is its first three characters. */
  lemma LabelOfPlainName(name: string)
    requires forall k :: 0 <= k < |name| ==> !IsAstral(name[k])
    ensures DecodeUtf16(Label(name)) == Some(if |name| < 3 then name else name[..3])
  {
    var m := if |name| < 3 then |name| else 3;
    var p := name[..m];
    Utf16OfPrefix(name, m);
    assert forall k :: 0 <= k < |p| ==> p[k] == name[k];
    assert Utf16Length(p) == |p|;
    assert Label(name) == Utf16(p);
    DecodeUtf16OfUtf16(p);
    if |name| < 3 { assert p == name; }
  }

  /**
   * Two astral characters (two emoji, say): the badge is the first one and
   * the high surrogate of the second, a lone surrogate no string decodes to.
   */
  lemma LabelSplitsSurrogatePair(c: char, d: char)
    requires IsAstral(c) && IsAstral(d)
    ensures |Label([c, d])| == 3
    ensures DecodeUtf16(Label([c, d])) == None
  {
    var name := [c, d];
    assert name[1..] == [d] && [d][1..] == [];
    assert Utf16([d]) == EncodeChar(d) + Utf16([]);
    assert Utf16(name) == EncodeChar(c) + Utf16([d]);
    var u := Label(name);
    assert u == EncodeChar(c) + [EncodeChar(d)[0]];
    assert 0xD800 <= u[0] < 0xDC00 && 0xDC00 <= u[1] < 0xE000;
    assert u[2..] == [EncodeChar(d)[0]];
    assert 0xD800 <= u[2] < 0xDC00;
  }

  /**
   * The tag name read back from a filled cell's tooltip: the text after the
   * first " - " up to the next " - " or ':'; empty for a tooltip without one.
   */
  function TagNameFromTitle(title: string): (r: string)
    ensures !Contains(r, ":")
    ensures !Contains(title, " - ") ==> r == ""
  {
    SplitFirst(title, " - ");
    var parts := Split(title, " - ");
    if |parts| > 1 then
      FirstPartHasNoSeparator(parts[1], ":");
      Split(parts[1], ":")[0]
    else
      assert !Contains("", ":") by { ContainsIff("", ":"); }
      ""
  }

  /** The first part of a split holds no separator. */
  lemma FirstPartHasNoSeparator(s: string, sep: string)
    requires |sep| > 0
    ensures !Contains(Split(s, sep)[0], sep)
  {
    SplitFirst(s, sep);
    var p := Split(s, sep)[0];
    ContainsIff(p, sep);
    forall k | OccursAt(p, sep, k) ensures OccursAt(s, sep, k) {
      assert s[k..k + |sep|] == p[k..k + |sep|];
    }
  }

  predicate NoSpace(s: string) { forall k :: 0 <= k < |s| ==> s[k] != ' ' }

  /**
   * A tooltip reads back as the tag name it was built from when the time
   * has no space and the name contains neither ':' nor " - ".
   */
  lemma TitleRoundTrip(time: string, name: string, memo: string)
    requires NoSpace(time)
    requires !Contains(name, ":") && !Contains(name, " - ")
    ensures TagNameFromTitle(FilledTitle(time, name, memo)) == name
  {
    var suffix := if memo != "" then ": " + memo else "";
    assert FilledTitle(time, name, memo) == time + " - " + (name + suffix);
    SecondPartAfterTime(time, name + suffix);
    NamePartEndsAtColon(name, suffix);
    BeforeColon(name, Split(name + suffix, " - ")[0]);
  }

  /** With a space-free time, the text after the first " - " starts right after it. */
  lemma SecondPartAfterTime(time: string, rest: string)
    requires NoSpace(time)
    ensures |Split(time + " - " + rest, " - ")| > 1
    ensures Split(time + " - " + rest, " - ")[1] == Split(rest, " - ")[0]
  {
    var title := time + " - " + rest;
    assert title[|time|..|time| + 3] == " - ";
    forall j | 0 <= j < |time| ensures !OccursAt(title, " - ", j) {
      assert title[j] == time[j];
    }
    FindFromIs(title, " - ", 0, |time|);
    assert title[|time| + 3..] == rest;
  }

  /** The first " - "-part of name + suffix is the name, then ':' or nothing. */
  lemma NamePartEndsAtColon(name: string, suffix: string)
    requires !Contains(name, " - ")
    requires suffix == [] || suffix[0] == ':'
    ensures var p := Split(name + suffix, " - ")[0];
            |p| >= |name| && p[..|name|] == name && (|p| > |name| ==> p[|name|] == ':')
  {
    var rest := name + suffix;
    SplitFirst(rest, " - ");
    var m := match FindFrom(rest, " - ", 0) case None => |rest| case Some(k) => k;
    assert Split(rest, " - ")[0] == rest[..m];
    ContainsIff(name, " - ");
    forall j | 0 <= j < |name| ensures !OccursAt(rest, " - ", j) {
      if j + 3 <= |name| {
        assert rest[j..j + 3] == name[j..j + 3];
        assert !OccursAt(name, " - ", j);
      } else if j + 3 <= |rest| {
        assert rest[|name|] == ':';
        assert rest[j..j + 3][|name| - j] == ':';
      }
    }
  }

  /** A text that is the name, then ':' or nothing, splits on ':' to the name. */
  lemma BeforeColon(name: string, p: string)
    requires !Contains(name, ":")
    requires |p| >= |name| && p[..|name|] == name && (|p| > |name| ==> p[|name|] == ':')
    ensures Split(p, ":")[0] == name
  {
    NoColonBefore(name, p);
    SplitFirst(p, ":");
    if |p| > |name| {
      assert p[|name|..|name| + 1] == ":";
      FindFromIs(p, ":", 0, |name|);
    } else {
      assert p == name;
      assert FindFrom(p, ":", 0).None?;
    }
  }

  /** No colon of `p` lies within its leading copy of a colon-free name. */
  lemma NoColonBefore(name: string, p: string)
    requires !Contains(name, ":")
    requires |p| >= |name| && p[..|name|] == name
    ensures forall j :: 0 <= j < |name| ==> !OccursAt(p, ":", j)
  {
    ContainsIff(name, ":");
    forall j | 0 <= j < |name| ensures !OccursAt(p, ":", j) {
      assert p[j..j + 1] == name[j..j + 1];
      assert !OccursAt(name, ":", j);
    }
  }

  /** FindFrom stops at the first occurrence at or after `i`. */
  lemma {:induction false} FindFromIs(s: string, t: string, i: nat, k: nat)
    requires i <= k && OccursAt(s, t, k)
    requires forall j :: i <= j < k ==> !OccursAt(s, t, j)
    ensures FindFrom(s, t, i) == Some(k)
    decreases k - i
  {
    if i < k {
      assert !OccursAt(s, t, i);
      FindFromIs(s, t, i + 1, k);
    }
  }

  /** An emptied cell's tooltip would read back as the empty-slot text. */
  lemma EmptyTitleRoundTrip(time: string)
    requires NoSpace(time)
    ensures TagNameFromTitle(EmptyTitle(time)) == EmptySlotText
  {
    assert EmptyTitle(time) == FilledTitle(time, EmptySlotText, "");
    forall k | 0 <= k < |EmptySlotText| ensures EmptySlotText[k] != ':' && EmptySlotText[k] != '-' {
      if k == 0 {} else if k == 1 {} else if k == 2 {} else {}
    }
    AbsentCharNotContained(EmptySlotText, ":", 0);
    AbsentCharNotContained(EmptySlotText, " - ", 1);
    TitleRoundTrip(time, EmptySlotText, "");
  }

  /** The `data-time` of every grid slot is "HH:MM", which has no space. */
  lemma SlotTimeHasNoSpace(i: nat)
    requires i < SlotCount
    ensures NoSpace(SlotUtils.IndexToTimeString(i))
  {
    var t := SlotUtils.IndexToTimeString(i);
    forall k | 0 <= k < |t| ensures t[k] != ' ' {
      if k < 2 { assert t[k] == t[..2][k]; }
      else if k > 2 { assert t[k] == t[3..][k - 3]; }
    }
  }

  // ---------------------------------------------------------------------
  // Cells after a save or a delete

  /** A cell painted with the tag after a save. */
  function Painted(c: Cell, tag: TagChoice, memo: string): (r: Cell)
    ensures r.filled && r.color == tag.color && r.badge == Label(tag.name)
    ensures r.title == FilledTitle(c.time, tag.name, memo)
    ensures r.time == c.time && r.selected == c.selected
  {
    c.(color := tag.color, filled := true, title := FilledTitle(c.time, tag.name, memo),
       badge := Label(tag.name))
  }

  /** A cell wiped after a delete. */
  function Wiped(c: Cell): (r: Cell)
    ensures !r.filled && r.color == "" && r.badge == [] && r.title == EmptyTitle(c.time)
    ensures r.time == c.time && r.selected == c.selected
  {
    c.(color := "", filled := false, title := EmptyTitle(c.time), badge := [])
  }

  /** A painted cell reads back as the tag it was painted with. */
  lemma PaintedReadsBack(c: Cell, tag: TagChoice, memo: string)
    requires NoSpace(c.time) && !Contains(tag.name, ":") && !Contains(tag.name, " - ")
    ensures TagNameFromTitle(Painted(c, tag, memo).title) == tag.name
  {
    TitleRoundTrip(c.time, tag.name, memo);
  }

  /** Removes the `selected` class from every cell. */
  method UnmarkAll(cells: array<Cell>)
    modifies cells
    ensures forall k :: 0 <= k < cells.Length ==> cells[k] == old(cells[k]).(selected := false)
  {
    var i := 0;
    while i < cells.Length
      invariant 0 <= i <= cells.Length
      invariant forall k :: 0 <= k < i ==> cells[k] == old(cells[k]).(selected := false)
      invariant forall k :: i <= k < cells.Length ==> cells[k] == old(cells[k])
    {
      cells[i] := cells[i].(selected := false);
      i := i + 1;
    }
  }

  /** Sets or clears the `selected` class of one cell. */
  method Mark(cells: array<Cell>, i: int, on: bool)
    requires 0 <= i < cells.Length
    modifies cells
    ensures cells[i] == old(cells[i]).(selected := on)
    ensures forall k :: 0 <= k < cells.Length && k != i ==> cells[k] == old(cells[k])
  {
    cells[i] := cells[i].(selected := on);
  }

  /** The forEach of a successful save: paints every listed cell. */
  method PaintSlots(cells: array<Cell>, indexes: seq<int>, tag: TagChoice, memo: string)
    requires forall y :: y in indexes ==> 0 <= y < cells.Length
    modifies cells
    ensures forall k :: 0 <= k < cells.Length ==>
              cells[k] == if k in indexes then Painted(old(cells[k]), tag, memo) else old(cells[k])
  {
    var j := 0;
    while j < |indexes|
      invariant 0 <= j <= |indexes|
      invariant forall k :: 0 <= k < cells.Length ==>
                  cells[k] == if k in indexes[..j] then Painted(old(cells[k]), tag, memo) else old(cells[k])
    {
      var i := indexes[j];
      assert i in indexes;
      cells[i] := Painted(cells[i], tag, memo);
      assert indexes[..j + 1] == indexes[..j] + [i];
      j := j + 1;
    }
    assert indexes[..j] == indexes;
  }

  /** The forEach of a successful delete: wipes every listed cell. */
  method WipeSlots(cells: array<Cell>, indexes: seq<int>)
    requires forall y :: y in indexes ==> 0 <= y < cells.Length
    modifies cells
    ensures forall k :: 0 <= k < cells.Length ==>
              cells[k] == if k in indexes then Wiped(old(cells[k])) else old(cells[k])
  {
    var j := 0;
    while j < |indexes|
      invariant 0 <= j <= |indexes|
      invariant forall k :: 0 <= k < cells.Length ==>
                  cells[k] == if k in indexes[..j] then Wiped(old(cells[k])) else old(cells[k])
    {
      var i := indexes[j];
      assert i in indexes;
      cells[i] := Wiped(cells[i]);
      assert indexes[..j + 1] == indexes[..j] + [i];
      j := j + 1;
    }
    assert indexes[..j] == indexes;
  }

  /** `dateSelector?.value || today`. */
  function ChosenDate(dateField: string, today: string): (r: string)
    ensures r == if dateField != "" then dateField else today
  {
    if dateField != "" then dateField else today
  }
}
