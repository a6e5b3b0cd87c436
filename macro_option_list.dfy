/** The macro editor list: the macro and message records it edits, the list
    itself with its drag-and-drop reordering, its button callbacks, and the
    responders of its delay fields. A rebuild of the list is modelled as
    composing its rows afresh from the macro. */
module MacroOptionList {
  import opened Results
  import opened JavaText
  import opened OptionList
  import opened MacroPolicy
  import opened MacroRows

  /** The text colours a delay field shows: white for accepted text, red for
      rejected text. */
  const TEXT_NEUTRAL: int := 16777215
  const TEXT_ERROR: int := 16711680

  /** The most characters a delay field accepts. */
  const DELAY_FIELD_MAX_LENGTH: nat := 8

  class Message {
    var text: string
    var delayTicks: int

    /** A new, empty message (as added by the "+" row). */
    constructor ()
      ensures text == "" && delayTicks == 0
    {
      text := "";
      delayTicks := 0;
    }
  }

  /** The fields of a macro that the editor reads and writes. */
  class Macro {
    var mode: SendMode
    var strategy: ConflictStrategy
    var messages: seq<Message>
    var spaceTicks: int
    var cycleIndex: int
    /** Whether a repeat-mode run is active (`hasRepeating`). */
    var repeating: bool

    method AddMessage(msg: Message)
      modifies this`messages
      ensures messages == old(messages) + [msg]
    {
      messages := messages + [msg];
    }

    method RemoveMessage(index: nat)
      requires index < |messages|
      modifies this`messages
      ensures messages == RemoveAt(old(messages), index)
    {
      messages := RemoveAt(messages, index);
    }

    method MoveMessage(from: nat, to: nat)
      requires from < |messages| && to < |messages|
      modifies this`messages
      ensures messages == Move(old(messages), from, to)
    {
      messages := Move(messages, from, to);
    }

    method StopRepeating()
      modifies this`repeating
      ensures !repeating
    {
      repeating := false;
    }
  }

  /** The cycle index once the rows are built: only in CYCLE mode is the
      selector built, and with it the index reset. */
  function CycleIndexAfterBuild(cycleIndex: int, mode: SendMode, n: nat): (r: int)
    ensures r == cycleIndex || r == 0
    ensures mode != Cycle ==> r == cycleIndex
    ensures mode == Cycle && cycleIndex >= 0 ==> 0 <= r <= LastCycleValue(n)
  {
    if mode == Cycle then ClampedCycleIndex(cycleIndex, n) else cycleIndex
  }

  /** The constructor's row-appending loop. */
  method BuildRows(hud: bool, n: nat) returns (rows: seq<RowKind>)
    ensures rows == Compose(hud, n)
  {
    rows := [Bind];
    if hud {
      rows := rows + [HudHistory];
    }
    rows := rows + [StrategyMode];
    rows := rows + [Header];
    var i := 0;
    while i < n
      invariant 0 <= i <= n
      invariant rows == StructuralRows(hud) + MessageBlock(FirstMessageSlot(hud), i)
    {
      rows := rows + [Message(i)];
      rows := rows + [Spacer(|rows| - 1)];
      i := i + 1;
    }
    rows := rows + [AddAction];
  }

  class MacroOptionList {
    const profile: Profile
    const macro: Macro
    var rows: seq<RowKind>
    /** The slot whose message row is being dragged, or -1. */
    var dragSourceSlot: int

    /** The rows match the macro they were built from, and a drag, if any,
        started on a message row. */
    ghost predicate Valid()
      reads this, macro
    {
      && rows == Compose(ShowsHudHistoryRow(profile), |macro.messages|)
      && (dragSourceSlot == -1
          || (0 <= dragSourceSlot < |rows| && rows[dragSourceSlot].Message?
              && rows[dragSourceSlot].index < |macro.messages|))
    }

    constructor (profile: Profile, macro: Macro)
      modifies macro`cycleIndex
      ensures this.profile == profile && this.macro == macro
      ensures Valid() && dragSourceSlot == -1
      ensures macro.cycleIndex == CycleIndexAfterBuild(old(macro.cycleIndex), macro.mode, |macro.messages|)
    {
      this.profile := profile;
      this.macro := macro;
      var built := BuildRows(ShowsHudHistoryRow(profile), |macro.messages|);
      rows := built;
      dragSourceSlot := -1;
      new;
      if macro.mode == Cycle {
        var values := CycleSelectorValues(|macro.messages|);
        if macro.cycleIndex > values[|values| - 1] {
          macro.cycleIndex := 0;
        }
      }
    }

    /** A rebuild: the rows are composed again from the macro, with no drag
        in progress. */
    method Reload()
      modifies this`rows, this`dragSourceSlot, macro`cycleIndex
      ensures Valid() && dragSourceSlot == -1
      ensures macro.cycleIndex == CycleIndexAfterBuild(old(macro.cycleIndex), macro.mode, |macro.messages|)
    {
      rows := BuildRows(ShowsHudHistoryRow(profile), |macro.messages|);
      dragSourceSlot := -1;
      if macro.mode == Cycle {
        var values := CycleSelectorValues(|macro.messages|);
        if macro.cycleIndex > values[|values| - 1] {
          macro.cycleIndex := 0;
        }
      }
    }

    /** `messageListOffset`: the slot of the first message row; it fails
        when there is none. */
    method MessageListOffset() returns (r: Result<nat, string>)
      ensures r.Ok? ==> r.value < |rows| && rows[r.value].Message?
      ensures r.Ok? ==> forall k :: 0 <= k < r.value ==> !rows[k].Message?
      ensures r.Fail? <==> forall k :: 0 <= k < |rows| ==> !rows[k].Message?
    {
      var i := 0;
      while i < |rows|
        invariant 0 <= i <= |rows|
        invariant forall k :: 0 <= k < i ==> !rows[k].Message?
      {
        if rows[i].Message? {
          return Ok(i);
        }
        i := i + 1;
      }
      return Fail("Response list not found");
    }

    /** `messageEntryOffset`: how many rows up to and including slot `index`
        are not message rows; it fails when `index` is not a slot. */
    method MessageEntryOffset(index: int) returns (r: Result<nat, string>)
      ensures 0 <= index < |rows| ==> r == Ok(NonMessageCount(rows[..index + 1]))
      ensures !(0 <= index < |rows|) ==> r.Fail?
    {
      var i := 0;
      var offset := 0;
      while i < |rows|
        invariant 0 <= i <= |rows|
        invariant offset == NonMessageCount(rows[..i])
        invariant 0 <= index < i ==> false
      {
        if !rows[i].Message? {
          offset := offset + 1;
        }
        assert rows[..i + 1][..i] == rows[..i];
        if i == index {
          return Ok(offset);
        }
        i := i + 1;
      }
      return Fail("Response index out of range");
    }

    /** Pressing a message row's drag handle. */
    method StartDrag(slot: nat)
      requires Valid()
      requires slot < |rows| && rows[slot].Message?
      modifies this`dragSourceSlot
      ensures Valid() && dragSourceSlot == slot
    {
      ComposeSlot(ShowsHudHistoryRow(profile), |macro.messages|, slot);
      dragSourceSlot := slot;
    }

    /** A mouse release: while a drag is in progress a left-button release
        drops it and is consumed; any other release is left to the base
        list. */
    method MouseReleased(hoveredSlot: int, button: int) returns (consumedByDrop: bool)
      requires Valid()
      requires -1 <= hoveredSlot < |rows|
      modifies this`rows, this`dragSourceSlot, macro`messages, macro`cycleIndex
      ensures Valid()
      ensures consumedByDrop <==> old(dragSourceSlot) != -1 && button == MOUSE_BUTTON_LEFT
      ensures consumedByDrop ==> dragSourceSlot == -1
      ensures consumedByDrop ==>
                (macro.messages
                 == DropResult(old(macro.messages), old(rows)[old(dragSourceSlot)].index,
                               DropIntent(ShowsHudHistoryRow(profile), |old(macro.messages)|, hoveredSlot)))
      ensures consumedByDrop ==>
                (var intent := DropIntent(ShowsHudHistoryRow(profile), |old(macro.messages)|, hoveredSlot);
                 var rebuilt := intent.Some? && DropRebuilds(old(rows)[old(dragSourceSlot)].index, intent.value);
                 macro.cycleIndex
                 == if rebuilt then CycleIndexAfterBuild(old(macro.cycleIndex), macro.mode, |old(macro.messages)|)
                    else old(macro.cycleIndex))
      ensures !consumedByDrop ==>
                (&& dragSourceSlot == old(dragSourceSlot) && macro.messages == old(macro.messages)
                 && rows == old(rows) && macro.cycleIndex == old(macro.cycleIndex))
    {
      if dragSourceSlot != -1 && button == MOUSE_BUTTON_LEFT {
        DropDragged(hoveredSlot);
        return true;
      }
      return false;
    }

    /** The first half of `dropDragged`: the slot a drop on `hoveredSlot`
        refers to. A message row stands for itself, the header just above
        the first message for the front, a spacer for the message row it
        follows; any other slot cancels the drop. */
    method DropTargetSlot(hoveredSlot: int) returns (slot: Option<int>)
      requires Valid() && dragSourceSlot != -1
      requires -1 <= hoveredSlot < |rows|
      ensures var intent := DropIntent(ShowsHudHistoryRow(profile), |macro.messages|, hoveredSlot);
              var m := FirstMessageSlot(ShowsHudHistoryRow(profile));
              && (slot.Some? <==> intent.Some?)
              && (slot.Some? ==> slot.value == if intent.value == -1 then m - 1 else m + 2 * intent.value)
    {
      ghost var hud := ShowsHudHistoryRow(profile);
      ghost var n := |macro.messages|;
      ghost var m := FirstMessageSlot(hud);
      assert n > 0;
      if 0 <= hoveredSlot && rows[hoveredSlot].Message? {
        ComposeSlot(hud, n, hoveredSlot);
        assert m <= hoveredSlot < m + 2 * n && (hoveredSlot - m) % 2 == 0;
        return Some(hoveredSlot);
      }
      var first := MessageListOffset();
      if first.Fail? {
        assert false;
      }
      assert first.value == m by {
        MessageSlots(hud, n, 0);
        if first.value < m {
          ComposeSlot(hud, n, first.value);
        }
      }
      if hoveredSlot == first.value - 1 {
        return Some(hoveredSlot);
      }
      if 0 <= hoveredSlot && rows[hoveredSlot].Spacer? {
        ComposeSlot(hud, n, hoveredSlot);
        assert m <= hoveredSlot < m + 2 * n && (hoveredSlot - m) % 2 == 1;
        return Some(hoveredSlot - 1);
      }
      if m <= hoveredSlot < m + 2 * n {
        ComposeSlot(hud, n, hoveredSlot);
      }
      return None;
    }

    /** `dropDragged`: the dragged message goes right after the message whose
        row or spacer is hovered, or first when the header above the first
        message is hovered; a drop anywhere else changes nothing. The list is
        rebuilt when the drop moves anything, and the drag ends either
        way. */
    method DropDragged(hoveredSlot: int)
      requires Valid() && dragSourceSlot != -1
      requires -1 <= hoveredSlot < |rows|
      modifies this`rows, this`dragSourceSlot, macro`messages, macro`cycleIndex
      ensures Valid() && dragSourceSlot == -1
      ensures rows == old(rows)
      ensures macro.messages
              == DropResult(old(macro.messages), old(rows)[old(dragSourceSlot)].index,
                            DropIntent(ShowsHudHistoryRow(profile), |old(macro.messages)|, hoveredSlot))
      ensures var intent := DropIntent(ShowsHudHistoryRow(profile), |old(macro.messages)|, hoveredSlot);
              var rebuilt := intent.Some? && DropRebuilds(old(rows)[old(dragSourceSlot)].index, intent.value);
              && (rebuilt ==> macro.cycleIndex == CycleIndexAfterBuild(old(macro.cycleIndex), macro.mode, |old(macro.messages)|))
              && (!rebuilt ==> macro.cycleIndex == old(macro.cycleIndex))
    {
      ghost var hud := ShowsHudHistoryRow(profile);
      ghost var n := |macro.messages|;
      ghost var m := FirstMessageSlot(hud);
      ghost var msgs := macro.messages;
      ghost var source := rows[dragSourceSlot].index;
      ghost var intent := DropIntent(hud, n, hoveredSlot);
      assert dragSourceSlot == m + 2 * source by {
        ComposeSlot(hud, n, dragSourceSlot);
      }

      var slot := DropTargetSlot(hoveredSlot);
      if slot.Some? {
        var hovered := slot.value;
        if hovered > dragSourceSlot || hovered < dragSourceSlot - 1 {
          assert DropRebuilds(source, intent.value);
          MoveDragged(hovered, intent.value);
        } else {
          assert !DropRebuilds(source, intent.value);
          assert macro.messages == PlaceAfter(msgs, source, intent.value) by {
            PlaceAfterNoOp(msgs, source, intent.value);
          }
        }
      }
      dragSourceSlot := -1;
      assert macro.messages == DropResult(msgs, source, intent);
    }

    /** The indices `dropDragged` hands to `moveMessage`: the dragged
        message's index, and the hovered message's index (-1 for the header)
        with the `+1` correction applied when the message moves toward the
        front. */
    method MoveIndices(hovered: int, ghost target: int) returns (sourceIndex: int, destIndex: int)
      requires Valid() && dragSourceSlot != -1
      requires -1 <= target < |macro.messages|
      requires hovered == if target == -1 then FirstMessageSlot(ShowsHudHistoryRow(profile)) - 1
                          else FirstMessageSlot(ShowsHudHistoryRow(profile)) + 2 * target
      ensures sourceIndex == rows[dragSourceSlot].index
      ensures destIndex == CorrectedDestination(sourceIndex, target)
    {
      assert rows[hovered] == if target == -1 then Header else Message(target) by {
        ComposeSlot(ShowsHudHistoryRow(profile), |macro.messages|, hovered);
      }
      sourceIndex := MessageIndexAt(dragSourceSlot);
      destIndex := MessageIndexAt(hovered);
      if sourceIndex > destIndex {
        destIndex := destIndex + 1;
      }
    }

    /** The second half of `dropDragged`, once the drop is known to move
        something: the message is moved and the list rebuilt. */
    method MoveDragged(hovered: int, ghost target: int)
      requires Valid() && dragSourceSlot != -1
      requires -1 <= target < |macro.messages|
      requires hovered == if target == -1 then FirstMessageSlot(ShowsHudHistoryRow(profile)) - 1
                          else FirstMessageSlot(ShowsHudHistoryRow(profile)) + 2 * target
      modifies this`rows, this`dragSourceSlot, macro`messages, macro`cycleIndex
      ensures Valid() && dragSourceSlot == -1
      ensures macro.messages == PlaceAfter(old(macro.messages), old(rows)[old(dragSourceSlot)].index, target)
      ensures macro.cycleIndex == CycleIndexAfterBuild(old(macro.cycleIndex), macro.mode, |old(macro.messages)|)
    {
      ghost var msgs := macro.messages;
      ghost var source := rows[dragSourceSlot].index;
      var sourceIndex, destIndex := MoveIndices(hovered, target);
      assert Move(msgs, sourceIndex, destIndex) == PlaceAfter(msgs, source, target) by {
        MoveWithCorrectionPlacesAfter(msgs, source, target);
      }
      macro.MoveMessage(sourceIndex, destIndex);
      Reload();
    }

    /** `slot - messageEntryOffset(slot)`: the index of the message at a
        message row, and -1 at the header row above the first message. */
    method MessageIndexAt(slot: int) returns (index: int)
      requires Valid()
      requires 0 <= slot < |rows| && (rows[slot].Message? || rows[slot].Header?)
      ensures rows[slot].Message? ==> index == rows[slot].index
      ensures rows[slot].Header? ==> index == -1
    {
      ghost var hud := ShowsHudHistoryRow(profile);
      ghost var n := |macro.messages|;
      ghost var m := FirstMessageSlot(hud);
      var offset := MessageEntryOffset(slot);
      if offset.Fail? {
        assert false;
      }
      index := slot - offset.value;
      ComposeSlot(hud, n, slot);
      if rows[slot].Message? {
        SlotToMessageIndex(hud, n, rows[slot].index);
      } else {
        NonMessageCountOfPrefix(hud, n, m);
      }
    }

    /** The "+" row: a new empty message is appended and the list rebuilt. */
    method AddMessageClicked()
      requires Valid()
      modifies this`rows, this`dragSourceSlot, macro`messages, macro`cycleIndex
      ensures Valid() && dragSourceSlot == -1
      ensures |macro.messages| == |old(macro.messages)| + 1
      ensures macro.messages[..|macro.messages| - 1] == old(macro.messages)
      ensures fresh(macro.messages[|macro.messages| - 1])
      ensures macro.messages[|macro.messages| - 1].text == ""
      ensures macro.messages[|macro.messages| - 1].delayTicks == 0
      ensures rows == Compose(ShowsHudHistoryRow(profile), |old(macro.messages)| + 1)
      ensures macro.cycleIndex == CycleIndexAfterBuild(old(macro.cycleIndex), macro.mode, |macro.messages|)
    {
      var msg := new Message();
      macro.AddMessage(msg);
      Reload();
    }

    /** A message row's delete button: that message is removed and the list
        rebuilt. */
    method DeleteClicked(index: nat)
      requires Valid()
      requires index < |macro.messages|
      modifies this`rows, this`dragSourceSlot, macro`messages, macro`cycleIndex
      ensures Valid() && dragSourceSlot == -1
      ensures macro.messages == RemoveAt(old(macro.messages), index)
      ensures rows == Compose(ShowsHudHistoryRow(profile), |old(macro.messages)| - 1)
      ensures macro.cycleIndex == CycleIndexAfterBuild(old(macro.cycleIndex), macro.mode, |macro.messages|)
    {
      macro.RemoveMessage(index);
      Reload();
    }

    /** The stop button of an active repeat: the repeat ends and the list is
        rebuilt, now with a delay field in its place. */
    method StopClicked()
      requires Valid()
      modifies this`rows, this`dragSourceSlot, macro`repeating, macro`cycleIndex
      ensures Valid() && dragSourceSlot == -1
      ensures !macro.repeating
      ensures macro.messages == old(macro.messages) && rows == old(rows)
      ensures macro.cycleIndex == CycleIndexAfterBuild(old(macro.cycleIndex), macro.mode, |macro.messages|)
      ensures macro.mode == Repeat ==> TrailingControlFor(macro.mode, macro.repeating) == DelayField
    {
      macro.StopRepeating();
      Reload();
    }

    /** The cycle-index selector: the chosen value becomes the index. */
    method CycleIndexSelected(value: int)
      requires 0 <= value <= LastCycleValue(|macro.messages|)
      modifies macro`cycleIndex
      ensures macro.cycleIndex == value
      ensures ClampedCycleIndex(macro.cycleIndex, |macro.messages|) == value
    {
      macro.cycleIndex := value;
    }
  }

  /** The value a delay field's text stands for: the stripped text parsed
      as an int, with negative values rejected. */
  function DelayValue(text: string): (r: Option<int>)
    ensures r.Some? ==> 0 <= r.value <= INT_MAX
  {
    match ParseInt(Strip(text))
    case Some(v) => if v < 0 then None else Some(v)
    case None => None
  }

  /** Within the field's length limit, the text is accepted exactly when,
      stripped, it is an optionally signed run of digits whose value is not
      negative; "-0" is accepted as 0. */
  lemma DelayValueAccepts(text: string)
    requires |text| <= DELAY_FIELD_MAX_LENGTH
    ensures var t := Strip(text);
            && (DelayValue(text).Some? <==> WellFormedInt(t) && SignedValue(t) >= 0)
            && (DelayValue(text).Some? ==> DelayValue(text).value == SignedValue(t))
  {
    ShortTextNeverOverflows(Strip(text));
  }

  /** Blank text is rejected. */
  lemma DelayValueRejectsBlank(text: string)
    requires AllWhitespace(text)
    ensures DelayValue(text).None?
  {
    assert text + [] + [] == text;
    StripPadded(text, [], []);
  }

  /** Whitespace around the number does not matter. */
  lemma DelayValueIgnoresPadding(ws1: string, t: string, ws2: string)
    requires AllWhitespace(ws1) && AllWhitespace(ws2)
    requires t == [] || (!IsWhitespace(t[0]) && !IsWhitespace(t[|t| - 1]))
    ensures DelayValue(ws1 + t + ws2) == DelayValue(t)
  {
    StripPadded(ws1, t, ws2);
    StripPadded([], t, []);
    assert [] + t + [] == t;
  }

  /** The text a field is filled with, `String.valueOf(ticks)`, reads back
      as the same ticks and fits the field when it has at most eight digits:
      filling the field changes nothing. */
  lemma DelayValueRoundTrip(ticks: nat)
    requires ticks <= INT_MAX
    ensures DelayValue(DecimalString(ticks)) == Some(ticks)
    ensures ticks < 100_000_000 ==> |DecimalString(ticks)| <= DELAY_FIELD_MAX_LENGTH
  {
    DecimalStringIsStripped(ticks);
    ParseDecimalRoundTrip(ticks);
    if ticks < 100_000_000 {
      assert Pow10(8) == 100_000_000;
      DecimalStringLength(ticks, 8);
    }
  }

  /** The outcome of a delay-field edit. */
  datatype DelayEdit = Accepted | Rebuilt | Rejected

  /** The in-place resize both delay responders start with: the field takes
      the new width, keeps its right edge, and its left neighbour absorbs the
      difference. */
  method ResizeDelayField(field: Widget, neighbour: Widget, minWidth: int, fitWidth: int)
    requires field != neighbour
    modifies field`x, field`width, neighbour`width
    ensures field.width == Max(minWidth, fitWidth)
    ensures field.x + field.width == old(field.x + field.width)
    ensures neighbour.width + field.width == old(neighbour.width + field.width)
    ensures neighbour.x == old(neighbour.x)
  {
    var newWidth := Max(minWidth, fitWidth);
    var deltaWidth := field.width - newWidth;
    neighbour.width := neighbour.width + deltaWidth;
    field.x := field.x + deltaWidth;
    field.width := field.width - deltaWidth;
  }

  /** The responder of the macro-level delay field (SEND interval or REPEAT
      interval). */
  method MacroDelayResponder(list: MacroOptionList, delayField: Widget, modeButton: Widget,
                             font: Font, text: string) returns (outcome: DelayEdit)
    requires delayField != modeButton
    modifies list`rows, list`dragSourceSlot, list.macro`spaceTicks, list.macro`cycleIndex
    modifies delayField`x, delayField`width, delayField`textColor, modeButton`width
    ensures delayField.width == Max(MacroDelayMinWidth(font), font(text) + font("_") + 8)
    ensures delayField.x + delayField.width == old(delayField.x + delayField.width)
    ensures modeButton.width + delayField.width == old(modeButton.width + delayField.width)
    ensures list.macro.cycleIndex == old(list.macro.cycleIndex)
    ensures match DelayValue(text)
            case None =>
              && outcome == Rejected
              && list.macro.spaceTicks == old(list.macro.spaceTicks)
              && delayField.textColor == TEXT_ERROR
              && list.rows == old(list.rows) && list.dragSourceSlot == old(list.dragSourceSlot)
            case Some(v) =>
              && list.macro.spaceTicks == v
              && if list.macro.mode == Send && CrossesZero(old(list.macro.spaceTicks), v) then
                   && outcome == Rebuilt
                   && list.Valid() && list.dragSourceSlot == -1
                   && delayField.textColor == old(delayField.textColor)
                 else
                   && outcome == Accepted
                   && delayField.textColor == TEXT_NEUTRAL
                   && list.rows == old(list.rows) && list.dragSourceSlot == old(list.dragSourceSlot)
  {
    ResizeDelayField(delayField, modeButton, MacroDelayMinWidth(font), font(text) + font("_") + 8);
    var parsed := DelayValue(text);
    match parsed {
      case Some(space) =>
        var oldSpace := list.macro.spaceTicks;
        list.macro.spaceTicks := space;
        if list.macro.mode == Send && ((space == 0 && oldSpace != 0) || (space != 0 && oldSpace == 0)) {
          list.Reload();
          outcome := Rebuilt;
        } else {
          delayField.textColor := TEXT_NEUTRAL;
          outcome := Accepted;
        }
      case None =>
        delayField.textColor := TEXT_ERROR;
        outcome := Rejected;
    }
  }

  /** The responder of a message's own delay field. */
  method MessageDelayResponder(msg: Message, delayField: Widget, messageField: Widget,
                               font: Font, text: string) returns (outcome: DelayEdit)
    requires delayField != messageField
    modifies msg`delayTicks, delayField`x, delayField`width, delayField`textColor, messageField`width
    ensures delayField.width == Max(MessageDelayMinWidth(font), font(text) + font("__") + 8)
    ensures delayField.x + delayField.width == old(delayField.x + delayField.width)
    ensures messageField.width + delayField.width == old(messageField.width + delayField.width)
    ensures match DelayValue(text)
            case None =>
              outcome == Rejected && msg.delayTicks == old(msg.delayTicks) && delayField.textColor == TEXT_ERROR
            case Some(v) =>
              outcome == Accepted && msg.delayTicks == v && delayField.textColor == TEXT_NEUTRAL
  {
    ResizeDelayField(delayField, messageField, MessageDelayMinWidth(font), font(text) + font("__") + 8);
    var parsed := DelayValue(text);
    match parsed {
      case Some(delay) =>
        msg.delayTicks := delay;
        delayField.textColor := TEXT_NEUTRAL;
        outcome := Accepted;
      case None =>
        delayField.textColor := TEXT_ERROR;
        outcome := Rejected;
    }
  }

  /** The listener of a message's text box: the text is kept without its
      leading whitespace. */
  method MessageTextChanged(msg: Message, text: string)
    modifies msg`text
    ensures msg.text == StripLeading(text)
    ensures text == text[..|text| - |msg.text|] + msg.text
    ensures AllWhitespace(text[..|text| - |msg.text|])
  {
    msg.text := StripLeading(text);
    StripLeadingCutsWhitespacePrefix(text);
    assert text == text[..|text| - |msg.text|] + text[|text| - |msg.text|..];
  }

  /** The reorder scenarios on four messages A, B, C, D without the
      HUD/history row (first message at slot 3): dropping C on A's row puts
      it right after A; dropping C on the header puts it first; dropping C on
      D's spacer puts it last; dropping B on its own spacer changes nothing. */
  lemma ReorderScenarios<T>(a: T, b: T, c: T, d: T)
    ensures DropResult([a, b, c, d], 2, DropIntent(false, 4, 3)) == [a, c, b, d]
    ensures DropResult([a, b, c, d], 2, DropIntent(false, 4, 2)) == [c, a, b, d]
    ensures DropResult([a, b, c, d], 2, DropIntent(false, 4, 10)) == [a, b, d, c]
    ensures DropResult([a, b, c, d], 1, DropIntent(false, 4, 6)) == [a, b, c, d]
    ensures DropResult([a, b, c, d], 1, DropIntent(false, 4, 1)) == [a, b, c, d]
  {
    var s := [a, b, c, d];
    assert s[..1] == [a] && s[1..2] == [b] && s[3..] == [d];
    assert s[..0] == [] && s[0..2] == [a, b];
    assert s[..2] == [a, b] && s[3..4] == [d] && s[4..] == [];
  }
}
