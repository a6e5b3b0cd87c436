# CommandKeys macro editor list, modelled in Dafny

CommandKeys is a Minecraft client mod that binds chat messages and commands
to keys. This project models the part of its options screen that edits one
macro. That part is the scrolling list of rows named `MacroOptionList`,
built on the mod's base list `OptionList`. It covers:

- the order in which the rows are composed from the macro. Each message row is
  followed by an invisible spacer row (`SpaceEntry`) so that it spans two
  fixed-height slots;
- drag-and-drop reordering of messages. This includes the translation from
  list slots to message indices and the `+1` correction applied before
  `Macro.moveMessage`;
- the helpers `messageListOffset` and `messageEntryOffset`, with their
  error paths;
- which controls each send mode and conflict strategy shows, and how the
  strategy-and-mode row and the message rows divide their width;
- the responders of the delay fields. They resize the field, strip and parse
  its text as `Integer.parseInt` does, reject negative values, recolour the
  field, and rebuild the list when the SEND-mode delay crosses zero;
- the add, delete, stop and cycle-index callbacks, and the reset of an
  out-of-range cycle index when the list is built;
- the layout values of the base list, and how `SpaceEntry` forwards to the
  row it extends.

Modules:

- `Results` holds `Option` and `Result`.
- `JavaText` models `String.strip`/`stripLeading`, `Integer.parseInt`
  and `String.valueOf`.
- `OptionList` models the base list and its row classes.
- `MacroPolicy` holds the pure decisions of the row constructors.
- `MacroRows` holds the slot sequence and the reorder arithmetic.
- `MacroOptionList` models the list class, the `Macro`/`Message` fields it
  edits, its callbacks and its delay responders.

A rebuild (`reload()`) creates a new list object from the same macro. Here
it is modelled as composing the rows again in the same object.

## Behaviour worth knowing

- Dropping a message onto another message's row (or its spacer) places it
  right *after* that message; dragging C onto A in [A, B, C, D] gives
  [A, C, B, D]. To put a message first, drop it on the header row above the
  list. `MacroOptionList.ReorderScenarios` proves these outcomes.
- When the list is built in CYCLE mode, a cycle index past the last offered
  value is reset to 0, and a negative index is kept as it is.

## Model

| member | source | states |
|---|---|---|
| OptionList.Max | common/src/main/java/dev/terminalmc/commandkeys/gui/widget/list/OptionList.java:72 | the result is at least both arguments and is one of them (`Math.max`) |
| OptionList.Min | common/src/main/java/dev/terminalmc/commandkeys/gui/widget/list/OptionList.java:245 | the result is at most both arguments and is one of them (`Math.min`) |
| OptionList.JavaHalf | common/src/main/java/dev/terminalmc/commandkeys/gui/widget/list/OptionList.java:74-75 | Java's `/ 2` rounds toward zero: the remainder is 0 or 1 for non-negative values and 0 or -1 for negative ones |
| OptionList.NewLayout | common/src/main/java/dev/terminalmc/commandkeys/gui/widget/list/OptionList.java:68-78 | the dynamic entry width is the larger of the fixed and scaled widths; the row width is 20 more than it and covers the fixed width too; the small button width is the larger of 16 and the entry height |
| OptionList.EntriesCentred | common/src/main/java/dev/terminalmc/commandkeys/gui/widget/list/OptionList.java:74-75 | both kinds of row leave equal space on each side, up to one pixel |
| OptionList.ScrollbarClearsRows | common/src/main/java/dev/terminalmc/commandkeys/gui/widget/list/OptionList.java:86-89 | the scrollbar lies at least 9 pixels to the right of the right edge of both kinds of row |
| OptionList.ScrollbarPosition | common/src/main/java/dev/terminalmc/commandkeys/gui/widget/list/OptionList.java:86-89 | the scrollbar sits at the right edge of a row of the row width centred in the list, up to rounding |
| OptionList.Entry.constructor | common/src/main/java/dev/terminalmc/commandkeys/gui/widget/list/OptionList.java:133-135 | a new row has no widgets, is not dragging and has no focused child |
| OptionList.Entry.Text | common/src/main/java/dev/terminalmc/commandkeys/gui/widget/list/OptionList.java:159-177 | a text row holds exactly one widget at the given x; it is multi-line exactly when the text is wider than the row; a single-line widget has the row's width and height, a wrapped one wraps at the row's width and has the wrapped text's size; the tooltip and its delay are set only when given |
| OptionList.Entry.ActionButton | common/src/main/java/dev/terminalmc/commandkeys/gui/widget/list/OptionList.java:179-194 | a button row holds exactly one button with the given box; the tooltip and its delay are set only when given |
| OptionList.Entry.Render | common/src/main/java/dev/terminalmc/commandkeys/gui/widget/list/OptionList.java:147-155 | every widget of the row is moved to the row's height and nothing else about any widget changes |
| OptionList.SpaceEntry.constructor | common/src/main/java/dev/terminalmc/commandkeys/gui/widget/list/OptionList.java:206-209 | a spacer row is bound to the row it extends |
| OptionList.SpaceEntry.IsDragging | common/src/main/java/dev/terminalmc/commandkeys/gui/widget/list/OptionList.java:211-214 | the spacer reports its owner's drag state |
| OptionList.SpaceEntry.SetDragging | common/src/main/java/dev/terminalmc/commandkeys/gui/widget/list/OptionList.java:216-219 | setting the spacer's drag state sets its owner's, and the spacer then reports it |
| OptionList.SpaceEntry.MouseClicked | common/src/main/java/dev/terminalmc/commandkeys/gui/widget/list/OptionList.java:221-224 | a click on the spacer acts on its owner: the first widget that takes it becomes focused and a left click starts a drag; the click is handled exactly when some widget took it |
| OptionList.SpaceEntry.MouseDragged | common/src/main/java/dev/terminalmc/commandkeys/gui/widget/list/OptionList.java:226-230 | a drag over the spacer is handled exactly when the owner is dragging with a focused widget and the left button |
| OptionList.SpaceEntry.SetFocused | common/src/main/java/dev/terminalmc/commandkeys/gui/widget/list/OptionList.java:232-234 | focusing through the spacer focuses the owner's child |
| OptionList.SpaceEntry.GetFocused | common/src/main/java/dev/terminalmc/commandkeys/gui/widget/list/OptionList.java:236-238 | the spacer reports its owner's focused child |
| OptionList.SpaceEntry.FocusPathAtIndex | common/src/main/java/dev/terminalmc/commandkeys/gui/widget/list/OptionList.java:240-248 | there is no focus path exactly when the owner has no children; otherwise the path goes through child `i`, or through the last child when `i` is past the end |
| MacroPolicy.BindRowSecondControl | common/src/main/java/dev/terminalmc/commandkeys/gui/widget/list/MacroOptionList.java:224-250 | the binding row's right half is the alternate-keybind button exactly in CYCLE mode, and the ignore-ratelimit toggle otherwise |
| MacroPolicy.HalfRowSpans | common/src/main/java/dev/terminalmc/commandkeys/gui/widget/list/MacroOptionList.java:204-250 | the binding row (and the HUD/history row) splits into two equal buttons, one flush with each edge, one spacing apart or one pixel more |
| MacroPolicy.ShowsHudHistoryRow | common/src/main/java/dev/terminalmc/commandkeys/gui/widget/list/MacroOptionList.java:51-52 | the HUD/history row is hidden exactly when the profile fixes both toggles itself (on or off) |
| MacroPolicy.TrailingControlFor | common/src/main/java/dev/terminalmc/commandkeys/gui/widget/list/MacroOptionList.java:302-371 | a delay field appears exactly in SEND mode or in REPEAT mode with no active repeat; a stop button exactly in REPEAT mode with an active repeat; a cycle selector exactly in CYCLE mode; nothing in TYPE or RANDOM mode |
| MacroPolicy.ShowsMessageDelay | common/src/main/java/dev/terminalmc/commandkeys/gui/widget/list/MacroOptionList.java:388-390 | per-message delay fields show under AVOID and in REPEAT mode, never in TYPE, RANDOM or CYCLE mode with another strategy, and in SEND mode with another strategy exactly when the macro delay is 0 |
| MacroPolicy.CrossesZero | common/src/main/java/dev/terminalmc/commandkeys/gui/widget/list/MacroOptionList.java:323-324 | the rebuild condition holds exactly when one of the old and new delays is zero and the other is not |
| MacroPolicy.SendDelayRebuildCoversVisibilityChange | common/src/main/java/dev/terminalmc/commandkeys/gui/widget/list/MacroOptionList.java:322-326 | in SEND mode, every macro-delay edit that changes whether per-message delay fields are shown crosses zero and so rebuilds the list; when the strategy is not AVOID the two conditions coincide |
| MacroPolicy.ModeButtonWidth | common/src/main/java/dev/terminalmc/commandkeys/gui/widget/list/MacroOptionList.java:264-270 | the mode button plus the control after it is exactly half a row wide, in every mode |
| MacroPolicy.StrategyRowSpans | common/src/main/java/dev/terminalmc/commandkeys/gui/widget/list/MacroOptionList.java:261-371 | the strategy button fills the left half; the mode button starts where the right half starts; the last control ends at the row's right edge; the mode button meets the trailing control with no gap; the two halves are at least one spacing apart |
| MacroPolicy.MessageFieldWidth | common/src/main/java/dev/terminalmc/commandkeys/gui/widget/list/MacroOptionList.java:392-393 | the two small buttons, the text box, the delay field when shown and the gaps between them add up to exactly the row width |
| MacroPolicy.MessageRowSpans | common/src/main/java/dev/terminalmc/commandkeys/gui/widget/list/MacroOptionList.java:391-458 | a message row has a drag handle at its left edge and a delete button at its right edge, with the text box and the delay field (when shown, at its minimum width) between them, exactly one spacing apart |
| MacroPolicy.CycleSelectorValues | common/src/main/java/dev/terminalmc/commandkeys/gui/widget/list/MacroOptionList.java:357-359 | the selector offers 0, 1, ..., n-1 for n messages, or just 0 when there are none |
| MacroPolicy.ClampedCycleIndex | common/src/main/java/dev/terminalmc/commandkeys/gui/widget/list/MacroOptionList.java:360 | after the reset the index is at most the last offered value and is either unchanged or 0; negative values are kept; a non-negative one lies within the offered values |
| MacroPolicy.ClampedCycleIndexIdempotent | common/src/main/java/dev/terminalmc/commandkeys/gui/widget/list/MacroOptionList.java:360 | building the selector again with the same messages does not change the index any further |
| MacroRows.MessageBlock | common/src/main/java/dev/terminalmc/commandkeys/gui/widget/list/MacroOptionList.java:61-67 | the loop appends two rows per message |
| MacroRows.Compose | common/src/main/java/dev/terminalmc/commandkeys/gui/widget/list/MacroOptionList.java:49-73 | the list has one slot per structural row, two per message and one for the add-message row |
| MacroRows.MessageBlockAt | common/src/main/java/dev/terminalmc/commandkeys/gui/widget/list/MacroOptionList.java:61-67 | inside the message block, even positions hold message rows in order and odd ones hold the spacer of the row before |
| MacroRows.ComposeAt | common/src/main/java/dev/terminalmc/commandkeys/gui/widget/list/MacroOptionList.java:49-73 | every slot of the built list holds the row the closed form names |
| MacroRows.ComposeSlot | common/src/main/java/dev/terminalmc/commandkeys/gui/widget/list/MacroOptionList.java:49-73 | one slot of the built list, in closed form |
| MacroRows.ComposeOrder | common/src/main/java/dev/terminalmc/commandkeys/gui/widget/list/MacroOptionList.java:49-73 | the binding row is first; the HUD/history row is present exactly when the profile defers a toggle; then come the strategy-and-mode row and the header; message and spacer rows lie strictly between the header and the add-message row, which is last |
| MacroRows.MessageSlots | common/src/main/java/dev/terminalmc/commandkeys/gui/widget/list/MacroOptionList.java:61-67 | message `i` sits at slot `m + 2i`, and the spacer after it names that slot as owner |
| MacroRows.ComposedSpacersFollowOwners | common/src/main/java/dev/terminalmc/commandkeys/gui/widget/list/MacroOptionList.java:61-67 | in the built list every spacer directly follows the message row it forwards to |
| MacroRows.NonMessageCountOfPrefix | common/src/main/java/dev/terminalmc/commandkeys/gui/widget/list/MacroOptionList.java:159-167 | the number of non-message rows up to a slot is the slot count up to the first message, then grows by one per spacer |
| MacroRows.SlotToMessageIndex | common/src/main/java/dev/terminalmc/commandkeys/gui/widget/list/MacroOptionList.java:131-132 | a message row's slot minus `messageEntryOffset` of that slot is the message's index; at the header above the first message it is -1 |
| MacroRows.Move | common/src/main/java/dev/terminalmc/commandkeys/gui/widget/list/MacroOptionList.java:136 | moving keeps the length and puts the moved message at the destination index |
| MacroRows.PlaceAfter | common/src/main/java/dev/terminalmc/commandkeys/gui/widget/list/MacroOptionList.java:129-137 | placing a message after another keeps the number of messages |
| MacroRows.CorrectedDestination | common/src/main/java/dev/terminalmc/commandkeys/gui/widget/list/MacroOptionList.java:134 | the destination is the target index or one more, and for a real message and target it stays within the larger of the two indices |
| MacroRows.MoveWithCorrectionPlacesAfter | common/src/main/java/dev/terminalmc/commandkeys/gui/widget/list/MacroOptionList.java:131-136 | with the `+1` correction, remove-then-insert leaves the dragged message right after the target message, or first for the header; the corrected index is always in range |
| MacroRows.UncorrectedMoveLandsBefore | common/src/main/java/dev/terminalmc/commandkeys/gui/widget/list/MacroOptionList.java:133-134 | without the correction, a message moved toward the front would land just before the target message instead of after it |
| MacroRows.PlaceAfterIsPermutation | common/src/main/java/dev/terminalmc/commandkeys/gui/widget/list/MacroOptionList.java:129-137 | a drop only reorders: the same messages, the same number of times |
| MacroRows.PlaceAfterPlacement | common/src/main/java/dev/terminalmc/commandkeys/gui/widget/list/MacroOptionList.java:129-137 | the dragged message ends at the corrected index, right after the target message; removing it leaves the others in their old order |
| MacroRows.PlaceAfterNoOp | common/src/main/java/dev/terminalmc/commandkeys/gui/widget/list/MacroOptionList.java:128-129 | dropping a message on itself, on the message just before it, or on the header when it is first changes nothing; the move check skips the first and last of these, while a drop on the message just before passes the check and becomes an identity move followed by a rebuild |
| MacroRows.DropIntent | common/src/main/java/dev/terminalmc/commandkeys/gui/widget/list/MacroOptionList.java:117-127 | a drop names a message index in range, or -1 for the header; any other slot cancels the drop |
| MacroRows.DropRebuilds | common/src/main/java/dev/terminalmc/commandkeys/gui/widget/list/MacroOptionList.java:129 | a drop that does not rebuild targets the dragged message itself or the one just before it |
| MacroRows.DropRebuildsMatchesSlotFilter | common/src/main/java/dev/terminalmc/commandkeys/gui/widget/list/MacroOptionList.java:129 | the slot comparison of the move check agrees with DropRebuilds on message indices, and a drop on the message just before the dragged one passes it |
| MacroOptionList.Message.constructor | common/src/main/java/dev/terminalmc/commandkeys/gui/widget/list/MacroOptionList.java:71 | a new message has empty text and no delay |
| MacroOptionList.Macro.AddMessage | common/src/main/java/dev/terminalmc/commandkeys/gui/widget/list/MacroOptionList.java:71 | the message is appended at the end |
| MacroOptionList.Macro.RemoveMessage | common/src/main/java/dev/terminalmc/commandkeys/gui/widget/list/MacroOptionList.java:453 | exactly the message at the index is removed |
| MacroOptionList.Macro.MoveMessage | common/src/main/java/dev/terminalmc/commandkeys/gui/widget/list/MacroOptionList.java:136 | the messages become the remove-then-insert move |
| MacroOptionList.Macro.StopRepeating | common/src/main/java/dev/terminalmc/commandkeys/gui/widget/list/MacroOptionList.java:346 | no repeat is active afterwards |
| MacroOptionList.BuildRows | common/src/main/java/dev/terminalmc/commandkeys/gui/widget/list/MacroOptionList.java:49-73 | the constructor's loop produces exactly the composed row sequence |
| MacroOptionList.CycleIndexAfterBuild | common/src/main/java/dev/terminalmc/commandkeys/gui/widget/list/MacroOptionList.java:355-360 | a build leaves the cycle index unchanged or sets it to 0, touches it only in CYCLE mode, and there brings a non-negative index within the offered values |
| MacroOptionList.MacroOptionList.constructor | common/src/main/java/dev/terminalmc/commandkeys/gui/widget/list/MacroOptionList.java:43-74 | the new list's rows match the macro and no drag is in progress; in CYCLE mode the cycle index is reset when past the last message, and otherwise it is unchanged |
| MacroOptionList.MacroOptionList.Reload | common/src/main/java/dev/terminalmc/commandkeys/gui/widget/list/MacroOptionList.java:77-82 | after a rebuild the rows match the macro again, no drag is in progress, and the cycle index is reset as on construction |
| MacroOptionList.MacroOptionList.MessageListOffset | common/src/main/java/dev/terminalmc/commandkeys/gui/widget/list/MacroOptionList.java:146-153 | the result is the slot of the first message row; it fails exactly when the list has no message row |
| MacroOptionList.MacroOptionList.MessageEntryOffset | common/src/main/java/dev/terminalmc/commandkeys/gui/widget/list/MacroOptionList.java:159-167 | for a slot in range, the number of non-message rows up to and including it; any other index fails |
| MacroOptionList.MacroOptionList.StartDrag | common/src/main/java/dev/terminalmc/commandkeys/gui/widget/list/MacroOptionList.java:396-400 | pressing a message row's handle records that row's slot as the drag source |
| MacroOptionList.MacroOptionList.MouseReleased | common/src/main/java/dev/terminalmc/commandkeys/gui/widget/list/MacroOptionList.java:107-114 | a release is consumed by a drop exactly when a drag is in progress and the left button is released; after a drop no drag remains, the messages are the drop's result, and the cycle index gets the build-time reset when the drop moves something and is unchanged otherwise; any other release changes neither the drag, the rows, the messages nor the cycle index |
| MacroOptionList.MacroOptionList.DropTargetSlot | common/src/main/java/dev/terminalmc/commandkeys/gui/widget/list/MacroOptionList.java:117-127 | the slot a drop refers to: the hovered message row, the header above the first message, or the message row before a hovered spacer; a drop anywhere else cancels |
| MacroOptionList.MacroOptionList.DropDragged | common/src/main/java/dev/terminalmc/commandkeys/gui/widget/list/MacroOptionList.java:116-140 | after a drop the messages are the dragged message placed after the target, or unchanged when the drop is cancelled; the drag ends and the rows match the macro; the cycle index can change only when the drop moves something |
| MacroOptionList.MacroOptionList.MoveIndices | common/src/main/java/dev/terminalmc/commandkeys/gui/widget/list/MacroOptionList.java:131-134 | the source index is the dragged message's index, and the destination is the target's index with the correction applied |
| MacroOptionList.MacroOptionList.MoveDragged | common/src/main/java/dev/terminalmc/commandkeys/gui/widget/list/MacroOptionList.java:129-138 | the move leaves the dragged message right after the target, and the list is rebuilt |
| MacroOptionList.MacroOptionList.MessageIndexAt | common/src/main/java/dev/terminalmc/commandkeys/gui/widget/list/MacroOptionList.java:131-132 | at a message row, the slot minus the non-message rows up to it is the message's index; at the header it is -1 |
| MacroOptionList.MacroOptionList.AddMessageClicked | common/src/main/java/dev/terminalmc/commandkeys/gui/widget/list/MacroOptionList.java:68-73 | the "+" row appends one new empty message, keeps the others, rebuilds the list and applies the build-time cycle-index reset; no other field of the macro changes |
| MacroOptionList.MacroOptionList.DeleteClicked | common/src/main/java/dev/terminalmc/commandkeys/gui/widget/list/MacroOptionList.java:450-455 | the delete button removes exactly that message, rebuilds the list and applies the build-time cycle-index reset; no other field of the macro changes |
| MacroOptionList.MacroOptionList.StopClicked | common/src/main/java/dev/terminalmc/commandkeys/gui/widget/list/MacroOptionList.java:344-348 | the stop button ends the repeat and rebuilds the list, which then shows a delay field in REPEAT mode; the messages and rows stay, the cycle index gets the build-time reset, and no other field of the macro changes |
| MacroOptionList.MacroOptionList.CycleIndexSelected | common/src/main/java/dev/terminalmc/commandkeys/gui/widget/list/MacroOptionList.java:370 | the selected value becomes the cycle index, and a later rebuild keeps it |
| MacroOptionList.DelayValue | common/src/main/java/dev/terminalmc/commandkeys/gui/widget/list/MacroOptionList.java:317-319 | an accepted delay is a non-negative 32-bit int |
| MacroOptionList.DelayValueAccepts | common/src/main/java/dev/terminalmc/commandkeys/gui/widget/list/MacroOptionList.java:307-319 | within the 8-character limit, text is accepted exactly when, once stripped, it is an optionally signed run of digits with a non-negative value; that value is the delay |
| MacroOptionList.DelayValueRejectsBlank | common/src/main/java/dev/terminalmc/commandkeys/gui/widget/list/MacroOptionList.java:317-319 | blank text is rejected |
| MacroOptionList.DelayValueIgnoresPadding | common/src/main/java/dev/terminalmc/commandkeys/gui/widget/list/MacroOptionList.java:318 | whitespace around the number does not change the result |
| MacroOptionList.DelayValueRoundTrip | common/src/main/java/dev/terminalmc/commandkeys/gui/widget/list/MacroOptionList.java:333 | the text a field is filled with reads back as the same delay, and fits the 8-character limit for delays below 10^8 |
| MacroOptionList.ResizeDelayField | common/src/main/java/dev/terminalmc/commandkeys/gui/widget/list/MacroOptionList.java:310-315 | the field takes the larger of its minimum width and the text width, keeps its right edge, and its left neighbour absorbs the difference |
| MacroOptionList.MacroDelayResponder | common/src/main/java/dev/terminalmc/commandkeys/gui/widget/list/MacroOptionList.java:308-332 | rejected text leaves the delay unchanged and turns the field red; accepted text sets the delay; in SEND mode an edit that crosses zero rebuilds the list; otherwise the field turns white; the cycle index never changes |
| MacroOptionList.MessageDelayResponder | common/src/main/java/dev/terminalmc/commandkeys/gui/widget/list/MacroOptionList.java:424-441 | rejected text leaves the message's delay unchanged and turns the field red; accepted text sets the delay and turns the field white; the field is resized as above |
| MacroOptionList.MessageTextChanged | common/src/main/java/dev/terminalmc/commandkeys/gui/widget/list/MacroOptionList.java:411 | the stored text is the edited text minus its leading whitespace, and only whitespace is cut |
| MacroOptionList.ReorderScenarios | common/src/main/java/dev/terminalmc/commandkeys/gui/widget/list/MacroOptionList.java:116-140 | with four messages A, B, C, D: C dropped on A gives A, C, B, D; C dropped on the header gives C, A, B, D; C dropped on D's spacer gives A, B, D, C; dropping B on its own spacer or on the strategy row changes nothing |
| JavaText.IsWhitespace | common/src/main/java/dev/terminalmc/commandkeys/gui/widget/list/MacroOptionList.java:318 | `Character.isWhitespace`: the ASCII controls 9-13 and 28-31, the space, and the Unicode space, line and paragraph separators; space, tab and newline are whitespace, the three non-breaking spaces, the digits and the signs are not |
| JavaText.StripLeading | common/src/main/java/dev/terminalmc/commandkeys/gui/widget/list/MacroOptionList.java:411 | the result is no longer than the input and is empty or starts with a non-whitespace character |
| JavaText.StripLeadingCutsWhitespacePrefix | common/src/main/java/dev/terminalmc/commandkeys/gui/widget/list/MacroOptionList.java:411 | `stripLeading` returns a suffix of its input, and everything before that suffix is whitespace |
| JavaText.StripTrailing | common/src/main/java/dev/terminalmc/commandkeys/gui/widget/list/MacroOptionList.java:318 | the result is no longer than the input and is empty or ends with a non-whitespace character |
| JavaText.StripTrailingCutsWhitespaceSuffix | common/src/main/java/dev/terminalmc/commandkeys/gui/widget/list/MacroOptionList.java:318 | `stripTrailing` returns a prefix of its input, and everything after that prefix is whitespace |
| JavaText.Strip | common/src/main/java/dev/terminalmc/commandkeys/gui/widget/list/MacroOptionList.java:318 | the stripped text is empty or starts and ends with non-whitespace |
| JavaText.StripLeadingSkips | common/src/main/java/dev/terminalmc/commandkeys/gui/widget/list/MacroOptionList.java:411 | leading whitespace in front of text that starts with non-whitespace is removed exactly |
| JavaText.StripTrailingSkips | common/src/main/java/dev/terminalmc/commandkeys/gui/widget/list/MacroOptionList.java:318 | trailing whitespace after text that ends with non-whitespace is removed exactly |
| JavaText.StripPadded | common/src/main/java/dev/terminalmc/commandkeys/gui/widget/list/MacroOptionList.java:318 | stripping whitespace-padded text gives the text back |
| JavaText.ParseInt | common/src/main/java/dev/terminalmc/commandkeys/gui/widget/list/MacroOptionList.java:318 | `Integer.parseInt` succeeds exactly on an optional `+` or `-` followed by one or more ASCII digits whose value lies in the 32-bit int range, and then returns that value; empty text or a lone sign fails |
| JavaText.ShortTextNeverOverflows | common/src/main/java/dev/terminalmc/commandkeys/gui/widget/list/MacroOptionList.java:307-318 | on text of at most 8 characters, `parseInt` fails only on malformed text, never on overflow |
| JavaText.DecimalString | common/src/main/java/dev/terminalmc/commandkeys/gui/widget/list/MacroOptionList.java:333 | `String.valueOf` of a non-negative int is a non-empty run of digits with no leading zero |
| JavaText.DecimalStringValue | common/src/main/java/dev/terminalmc/commandkeys/gui/widget/list/MacroOptionList.java:333 | the digits of `String.valueOf(n)` have the value n |
| JavaText.DecimalStringLength | common/src/main/java/dev/terminalmc/commandkeys/gui/widget/list/MacroOptionList.java:333 | a number below 10^k has at most k digits |
| JavaText.ParseDecimalRoundTrip | common/src/main/java/dev/terminalmc/commandkeys/gui/widget/list/MacroOptionList.java:318-333 | `parseInt(String.valueOf(n)) == n` for every non-negative int |
| JavaText.DecimalStringIsStripped | common/src/main/java/dev/terminalmc/commandkeys/gui/widget/list/MacroOptionList.java:318-333 | stripping `String.valueOf(n)` leaves it unchanged |

## Left out

- Drawing, sprites, narration, localised labels and tooltip texts are not modelled. Only the tooltip settings a row applies are.
- Text measurement (`Font.width`) is an uninterpreted function parameter. The measured widths a text row needs, and the size of wrapped text, are plain parameters.
- The screen that owns the list is not modelled. `reload()` creating a new list object, `focusDelayField` after a rebuild, and the scroll amount are all left out. A rebuild is the rows being composed again in the same object.
- `OptionList.NewLayout`: the float expression `(int)(width / 5.0F * 4)` is a parameter, because floating point is not modelled.
- `MacroBindList` (the parent class) and `KeybindUtil` are not part of this model. Its constructor is assumed to add no rows of its own, so the binding row is slot 0. Keybind selection, the conflict labels and the alternate-keybind button's callback are left out.
- `Macro`, `Message` and `Profile` are not part of this model. A new `Message()` is assumed to have empty text and no delay. `addMessage`, `removeMessage`, `moveMessage` and `stopRepeating` are assumed to be the plain list operations and field update their names describe; `moveMessage` is assumed to remove and then insert.
- The strategy button and mode button callbacks (`profile.setConflictStrategy` and `profile.setSendMode`, then a rebuild), the HUD/history toggles and their `active` flags, and the binding row's ignore-ratelimit toggle all call or set code outside this model, so they are left out.
- The getters `getRowWidth` and `getScrollbarPosition` are modelled as fields and a function of the layout, and the abstract key and mouse handlers of `OptionList` are not modelled.
- `OptionList.Entry.MouseClicked` and `OptionList.Entry.MouseDragged` model the container behaviour of Minecraft's `ContainerEventHandler` in simplified form: the first widget that takes a click is focused, and a drag goes to the focused widget. Which widget accepts a click is reduced to a left click inside its box.
- `MacroOptionList.MacroOptionList.StartDrag` records the drag source but not the row's own `setDragging(true)`, because the macro rows are modelled by kind, not as row objects.
- The dragged row drawn under the cursor (`renderWidget`) and the list's `getEntryAtPosition` are left out. A drop is given the hovered slot, or -1 when no row is under the cursor.
- OptionList.SpaceEntry.FocusPathAtIndex: only the choice of child is modelled. The Java code also returns no path when that child's own `nextFocusPath` has none, which is Minecraft's widget code and not part of this model. A negative index is excluded; with one, the Java code would throw from `List.get`.
- MouseReleased (`MacroOptionList.MacroOptionList.MouseReleased`): a release that no drop consumes is handed to the base list's `mouseReleased`, whose result the model does not compute. It returns false there and leaves the list and the macro unchanged.
- `JavaText.ParseInt` accepts only the ASCII digits 0-9. `Integer.parseInt` also accepts other Unicode decimal digits, which this model does not cover.
- The `IllegalStateException`s of `messageListOffset` and `messageEntryOffset` are modelled as `Fail` results. Their callers are proved never to receive one.
- The message text box's 256-character limit and its wrapping (`MultiLineEditBox`) are not modelled. Only its listener is.
