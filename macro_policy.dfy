/** The pure decisions behind the macro editor's rows: which optional rows and
    controls appear for a macro's send mode and conflict strategy, how wide
    they are and where they sit, and which values the cycle-index selector
    offers. */
module MacroPolicy {
  import opened OptionList

  datatype SendMode = Send | Type | Random | Cycle | Repeat

  /** The editor only ever asks whether the strategy is AVOID; the other
      strategies behave alike here. */
  datatype ConflictStrategy = Avoid | OtherStrategy

  /** A profile-wide display toggle: on, off, or deferred to each macro. */
  datatype Control = On | Off | Defer

  datatype Profile = Profile(showHudMessage: Control, addToHistory: Control)

  /** Text measurement, left uninterpreted: the width in pixels of a string. */
  type Font = string -> nat

  /** The macro-level HUD/history row appears when the profile defers
      either toggle to the macro. */
  function ShowsHudHistoryRow(p: Profile): (shown: bool)
    ensures !shown <==> p.showHudMessage in {On, Off} && p.addToHistory in {On, Off}
  {
    p.showHudMessage == Defer || p.addToHistory == Defer
  }

  /** The right half of the binding row. */
  datatype BindRowControl = AltKeybindButton | IgnoreRatelimitToggle

  function BindRowSecondControl(mode: SendMode): (c: BindRowControl)
    ensures c == AltKeybindButton <==> mode == Cycle
  {
    if mode == Cycle then AltKeybindButton else IgnoreRatelimitToggle
  }

  /** The control after the send-mode button on the strategy-and-mode row. */
  datatype TrailingControl = DelayField | StopButton | CycleSelector | NoControl

  function TrailingControlFor(mode: SendMode, repeating: bool): (c: TrailingControl)
    ensures c == DelayField <==> mode == Send || (mode == Repeat && !repeating)
    ensures c == StopButton <==> mode == Repeat && repeating
    ensures c == CycleSelector <==> mode == Cycle
    ensures c == NoControl <==> mode == Type || mode == Random
  {
    if mode == Send || (mode == Repeat && !repeating) then DelayField
    else if mode == Repeat then StopButton
    else if mode == Cycle then CycleSelector
    else assert mode.Type? || mode.Random?; NoControl
  }

  /** Per-message delay fields are shown when the macro-level delay does not
      already time every message alike. */
  function ShowsMessageDelay(strategy: ConflictStrategy, mode: SendMode, spaceTicks: int): (shown: bool)
    ensures strategy == Avoid || mode == Repeat ==> shown
    ensures strategy != Avoid && mode in {Type, Random, Cycle} ==> !shown
    ensures strategy != Avoid && mode == Send ==> (shown <==> spaceTicks == 0)
  {
    strategy == Avoid || (mode == Send && spaceTicks == 0) || mode == Repeat
  }

  /** The condition on which the macro-level delay responder rebuilds the
      list instead of just recolouring its field. */
  function CrossesZero(oldTicks: int, newTicks: int): (crosses: bool)
    ensures crosses <==> (oldTicks == 0) != (newTicks == 0)
    ensures crosses ==> oldTicks != newTicks
  {
    (newTicks == 0 && oldTicks != 0) || (newTicks != 0 && oldTicks == 0)
  }

  /** In SEND mode, every edit of the macro-level delay that changes whether
      per-message delay fields are shown is one that triggers a rebuild; with
      any strategy but AVOID the two conditions coincide. */
  lemma SendDelayRebuildCoversVisibilityChange(strategy: ConflictStrategy, oldTicks: int, newTicks: int)
    ensures ShowsMessageDelay(strategy, Send, oldTicks) != ShowsMessageDelay(strategy, Send, newTicks)
            ==> CrossesZero(oldTicks, newTicks)
    ensures strategy != Avoid ==>
            (CrossesZero(oldTicks, newTicks)
             <==> ShowsMessageDelay(strategy, Send, oldTicks) != ShowsMessageDelay(strategy, Send, newTicks))
  {
  }

  function MacroDelayMinWidth(font: Font): int {
    font("0_") + 8
  }

  function StopButtonWidth(font: Font): int {
    font("Stop") + 8
  }

  function MessageDelayMinWidth(font: Font): int {
    font("0__") + 8
  }

  /** The width of each of the two half-row buttons of a full-width row. */
  function HalfButtonWidth(width: int): int {
    JavaHalf(width - SPACING)
  }

  /** The width a trailing control is built with. */
  function TrailingWidth(c: TrailingControl, minDelayWidth: int, stopWidth: int, smallButtonWidth: int): int {
    match c
    case DelayField => minDelayWidth
    case StopButton => stopWidth
    case CycleSelector => smallButtonWidth
    case NoControl => 0
  }

  /** `modeButtonWidth`: the send-mode button gives up exactly the width of
      the control that follows it. */
  function ModeButtonWidth(mode: SendMode, repeating: bool, buttonWidth: int,
                           minDelayWidth: int, stopWidth: int, smallButtonWidth: int): (w: int)
    ensures w + TrailingWidth(TrailingControlFor(mode, repeating), minDelayWidth, stopWidth, smallButtonWidth)
            == buttonWidth
  {
    match mode
    case Send => buttonWidth - minDelayWidth
    case Type | Random => buttonWidth
    case Cycle => buttonWidth - smallButtonWidth
    case Repeat => buttonWidth - (if repeating then stopWidth else minDelayWidth)
  }

  /** A widget's horizontal extent. */
  datatype Span = Span(x: int, width: int) {
    function Right(): int { x + width }
  }

  /** The two half-row buttons of the binding row and of the HUD/history
      row: one flush with each edge, at least one spacing apart. */
  function HalfRowSpans(x: int, width: int): (r: seq<Span>)
    ensures |r| == 2
    ensures r[0].x == x && r[1].Right() == x + width
    ensures r[0].width == r[1].width
    ensures width >= SPACING ==> r[0].Right() + SPACING <= r[1].x <= r[0].Right() + SPACING + 1
  {
    var bw := HalfButtonWidth(width);
    [Span(x, bw), Span(x + width - bw, bw)]
  }

  /** The boxes of the strategy-and-mode row, left to right: the strategy
      button, the send-mode button and the trailing control, if any. */
  function StrategyRowSpans(x: int, width: int, mode: SendMode, repeating: bool,
                            minDelayWidth: int, stopWidth: int, smallButtonWidth: int): (r: seq<Span>)
    ensures var bw := HalfButtonWidth(width);
            && |r| == (if TrailingControlFor(mode, repeating) == NoControl then 2 else 3)
            && r[0] == Span(x, bw)
            && r[1].x == x + width - bw
            && r[|r| - 1].Right() == x + width
            && (|r| == 3 ==> r[1].Right() == r[2].x)
            && (width >= SPACING ==> r[0].Right() + SPACING <= r[1].x)
  {
    var bw := HalfButtonWidth(width);
    var modeWidth := ModeButtonWidth(mode, repeating, bw, minDelayWidth, stopWidth, smallButtonWidth);
    var control := TrailingControlFor(mode, repeating);
    var head := [Span(x, bw), Span(x + width - bw, modeWidth)];
    if control == NoControl then head
    else
      var cw := TrailingWidth(control, minDelayWidth, stopWidth, smallButtonWidth);
      head + [Span(x + width - cw, cw)]
  }

  /** The message text box takes whatever the row leaves once the two small
      buttons, the delay field when shown, and the gaps are placed. */
  function MessageFieldWidth(width: int, smallButtonWidth: int, showDelay: bool, minDelayWidth: int): (w: int)
    ensures 2 * smallButtonWidth + w + (if showDelay then minDelayWidth else 0)
            + SPACING * (if showDelay then 3 else 2) == width
  {
    width - smallButtonWidth * 2 - SPACING * 2 - (if showDelay then minDelayWidth + SPACING else 0)
  }

  /** The boxes of a message row, left to right: the drag handle, the
      message text, the delay field when shown, and the delete button. They
      tile the row with exactly one spacing between neighbours. */
  function MessageRowSpans(x: int, width: int, smallButtonWidth: int,
                           showDelay: bool, minDelayWidth: int): (r: seq<Span>)
    ensures |r| == (if showDelay then 4 else 3)
    ensures r[0] == Span(x, smallButtonWidth)
    ensures r[|r| - 1] == Span(x + width - smallButtonWidth, smallButtonWidth)
    ensures forall k :: 0 < k < |r| ==> r[k - 1].Right() + SPACING == r[k].x
    ensures showDelay ==> r[2].width == minDelayWidth
  {
    var msgWidth := MessageFieldWidth(width, smallButtonWidth, showDelay, minDelayWidth);
    var drag := Span(x, smallButtonWidth);
    var message := Span(x + smallButtonWidth + SPACING, msgWidth);
    var delete := Span(x + width - smallButtonWidth, smallButtonWidth);
    if showDelay then
      [drag, message, Span(x + smallButtonWidth + msgWidth + SPACING * 2, minDelayWidth), delete]
    else
      [drag, message, delete]
  }

  /** The last value the cycle-index selector offers. */
  function LastCycleValue(n: nat): nat {
    if n == 0 then 0 else n - 1
  }

  /** The values of the cycle-index selector: one per message, or just 0
      when there are none. */
  method CycleSelectorValues(n: nat) returns (values: seq<int>)
    ensures |values| == (if n == 0 then 1 else n)
    ensures forall k :: 0 <= k < |values| ==> values[k] == k
    ensures values[|values| - 1] == LastCycleValue(n)
  {
    values := [];
    var i := 0;
    while i < n
      invariant 0 <= i <= n
      invariant |values| == i
      invariant forall k :: 0 <= k < i ==> values[k] == k
    {
      values := values + [i];
      i := i + 1;
    }
    if values == [] {
      values := values + [0];
    }
  }

  /** The cycle index after the selector is built: an index past the last
      value goes back to 0; anything else, negative values included, is
      kept. */
  function ClampedCycleIndex(cycleIndex: int, n: nat): (r: int)
    ensures r <= LastCycleValue(n)
    ensures r == cycleIndex || r == 0
    ensures cycleIndex < 0 ==> r == cycleIndex
    ensures 0 <= cycleIndex ==> 0 <= r < (if n == 0 then 1 else n)
  {
    if cycleIndex > LastCycleValue(n) then 0 else cycleIndex
  }

  /** Rebuilding again with the same messages changes nothing further. */
  lemma ClampedCycleIndexIdempotent(cycleIndex: int, n: nat)
    ensures ClampedCycleIndex(ClampedCycleIndex(cycleIndex, n), n) == ClampedCycleIndex(cycleIndex, n)
  {
  }
}
