/** The base option list: the layout values every list fixes when it is built,
    the row (`Entry`) that holds widgets side by side at one height, and the
    invisible spacer row (`SpaceEntry`) that forwards everything to the row it
    extends, so that one row can span two fixed-height slots. */
module OptionList {
  import opened Results

  const ROW_WIDTH_MARGIN: int := 20
  const SPACING: int := 4
  const MIN_SMALL_BUTTON_WIDTH: int := 16
  /** The only mouse button that widgets take clicks and drags from. */
  const MOUSE_BUTTON_LEFT: int := 0

  function Max(a: int, b: int): (m: int)
    ensures m >= a && m >= b
    ensures m == a || m == b
  {
    if a >= b then a else b
  }

  function Min(a: int, b: int): (m: int)
    ensures m <= a && m <= b
    ensures m == a || m == b
  {
    if a <= b then a else b
  }

  /** Java's `a / 2` on `int`, which rounds toward zero. */
  function JavaHalf(a: int): (h: int)
    ensures a >= 0 ==> 0 <= a - 2 * h <= 1
    ensures a < 0 ==> -1 <= a - 2 * h <= 0
  {
    if a >= 0 then a / 2 else -((-a) / 2)
  }

  /** The positional values a list computes once, in its constructor. */
  datatype Layout = Layout(
    width: int,
    rowWidth: int,
    entryWidth: int,
    dynEntryWidth: int,
    entryHeight: int,
    entryX: int,
    dynEntryX: int,
    smallButtonWidth: int)

  /** The constructor's layout arithmetic. `scaledWidth` is the value of
      `(int)(width / 5.0F * 4)`, taken as given. */
  function NewLayout(width: int, entryWidth: int, scaledWidth: int, entryHeight: int): (l: Layout)
    ensures l.width == width && l.entryWidth == entryWidth && l.entryHeight == entryHeight
    ensures l.dynEntryWidth >= entryWidth && l.dynEntryWidth >= scaledWidth
    ensures l.dynEntryWidth == entryWidth || l.dynEntryWidth == scaledWidth
    ensures l.rowWidth >= entryWidth + ROW_WIDTH_MARGIN
    ensures l.rowWidth >= l.dynEntryWidth + ROW_WIDTH_MARGIN
    ensures l.rowWidth == l.dynEntryWidth + ROW_WIDTH_MARGIN
    ensures l.smallButtonWidth >= MIN_SMALL_BUTTON_WIDTH && l.smallButtonWidth >= entryHeight
    ensures l.smallButtonWidth == MIN_SMALL_BUTTON_WIDTH || l.smallButtonWidth == entryHeight
  {
    var dynEntryWidth := Max(entryWidth, scaledWidth);
    Layout(
      width,
      Max(entryWidth, dynEntryWidth) + ROW_WIDTH_MARGIN,
      entryWidth,
      dynEntryWidth,
      entryHeight,
      JavaHalf(width) - JavaHalf(entryWidth),
      JavaHalf(width) - JavaHalf(dynEntryWidth),
      Max(MIN_SMALL_BUTTON_WIDTH, entryHeight))
  }

  /** `getScrollbarPosition`. */
  function ScrollbarPosition(l: Layout): (x: int)
    ensures l.width >= 0 && l.rowWidth >= 0 ==> 2 * x <= l.width + l.rowWidth <= 2 * x + 2
  {
    JavaHalf(l.width) + JavaHalf(l.rowWidth)
  }

  /** Both kinds of row are centred: for non-negative widths, the space left
      of a row and the space right of it differ by at most one pixel. */
  lemma EntriesCentred(width: int, entryWidth: int, scaledWidth: int, entryHeight: int)
    requires width >= 0 && entryWidth >= 0
    ensures var l := NewLayout(width, entryWidth, scaledWidth, entryHeight);
            && -1 <= (width - (l.entryX + l.entryWidth)) - l.entryX <= 1
            && -1 <= (width - (l.dynEntryX + l.dynEntryWidth)) - l.dynEntryX <= 1
  {
  }

  /** The scrollbar sits to the right of both kinds of row, with at least
      nine pixels to spare. */
  lemma ScrollbarClearsRows(width: int, entryWidth: int, scaledWidth: int, entryHeight: int)
    requires width >= 0 && entryWidth >= 0
    ensures var l := NewLayout(width, entryWidth, scaledWidth, entryHeight);
            && ScrollbarPosition(l) >= l.entryX + l.entryWidth + 9
            && ScrollbarPosition(l) >= l.dynEntryX + l.dynEntryWidth + 9
  {
  }

  /** A widget as this model sees it: its box, its text colour (for edit
      boxes) and the tooltip settings a row applies to it. */
  class Widget {
    var x: int
    var y: int
    var width: int
    var height: int
    var textColor: int
    var tooltip: Option<string>
    var tooltipDelay: Option<int>
    var multiLine: bool
    /** The width a wrapping text widget wraps at, if any. */
    var maxWidth: Option<int>

    constructor (x: int, width: int, height: int)
      ensures this.x == x && y == 0 && this.width == width && this.height == height
      ensures tooltip.None? && tooltipDelay.None? && !multiLine && maxWidth.None?
    {
      this.x := x;
      this.y := 0;
      this.width := width;
      this.height := height;
      this.textColor := 0;
      this.tooltip := None;
      this.tooltipDelay := None;
      this.multiLine := false;
      this.maxWidth := None;
    }

    /** Whether a click at (mx, my) with the given button lands on this
        widget: left button, inside its box. */
    predicate Accepts(mx: real, my: real, button: int)
      reads this
    {
      && button == MOUSE_BUTTON_LEFT
      && x as real <= mx < (x + width) as real
      && y as real <= my < (y + height) as real
    }
  }

  /** The first element, from `from` on, that takes a click. */
  function FirstAccepting(elements: seq<Widget>, from: nat, mx: real, my: real, button: int): (r: Option<nat>)
    requires from <= |elements|
    reads elements
    decreases |elements| - from
    ensures r.Some? ==> from <= r.value < |elements| && elements[r.value].Accepts(mx, my, button)
    ensures r.Some? ==> forall k :: from <= k < r.value ==> !elements[k].Accepts(mx, my, button)
    ensures r.None? ==> forall k :: from <= k < |elements| ==> !elements[k].Accepts(mx, my, button)
  {
    if from == |elements| then None
    else if elements[from].Accepts(mx, my, button) then Some(from)
    else FirstAccepting(elements, from + 1, mx, my, button)
  }

  /** A row of the list: widgets laid out side by side and drawn at one
      height, plus the container state (drag flag, focused child) that the
      list's event dispatch uses. */
  class Entry {
    var elements: seq<Widget>
    var dragging: bool
    var focused: Widget?

    constructor ()
      ensures elements == [] && !dragging && focused == null
    {
      elements := [];
      dragging := false;
      focused := null;
    }

    /** `TextEntry`: one text widget, single-line when the text fits the
        row's width and wrapped at that width otherwise. `textWidth` is the
        text's measured width; `wrappedWidth` and `wrappedHeight` are the
        measured size of the text once wrapped. */
    constructor Text(x: int, width: int, height: int, textWidth: int,
                     wrappedWidth: int, wrappedHeight: int,
                     tooltip: Option<string>, tooltipDelay: int)
      ensures |elements| == 1 && fresh(elements[0])
      ensures elements[0].x == x
      ensures elements[0].multiLine <==> textWidth > width
      ensures !elements[0].multiLine ==>
                elements[0].width == width && elements[0].height == height && elements[0].maxWidth.None?
      ensures elements[0].multiLine ==>
                && elements[0].width == wrappedWidth && elements[0].height == wrappedHeight
                && elements[0].maxWidth == Some(width)
      ensures elements[0].tooltip == tooltip
      ensures elements[0].tooltipDelay == (if tooltipDelay >= 0 then Some(tooltipDelay) else None)
      ensures !dragging && focused == null
    {
      var widget;
      if textWidth <= width {
        widget := new Widget(x, width, height);
      } else {
        widget := new Widget(x, wrappedWidth, wrappedHeight);
        widget.multiLine := true;
        widget.maxWidth := Some(width);
      }
      if tooltip.Some? {
        widget.tooltip := tooltip;
      }
      if tooltipDelay >= 0 {
        widget.tooltipDelay := Some(tooltipDelay);
      }
      elements := [widget];
      dragging := false;
      focused := null;
    }

    /** `ActionButtonEntry`: one button spanning the row. */
    constructor ActionButton(x: int, width: int, height: int,
                             tooltip: Option<string>, tooltipDelay: int)
      ensures |elements| == 1 && fresh(elements[0])
      ensures elements[0].x == x && elements[0].width == width && elements[0].height == height
      ensures elements[0].tooltip == tooltip
      ensures elements[0].tooltipDelay == (if tooltipDelay >= 0 then Some(tooltipDelay) else None)
      ensures !dragging && focused == null
    {
      var button := new Widget(x, width, height);
      if tooltip.Some? {
        button.tooltip := tooltip;
      }
      if tooltipDelay >= 0 {
        button.tooltipDelay := Some(tooltipDelay);
      }
      elements := [button];
      dragging := false;
      focused := null;
    }

    /** `render`: every element is moved to the row's height; nothing else
        about them changes. */
    method Render(y: int)
      modifies elements
      ensures forall w :: w in elements ==> w.y == y
      ensures forall w :: w in elements ==>
        && w.x == old(w.x) && w.width == old(w.width) && w.height == old(w.height)
        && w.textColor == old(w.textColor) && w.tooltip == old(w.tooltip)
        && w.tooltipDelay == old(w.tooltipDelay) && w.multiLine == old(w.multiLine)
        && w.maxWidth == old(w.maxWidth)
    {
      for k := 0 to |elements|
        invariant forall j :: 0 <= j < k ==> elements[j].y == y
        invariant forall w :: w in elements ==>
          && w.x == old(w.x) && w.width == old(w.width) && w.height == old(w.height)
          && w.textColor == old(w.textColor) && w.tooltip == old(w.tooltip)
          && w.tooltipDelay == old(w.tooltipDelay) && w.multiLine == old(w.multiLine)
          && w.maxWidth == old(w.maxWidth)
      {
        elements[k].y := y;
      }
    }

    function IsDragging(): bool
      reads this
    {
      dragging
    }

    method SetDragging(d: bool)
      modifies this`dragging
      ensures dragging == d
    {
      dragging := d;
    }

    function GetFocused(): Widget?
      reads this
    {
      focused
    }

    method SetFocused(w: Widget?)
      modifies this`focused
      ensures focused == w
    {
      focused := w;
    }

    /** Container click dispatch: the first element that takes the click
        becomes the focused one, and a left click starts a drag. */
    method MouseClicked(mx: real, my: real, button: int) returns (handled: bool)
      modifies this`focused, this`dragging
      ensures var hit := FirstAccepting(elements, 0, mx, my, button);
              && handled == hit.Some?
              && focused == (if hit.Some? then elements[hit.value] else old(focused))
              && dragging == (old(dragging) || (hit.Some? && button == MOUSE_BUTTON_LEFT))
    {
      var k := 0;
      while k < |elements|
        invariant 0 <= k <= |elements|
        invariant FirstAccepting(elements, 0, mx, my, button) == FirstAccepting(elements, k, mx, my, button)
      {
        if elements[k].Accepts(mx, my, button) {
          focused := elements[k];
          if button == MOUSE_BUTTON_LEFT {
            dragging := true;
          }
          return true;
        }
        k := k + 1;
      }
      return false;
    }

    /** Container drag dispatch: a left-button drag goes to the focused
        element while the row is dragging. */
    method MouseDragged(mx: real, my: real, button: int, dx: real, dy: real) returns (handled: bool)
      ensures handled <==> focused != null && dragging && button == MOUSE_BUTTON_LEFT
    {
      handled := focused != null && dragging && button == MOUSE_BUTTON_LEFT;
    }
  }

  /** The invisible row that lets its owner span a second slot: every query
      and every event goes to the owner. */
  class SpaceEntry {
    const owner: Entry

    constructor (owner: Entry)
      ensures this.owner == owner
    {
      this.owner := owner;
    }

    function IsDragging(): (d: bool)
      reads owner
      ensures d == owner.dragging
    {
      owner.IsDragging()
    }

    method SetDragging(d: bool)
      modifies owner`dragging
      ensures owner.dragging == d && IsDragging() == d
    {
      owner.SetDragging(d);
    }

    method MouseClicked(mx: real, my: real, button: int) returns (handled: bool)
      modifies owner`focused, owner`dragging
      ensures var hit := FirstAccepting(owner.elements, 0, mx, my, button);
              && handled == hit.Some?
              && owner.focused == (if hit.Some? then owner.elements[hit.value] else old(owner.focused))
              && owner.dragging == (old(owner.dragging) || (hit.Some? && button == MOUSE_BUTTON_LEFT))
    {
      handled := owner.MouseClicked(mx, my, button);
    }

    method MouseDragged(mx: real, my: real, button: int, dx: real, dy: real) returns (handled: bool)
      ensures handled <==> owner.focused != null && owner.dragging && button == MOUSE_BUTTON_LEFT
    {
      handled := owner.MouseDragged(mx, my, button, dx, dy);
    }

    method SetFocused(w: Widget?)
      modifies owner`focused
      ensures owner.focused == w && GetFocused() == w
    {
      owner.SetFocused(w);
    }

    function GetFocused(): (w: Widget?)
      reads owner
      ensures w == owner.focused
    {
      owner.GetFocused()
    }

    /** `focusPathAtIndex`: no path into an owner without children;
        otherwise the path goes through child `i`, or the last child when `i`
        is past the end. */
    function FocusPathAtIndex(i: int): (r: Option<nat>)
      requires i >= 0
      reads owner
      ensures r.None? <==> owner.elements == []
      ensures r.Some? ==> r.value < |owner.elements|
      ensures r.Some? && i < |owner.elements| ==> r.value == i
      ensures r.Some? && i >= |owner.elements| ==> r.value == |owner.elements| - 1
    {
      if owner.elements == [] then None
      else Some(Min(i, |owner.elements| - 1))
    }
  }
}
