/** The slot sequence of the macro editor and the arithmetic that maps slots
    to message indices. Each row of the list is stood for by its kind; a
    message row is followed by a spacer row that lets it span two slots, so
    slot numbers and message indices differ, and a drag-and-drop has to
    translate between them. */
module MacroRows {
  import opened Results

  datatype RowKind =
    | Bind
    | HudHistory
    | StrategyMode
    | Header
    | Message(index: nat)
    | Spacer(owner: nat)
    | AddAction

  /** The slot of the first message row: after the binding row, the optional
      HUD/history row, the strategy-and-mode row and the header. */
  function FirstMessageSlot(hud: bool): nat {
    if hud then 4 else 3
  }

  function StructuralRows(hud: bool): seq<RowKind> {
    [Bind] + (if hud then [HudHistory] else []) + [StrategyMode, Header]
  }

  /** The rows of the first `n` messages when the first one sits at slot `m`:
      each message row followed by a spacer naming it as owner. */
  function MessageBlock(m: nat, n: nat): (b: seq<RowKind>)
    ensures |b| == 2 * n
  {
    if n == 0 then [] else MessageBlock(m, n - 1) + [Message(n - 1), Spacer(m + 2 * (n - 1))]
  }

  /** The rows the list is built with, for a macro with `n` messages; `hud`
      says whether the profile defers one of its toggles to the macro. */
  function Compose(hud: bool, n: nat): (r: seq<RowKind>)
    ensures |r| == FirstMessageSlot(hud) + 2 * n + 1
  {
    StructuralRows(hud) + MessageBlock(FirstMessageSlot(hud), n) + [AddAction]
  }

  /** The row at slot `k`, in closed form. */
  function RowAt(hud: bool, n: nat, k: nat): RowKind {
    var m := FirstMessageSlot(hud);
    if k == 0 then Bind
    else if k < m - 2 then HudHistory
    else if k == m - 2 then StrategyMode
    else if k == m - 1 then Header
    else if k < m + 2 * n then (if (k - m) % 2 == 0 then Message((k - m) / 2) else Spacer(k - 1))
    else AddAction
  }

  lemma {:induction false} MessageBlockAt(m: nat, n: nat)
    ensures |MessageBlock(m, n)| == 2 * n
    ensures forall j :: 0 <= j < 2 * n ==>
      MessageBlock(m, n)[j] == (if j % 2 == 0 then Message(j / 2) else Spacer(m + j - 1))
  {
    if n > 0 {
      MessageBlockAt(m, n - 1);
      var b := MessageBlock(m, n);
      forall j | 0 <= j < 2 * n
        ensures b[j] == (if j % 2 == 0 then Message(j / 2) else Spacer(m + j - 1))
      {
        if j >= 2 * (n - 1) {
          assert j == 2 * n - 2 || j == 2 * n - 1;
        }
      }
    }
  }

  /** Every slot of the composed list holds the row the closed form names. */
  lemma ComposeAt(hud: bool, n: nat)
    ensures |Compose(hud, n)| == FirstMessageSlot(hud) + 2 * n + 1
    ensures forall k :: 0 <= k < |Compose(hud, n)| ==> Compose(hud, n)[k] == RowAt(hud, n, k)
  {
    var m := FirstMessageSlot(hud);
    MessageBlockAt(m, n);
    var r := Compose(hud, n);
    var b := MessageBlock(m, n);
    forall k | 0 <= k < |r|
      ensures r[k] == RowAt(hud, n, k)
    {
      if m <= k < m + 2 * n {
        assert r[k] == b[k - m];
      }
    }
  }

  /** One slot of the composed list, in closed form. */
  lemma ComposeSlot(hud: bool, n: nat, k: nat)
    requires k < FirstMessageSlot(hud) + 2 * n + 1
    ensures Compose(hud, n)[k] == RowAt(hud, n, k)
  {
    ComposeAt(hud, n);
  }

  /** The row order: binding row; HUD/history row only when deferred; the
      strategy-and-mode row; the header; each message row followed by its
      spacer; the add-message row last. */
  lemma ComposeOrder(hud: bool, n: nat)
    ensures var r := Compose(hud, n); var m := FirstMessageSlot(hud);
            && |r| == 4 + (if hud then 1 else 0) + 2 * n
            && r[0] == Bind
            && (hud <==> HudHistory in r)
            && r[m - 2] == StrategyMode
            && r[m - 1] == Header
            && r[|r| - 1] == AddAction
            && (forall k :: 0 <= k < |r| && (r[k].Message? || r[k].Spacer?) ==> m <= k < |r| - 1)
  {
    ComposeAt(hud, n);
    var r := Compose(hud, n);
    if hud {
      assert r[1] == HudHistory;
    } else {
      forall k | 0 <= k < |r| ensures r[k] != HudHistory {
        assert r[k] == RowAt(hud, n, k);
      }
    }
  }

  /** Message `i` sits at slot `m + 2i` and its spacer, owned by that slot,
      right after it. */
  lemma MessageSlots(hud: bool, n: nat, i: nat)
    requires i < n
    ensures var r := Compose(hud, n); var m := FirstMessageSlot(hud);
            && m + 2 * i + 1 < |r|
            && r[m + 2 * i] == Message(i)
            && r[m + 2 * i + 1] == Spacer(m + 2 * i)
  {
    ComposeAt(hud, n);
    var m := FirstMessageSlot(hud);
    assert RowAt(hud, n, m + 2 * i) == Message(i);
    assert RowAt(hud, n, m + 2 * i + 1) == Spacer(m + 2 * i);
  }

  /** Every spacer directly follows the message row it forwards to. */
  predicate SpacersFollowOwners(rows: seq<RowKind>) {
    forall k :: 0 <= k < |rows| && rows[k].Spacer? ==>
      0 < k && rows[k].owner == k - 1 && rows[k - 1].Message?
  }

  lemma ComposedSpacersFollowOwners(hud: bool, n: nat)
    ensures SpacersFollowOwners(Compose(hud, n))
  {
    ComposeAt(hud, n);
    var r := Compose(hud, n);
    var m := FirstMessageSlot(hud);
    forall k | 0 <= k < |r| && r[k].Spacer?
      ensures 0 < k && r[k].owner == k - 1 && r[k - 1].Message?
    {
      assert r[k] == RowAt(hud, n, k);
      assert r[k - 1] == RowAt(hud, n, k - 1);
    }
  }

  /** How many rows of `rows` are not message rows. */
  function NonMessageCount(rows: seq<RowKind>): nat {
    if rows == [] then 0
    else NonMessageCount(rows[..|rows| - 1]) + (if rows[|rows| - 1].Message? then 0 else 1)
  }

  lemma {:induction false} NonMessageCountOfPrefix(hud: bool, n: nat, k: nat)
    requires k <= FirstMessageSlot(hud) + 2 * n
    ensures var m := FirstMessageSlot(hud);
            NonMessageCount(Compose(hud, n)[..k]) == if k <= m then k else m + (k - m) / 2
  {
    if k > 0 {
      NonMessageCountOfPrefix(hud, n, k - 1);
      var r := Compose(hud, n);
      ComposeSlot(hud, n, k - 1);
      assert r[..k][..k - 1] == r[..k - 1];
    }
  }

  /** The slot-to-index mapping: subtracting from a message row's slot the
      number of non-message rows up to and including it gives the message's
      index; for the header row just above the first message it gives -1. */
  lemma SlotToMessageIndex(hud: bool, n: nat, i: nat)
    requires i < n
    ensures var r := Compose(hud, n); var m := FirstMessageSlot(hud);
            && (m + 2 * i) - NonMessageCount(r[..m + 2 * i + 1]) == i
            && (m - 1) - NonMessageCount(r[..m]) == -1
  {
    NonMessageCountOfPrefix(hud, n, FirstMessageSlot(hud) + 2 * i + 1);
    NonMessageCountOfPrefix(hud, n, FirstMessageSlot(hud));
  }

  function RemoveAt<T>(s: seq<T>, i: nat): seq<T>
    requires i < |s|
  {
    s[..i] + s[i + 1..]
  }

  function InsertAt<T>(s: seq<T>, i: nat, x: T): seq<T>
    requires i <= |s|
  {
    s[..i] + [x] + s[i..]
  }

  /** `Macro.moveMessage`, taken to remove the message at `from` and insert
      it at `to` in what remains. */
  function Move<T>(s: seq<T>, from: nat, to: nat): (r: seq<T>)
    requires from < |s| && to < |s|
    ensures |r| == |s| && r[to] == s[from]
  {
    InsertAt(RemoveAt(s, from), to, s[from])
  }

  /** What a drop is meant to do: the message at `from` ends up right after
      the message that was at `after`, or first when `after` is -1; the
      others keep their order. */
  function PlaceAfter<T>(s: seq<T>, from: nat, after: int): (r: seq<T>)
    requires from < |s| && -1 <= after < |s|
    ensures |r| == |s|
  {
    if after == from then s
    else if after < from then s[..after + 1] + [s[from]] + s[after + 1..from] + s[from + 1..]
    else s[..from] + s[from + 1..after + 1] + [s[from]] + s[after + 1..]
  }

  /** The list's correction of the destination index: one more when the
      message moves toward the front. */
  function CorrectedDestination(from: int, after: int): (to: int)
    ensures to == after || to == after + 1
    ensures 0 <= from && -1 <= after ==> 0 <= to && (to <= from || to == after)
  {
    if from > after then after + 1 else after
  }

  /** With the correction, remove-then-insert puts the dragged message right
      after the hovered one: the `+1` is exactly what is needed. */
  lemma MoveWithCorrectionPlacesAfter<T>(s: seq<T>, from: nat, after: int)
    requires from < |s| && -1 <= after < |s|
    ensures 0 <= CorrectedDestination(from, after) < |s|
    ensures Move(s, from, CorrectedDestination(from, after)) == PlaceAfter(s, from, after)
  {
    var rest := RemoveAt(s, from);
    var to := CorrectedDestination(from, after);
    if after == from {
      assert rest[..to] == s[..from];
      assert rest[to..] == s[from + 1..];
      assert s == s[..from] + [s[from]] + s[from + 1..];
    } else if after < from {
      assert rest[..to] == s[..after + 1];
      assert rest[to..] == s[after + 1..from] + s[from + 1..];
    } else {
      assert rest[..to] == s[..from] + s[from + 1..after + 1];
      assert rest[to..] == s[after + 1..];
    }
  }

  /** Without the correction, a message moved toward the front lands just
      before the hovered message instead of after it. */
  lemma UncorrectedMoveLandsBefore<T>(s: seq<T>, from: nat, after: nat)
    requires after < from < |s|
    ensures Move(s, from, after)[after] == s[from]
    ensures Move(s, from, after)[after + 1] == s[after]
  {
    assert RemoveAt(s, from)[after] == s[after];
  }

  /** A drop only reorders: same length, same messages. */
  lemma PlaceAfterIsPermutation<T>(s: seq<T>, from: nat, after: int)
    requires from < |s| && -1 <= after < |s|
    ensures |PlaceAfter(s, from, after)| == |s|
    ensures multiset(PlaceAfter(s, from, after)) == multiset(s)
  {
    if after < from {
      var front, middle, back := s[..after + 1], s[after + 1..from], s[from + 1..];
      assert s == front + middle + [s[from]] + back;
      assert PlaceAfter(s, from, after) == front + [s[from]] + middle + back;
    } else if after > from {
      var front, middle, back := s[..from], s[from + 1..after + 1], s[after + 1..];
      assert s == front + [s[from]] + middle + back;
      assert PlaceAfter(s, from, after) == front + middle + [s[from]] + back;
    }
  }

  /** Where the dragged message ends up: at the corrected destination, right
      after the hovered message, with the other messages in their old
      order. */
  lemma PlaceAfterPlacement<T>(s: seq<T>, from: nat, after: int)
    requires from < |s| && -1 <= after < |s|
    ensures var r := PlaceAfter(s, from, after); var p := CorrectedDestination(from, after);
            && |r| == |s| && 0 <= p < |r|
            && r[p] == s[from]
            && (0 <= after != from ==> r[p - 1] == s[after])
            && RemoveAt(r, p) == RemoveAt(s, from)
  {
    var r := PlaceAfter(s, from, after);
    var p := CorrectedDestination(from, after);
    if after < from {
      assert r[..p] == s[..after + 1];
      assert r[p + 1..] == s[after + 1..from] + s[from + 1..];
    } else if after > from {
      assert r[..p] == s[..from] + s[from + 1..after + 1];
      assert r[p + 1..] == s[after + 1..];
    }
  }

  /** Dropping a message after itself, after the message just before it, or
      at the front when it is already first, changes nothing. */
  lemma PlaceAfterNoOp<T>(s: seq<T>, from: nat, after: int)
    requires from < |s| && -1 <= after < |s|
    requires after == from || after == from - 1
    ensures PlaceAfter(s, from, after) == s
  {
    if after == from - 1 {
      assert s == s[..from] + [s[from]] + s[from + 1..];
    }
  }

  /** Which message a drop on slot `hovered` places the dragged one after:
      a message row or its spacer names that message, the header just above
      the first message names the front (-1), and any other slot cancels. */
  function DropIntent(hud: bool, n: nat, hovered: int): (r: Option<int>)
    ensures r.Some? ==> -1 <= r.value < n
  {
    var m := FirstMessageSlot(hud);
    if m <= hovered < m + 2 * n then Some((hovered - m) / 2)
    else if hovered == m - 1 then Some(-1)
    else None
  }

  /** Whether a drop onto the row of message `target` (-1: the header)
      moves anything and rebuilds the list: it does unless the dragged
      message is dropped on itself or, when first, on the header. */
  function DropRebuilds(from: int, target: int): (rebuilds: bool)
    ensures !rebuilds ==> target == from || target == from - 1
  {
    target != from && !(target == -1 && from == 0)
  }

  /** The slot of the row a drop on message `target` refers to: the
      message's own row, or the header for -1. */
  function TargetSlot(hud: bool, target: int): int {
    if target == -1 then FirstMessageSlot(hud) - 1 else FirstMessageSlot(hud) + 2 * target
  }

  /** The list's move check compares slots: it moves when the target row
      lies after the dragged row or more than one slot before it. That is
      the same as `DropRebuilds` on message indices, so the drops it skips
      are a drop on the dragged message itself and, for the first message,
      a drop on the header; a drop on the message just before the dragged
      one passes the check. */
  lemma DropRebuildsMatchesSlotFilter(hud: bool, from: nat, target: int)
    requires -1 <= target
    ensures var source := FirstMessageSlot(hud) + 2 * from; var hovered := TargetSlot(hud, target);
            DropRebuilds(from, target) <==> (hovered > source || hovered < source - 1)
    ensures from > 0 ==> DropRebuilds(from, from - 1)
  {
  }

  /** The messages after a drop, as intended. */
  function DropResult<T>(s: seq<T>, from: nat, intent: Option<int>): seq<T>
    requires from < |s|
    requires intent.Some? ==> -1 <= intent.value < |s|
  {
    if intent.None? then s else PlaceAfter(s, from, intent.value)
  }
}
