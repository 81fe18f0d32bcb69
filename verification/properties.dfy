/** What the bottom modal's handlers promise, stated against independent reference
    definitions and over whole event sequences. */
module BottomModalProperties {
  import opened Wrappers
  import opened Animation
  import opened BottomModal

  // ---------------------------------------------------------------------------
  // Drag moves
  // ---------------------------------------------------------------------------

  /** A move is a single immediate command that never lifts the panel more than
      the overshoot cap above its rest offset, and never above the finger. */
  lemma MoveStaysBelowCap(m: Modal, dy: int)
    ensures |OnPanMove(m, dy).issued| == 1
    ensures OnPanMove(m, dy).issued[0].duration == 0
    ensures OnPanMove(m, dy).issued[0].target >= -m.heightContent - OvershootCap
    ensures OnPanMove(m, dy).issued[0].target >= -m.heightContent + dy
  {
  }

  /** Above the cap the panel follows the finger one to one: two moves differ by
      exactly the difference of their deltas. */
  lemma MoveFollowsFinger(m: Modal, dy1: int, dy2: int)
    requires dy1 >= -OvershootCap && dy2 >= -OvershootCap
    ensures OnPanMove(m, dy2).issued[0].target - OnPanMove(m, dy1).issued[0].target == dy2 - dy1
    ensures OnPanMove(m, dy1).issued[0].target == -m.heightContent + dy1
  {
  }

  /** Past the cap the target no longer depends on the delta. */
  lemma MoveCapIgnoresDelta(m: Modal, dy1: int, dy2: int)
    requires dy1 < -OvershootCap && dy2 < -OvershootCap
    ensures OnPanMove(m, dy1).issued == OnPanMove(m, dy2).issued
    ensures OnPanMove(m, dy1).issued[0].target == -m.heightContent - OvershootCap
  {
  }

  /** Dragging further down never moves the target up. */
  lemma MoveMonotone(m: Modal, dy1: int, dy2: int)
    requires dy1 <= dy2
    ensures OnPanMove(m, dy1).issued[0].target <= OnPanMove(m, dy2).issued[0].target
  {
  }

  // ---------------------------------------------------------------------------
  // Release
  // ---------------------------------------------------------------------------

  /** The three outcomes a release can have. */
  datatype ReleaseDecision = SnapBack | Dismiss | Stay

  /** Reference classification of a release delta: far enough down dismisses,
      no movement at all does nothing, anything else springs back. */
  function Decide(dy: int): ReleaseDecision
  {
    if dy > DismissThreshold then Dismiss
    else if dy == 0 then Stay
    else SnapBack
  }

  /** The commands each decision stands for. */
  function DecisionCommands(m: Modal, d: ReleaseDecision): seq<Command>
  {
    match d
    case SnapBack => [Command(-m.heightContent, DefaultDuration, Noop)]
    case Dismiss => [Command(m.heightContent, DefaultDuration, CloseHandler)]
    case Stay => []
  }

  /** The handler's three sequential `if`s issue exactly the commands of the
      reference decision, and the decision partitions the deltas as the guards do. */
  lemma ReleaseFollowsDecision(m: Modal, dy: int)
    ensures OnPanRelease(m, dy).issued == DecisionCommands(m, Decide(dy))
    ensures Decide(dy) == SnapBack <==> (0 < dy <= DismissThreshold || dy < 0)
    ensures Decide(dy) == Dismiss <==> dy > DismissThreshold
    ensures Decide(dy) == Stay <==> dy == 0
  {
  }

  /** A release that snaps back animates to the rest offset over the default duration. */
  lemma SmallReleaseSnapsBack(m: Modal, dy: int)
    requires 0 < dy <= DismissThreshold || dy < 0
    ensures OnPanRelease(m, dy).issued == [Command(-m.heightContent, DefaultDuration, Noop)]
    ensures OnPanRelease(m, dy).next == m.(last := Some(Command(-m.heightContent, DefaultDuration, Noop)))
  {
  }

  /** A release further down than the threshold is exactly `closeModal`, as are a
      backdrop press and, when the icon exists, a close-icon press. */
  lemma DismissPathsAgree(m: Modal, dy: int)
    requires dy > DismissThreshold
    ensures Step(m, PanRelease(dy)) == CloseModal(m)
    ensures Step(m, BackdropPress) == CloseModal(m)
    ensures m.closeIcon ==> Step(m, CloseIconPress) == CloseModal(m)
    ensures CloseModal(m).issued == [Command(m.heightContent, DefaultDuration, CloseHandler)]
  {
  }

  // ---------------------------------------------------------------------------
  // Layout, visibility and keyboard
  // ---------------------------------------------------------------------------

  /** Two layouts in a row leave the second measurement plus the margin: the
      height is replaced, never accumulated. */
  lemma LayoutReplaces(m: Modal, h1: nat, h2: nat)
    ensures Step(Step(m, LayoutMeasured(h1)).next, LayoutMeasured(h2)).next.heightContent == h2 + LayoutMargin
  {
  }

  /** A changed content height re-issues the rest animation for the new height,
      whether the modal is visible or not, and calls no callback. */
  lemma LayoutChangeReanimates(m: Modal, height: nat)
    requires height + LayoutMargin != m.heightContent
    ensures Step(m, LayoutMeasured(height)).issued == [Rest(height + LayoutMargin)]
    ensures Step(m, LayoutMeasured(height)).next.closeCount == m.closeCount
  {
  }

  /** Hiding a shown modal with content animates to `-heightContent`, the shown
      rest offset, and not to the retracted offset `+heightContent`. */
  lemma HideDoesNotRetract(m: Modal)
    requires m.isVisible && m.heightContent != 0
    ensures |Step(m, VisibilityChanged(false)).issued| == 1
    ensures Step(m, VisibilityChanged(false)).issued[0].target == -m.heightContent
    ensures Step(m, VisibilityChanged(false)).issued[0].target != m.heightContent
  {
  }

  /** Repeating a visibility value issues nothing the second time. */
  lemma VisibilityIdempotent(m: Modal, visible: bool)
    ensures Step(Step(m, VisibilityChanged(visible)).next, VisibilityChanged(visible))
         == Idle(Step(m, VisibilityChanged(visible)).next)
  {
  }

  /** Keyboard events change only the keyboard height and issue nothing. */
  lemma KeyboardLeavesPanel(m: Modal, e: Event)
    requires e.KeyboardShown? || e.KeyboardHidden?
    ensures Step(m, e).issued == []
    ensures Step(m, e).next.heightContent == m.heightContent
    ensures Step(m, e).next.keyboardHeight == (if e.KeyboardShown? then e.keyboard else 0)
    ensures Step(m, e).next == m.(keyboardHeight := Step(m, e).next.keyboardHeight)
  {
  }

  // ---------------------------------------------------------------------------
  // Any single event
  // ---------------------------------------------------------------------------

  /** Every event issues at most one command, the record's `last` is that command,
      and an event that issues nothing leaves `last` alone. */
  lemma StepIssuesAtMostOne(m: Modal, e: Event)
    ensures |Step(m, e).issued| <= 1
    ensures Step(m, e).issued != [] ==> Step(m, e).next.last == Some(Step(m, e).issued[0])
    ensures Step(m, e).issued == [] ==> Step(m, e).next.last == m.last
  {
  }

  /** The effects' rest command always targets the rest offset of the state the
      event produced, so a new height is never animated against a stale one. */
  lemma RestUsesCurrentHeight(m: Modal, e: Event)
    ensures forall c :: c in Step(m, e).issued && c.callback == Absent ==>
              c == Rest(Step(m, e).next.heightContent)
  {
  }

  /** `onClose` is handed over only by the dismiss path, always with the current
      content height as target. */
  lemma CloseHandlerOnlyFromDismiss(m: Modal, e: Event)
    ensures forall c :: c in Step(m, e).issued && c.callback == CloseHandler ==>
              c == Command(m.heightContent, DefaultDuration, CloseHandler)
              && (e.BackdropPress? || e.CloseIconPress? || (e.PanRelease? && e.dy > DismissThreshold))
  {
  }

  /** Only a drag move animates immediately; every other command takes the
      default duration. */
  lemma ImmediateOnlyFromDrag(m: Modal, e: Event)
    ensures forall c :: c in Step(m, e).issued && c.duration == 0 ==> e.PanMove?
    ensures forall c :: c in Step(m, e).issued && !e.PanMove? ==> c.duration == DefaultDuration
  {
  }

  // ---------------------------------------------------------------------------
  // Event sequences
  // ---------------------------------------------------------------------------

  /** No sequence of events changes the number of `onClose` calls: the completion
      handler never calls the callback it was given. */
  lemma {:induction false} RunNeverCallsOnClose(m: Modal, events: seq<Event>)
    ensures Run(m, events).next.closeCount == m.closeCount
    decreases |events|
  {
    if events != [] {
      RunNeverCallsOnClose(Step(m, events[0]).next, events[1..]);
    }
  }

  /** A run's `last` is the last command it issued, or the old one if it issued none. */
  lemma {:induction false} RunLastIsLastIssued(m: Modal, events: seq<Event>)
    ensures Run(m, events).issued != [] ==>
              Run(m, events).next.last == Some(Run(m, events).issued[|Run(m, events).issued| - 1])
    ensures Run(m, events).issued == [] ==> Run(m, events).next.last == m.last
    decreases |events|
  {
    if events != [] {
      StepIssuesAtMostOne(m, events[0]);
      RunLastIsLastIssued(Step(m, events[0]).next, events[1..]);
    }
  }

  /** The shapes of command the component can issue. */
  predicate WellShaped(c: Command)
  {
    && (c.duration == 0 || c.duration == DefaultDuration)
    && (c.duration == 0 ==> c.callback == Noop)
    && (c.callback == Absent ==> c.target <= 0)
    && (c.callback == Noop && c.duration == DefaultDuration ==> c.target <= 0)
    && (c.callback == CloseHandler ==> c.target >= 0 && c.duration == DefaultDuration)
  }

  /** What holds of every record reachable from a mount. */
  predicate Inv(m: Modal)
  {
    && (m.heightContent == 0 || m.heightContent >= LayoutMargin)
    && m.keyboardHeight >= 0
    && (m.last.Some? ==> WellShaped(m.last.value))
  }

  lemma StepKeepsInv(m: Modal, e: Event)
    requires Inv(m)
    ensures Inv(Step(m, e).next)
    ensures forall c :: c in Step(m, e).issued ==> WellShaped(c)
  {
  }

  /** The invariant survives any sequence of events, and every command issued on
      the way has one of the component's shapes. */
  lemma {:induction false} RunKeepsInv(m: Modal, events: seq<Event>)
    requires Inv(m)
    ensures Inv(Run(m, events).next)
    ensures forall c :: c in Run(m, events).issued ==> WellShaped(c)
    decreases |events|
  {
    if events != [] {
      var first := Step(m, events[0]);
      StepKeepsInv(m, events[0]);
      RunKeepsInv(first.next, events[1..]);
      assert Run(m, events).issued == first.issued + Run(first.next, events[1..]).issued;
    }
  }

  /** From the first render on, whatever happens, `onClose` is never called, the
      content height is 0 or at least the margin, and every command is well shaped. */
  lemma MountedModalNeverCloses(isVisible: bool, closeIcon: bool, events: seq<Event>)
    ensures Run(Mount(isVisible, closeIcon).next, events).next.closeCount == 0
    ensures Inv(Run(Mount(isVisible, closeIcon).next, events).next)
    ensures forall c :: c in Run(Mount(isVisible, closeIcon).next, events).issued ==> WellShaped(c)
  {
    var start := Mount(isVisible, closeIcon).next;
    RunNeverCallsOnClose(start, events);
    RunKeepsInv(start, events);
  }
}
