/** The position controller of the animated bottom modal.

    The component keeps its state in React hooks; here it is one immutable record,
    and every callback the component registers (the two re-animation effects, the
    pan handlers, the keyboard listeners, the layout handler, `closeModal` and the
    animation completion handler) is a pure function from the record to a
    `Transition`: the next record and the `animateHeight` commands issued on the way.

    Offsets follow the component's convention: `0` is the panel's mount position at
    the bottom edge of the window and more negative values move it up into view.
 */
module BottomModal {
  import opened Wrappers
  import opened Animation

  /** How far past its rest offset a drag may pull the panel upwards. */
  const OvershootCap: int := 20

  /** A release further down than this dismisses the panel. */
  const DismissThreshold: int := 40

  /** Added to every measured content height (room for the close icon and padding). */
  const LayoutMargin: int := 70

  /** The state of one mounted modal. */
  datatype Modal = Modal(
    isVisible: bool,          // the `isVisible` prop, as last rendered
    closeIcon: bool,          // the `closeIcon` prop: whether the close control exists
    heightContent: int,       // the `heightContent` state
    keyboardHeight: int,      // the `keyboardHeight` state
    last: Option<Command>,    // the most recent `animateHeight` call
    closeCount: nat           // how many times `onClose` has been called
  )

  /** Everything that can happen to a mounted modal. */
  datatype Event =
    | VisibilityChanged(visible: bool)     // the parent renders with this `isVisible`
    | LayoutMeasured(height: nat)          // `onLayout` of the content block
    | KeyboardShown(keyboard: nat)         // `keyboardDidShow` with its end height
    | KeyboardHidden                       // `keyboardDidHide`
    | PanMove(dy: int)                     // `onPanResponderMove`, dy since touch-down
    | PanRelease(dy: int)                  // `onPanResponderRelease`
    | BackdropPress                        // `onBackdropPress` of the modal host
    | CloseIconPress                       // a press on the close icon
    | CloseIconChanged(shown: bool)        // the parent renders with this `closeIcon`
    | AnimationEnd(command: Command, finished: bool)  // completion of `command`

  /** The record after an event and the commands the event issued, in order. */
  datatype Transition = Transition(next: Modal, issued: seq<Command>)

  function Max(a: int, b: int): (r: int)
  {
    if a < b then b else a
  }

  /** No command; the record is `m`. */
  function Idle(m: Modal): (t: Transition)
  {
    Transition(m, [])
  }

  /** Issue the single command `c` from `m`. */
  function Issue(m: Modal, c: Command): (t: Transition)
  {
    Transition(m.(last := Some(c)), [c])
  }

  /** `t` followed by `u`, where `u` was computed from `t.next`. */
  function Chain(t: Transition, u: Transition): (r: Transition)
  {
    Transition(u.next, t.issued + u.issued)
  }

  /** The first render: both states start at 0, and React runs the two
      re-animation effects once each, in declaration order. */
  function Mount(isVisible: bool, closeIcon: bool): (t: Transition)
    ensures t.next == Modal(isVisible, closeIcon, 0, 0, Some(Rest(0)), 0)
    ensures t.issued == [Command(0, DefaultDuration, Absent), Command(0, DefaultDuration, Absent)]
  {
    var m := Modal(isVisible, closeIcon, 0, 0, None, 0);
    var first := Issue(m, Rest(m.heightContent));
    Chain(first, Issue(first.next, Rest(first.next.heightContent)))
  }

  /** The parent renders with `isVisible == visible`. The effect that depends on
      `isVisible` runs only when the prop changed, and then animates to
      `-heightContent` whichever way it changed: hiding does not retract the panel. */
  function OnVisibilityChange(m: Modal, visible: bool): (t: Transition)
    ensures t.next.isVisible == visible
    ensures t.next.heightContent == m.heightContent && t.next.keyboardHeight == m.keyboardHeight
    ensures t.next.closeCount == m.closeCount && t.next.closeIcon == m.closeIcon
    ensures visible == m.isVisible <==> t.issued == []
    ensures visible != m.isVisible ==> t.issued == [Command(-m.heightContent, DefaultDuration, Absent)]
  {
    if visible == m.isVisible then Idle(m)
    else Issue(m.(isVisible := visible), Rest(m.heightContent))
  }

  /** `onBlockLayout`: the content height becomes the measured height plus the
      margin. When that differs from the current value the effect depending on
      `heightContent` re-animates to the new rest offset; an equal value causes
      no re-render and no command. */
  function OnLayout(m: Modal, height: nat): (t: Transition)
    ensures t.next.heightContent == height + LayoutMargin
    ensures t.next.isVisible == m.isVisible && t.next.keyboardHeight == m.keyboardHeight
    ensures t.next.closeCount == m.closeCount && t.next.closeIcon == m.closeIcon
    ensures height + LayoutMargin == m.heightContent <==> t.issued == []
    ensures height + LayoutMargin != m.heightContent ==>
              t.issued == [Command(-(height + LayoutMargin), DefaultDuration, Absent)]
  {
    var h := height + LayoutMargin;
    if h == m.heightContent then Idle(m)
    else Issue(m.(heightContent := h), Rest(h))
  }

  /** `_keyboardDidShow`: record the keyboard height; nothing is animated. */
  function OnKeyboardShown(m: Modal, keyboard: nat): (t: Transition)
    ensures t.next == m.(keyboardHeight := keyboard)
    ensures t.issued == []
  {
    Idle(m.(keyboardHeight := keyboard))
  }

  /** `_keyboardDidHide`: the keyboard height returns to 0; nothing is animated. */
  function OnKeyboardHidden(m: Modal): (t: Transition)
    ensures t.next == m.(keyboardHeight := 0)
    ensures t.issued == []
  {
    Idle(m.(keyboardHeight := 0))
  }

  /** `onPanResponderMove`: the panel follows the finger without easing, but may
      rise at most `OvershootCap` above its rest offset. */
  function OnPanMove(m: Modal, dy: int): (t: Transition)
    ensures t.issued == [Command(-m.heightContent + Max(dy, -OvershootCap), 0, Noop)]
    ensures t.next == m.(last := Some(t.issued[0]))
  {
    if dy < -OvershootCap then Issue(m, Command(-m.heightContent - OvershootCap, 0, Noop))
    else Issue(m, Command(-m.heightContent + dy, 0, Noop))
  }

  /** `closeModal`: animate to `+heightContent` over the default duration, handing
      `onClose` over as the completion callback. */
  function CloseModal(m: Modal): (t: Transition)
    ensures t.issued == [Command(m.heightContent, DefaultDuration, CloseHandler)]
    ensures t.next == m.(last := Some(t.issued[0]))
  {
    Issue(m, Command(m.heightContent, DefaultDuration, CloseHandler))
  }

  /** `onPanResponderRelease`: three independent `if` statements, run in order, all
      reading the `heightContent` captured by the render that created the handler. */
  function OnPanRelease(m: Modal, dy: int): (t: Transition)
    ensures |t.issued| <= 1
    ensures dy == 0 ==> t == Idle(m)
    ensures t.next.heightContent == m.heightContent && t.next.closeCount == m.closeCount
  {
    var heightContent := m.heightContent;
    var afterSmallDown :=
      if 0 < dy <= DismissThreshold then Issue(m, Command(-heightContent, DefaultDuration, Noop))
      else Idle(m);
    var afterLargeDown :=
      if dy > DismissThreshold then Chain(afterSmallDown, CloseModal(afterSmallDown.next))
      else afterSmallDown;
    var afterUp :=
      if dy < 0 then Chain(afterLargeDown, Issue(afterLargeDown.next, Command(-heightContent, DefaultDuration, Noop)))
      else afterLargeDown;
    afterUp
  }

  /** The close icon calls `closeModal`; without the icon there is nothing to press. */
  function OnCloseIconPress(m: Modal): (t: Transition)
    ensures m.closeIcon ==> t.issued == [Command(m.heightContent, DefaultDuration, CloseHandler)]
    ensures !m.closeIcon ==> t == Idle(m)
  {
    if m.closeIcon then CloseModal(m) else Idle(m)
  }

  /** The parent renders with `closeIcon == shown`: the next render shows or omits
      the close control. No effect depends on the prop, so nothing is animated. */
  function OnCloseIconChange(m: Modal, shown: bool): (t: Transition)
    ensures t.next == m.(closeIcon := shown)
    ensures t.issued == []
  {
    Idle(m.(closeIcon := shown))
  }

  /** The completion handler of `command`: it calls whatever `CompletionCalls`
      says, and `closeCount` counts the calls of `onClose` among them. */
  function OnAnimationEnd(m: Modal, command: Command, finished: bool): (t: Transition)
    ensures t.issued == []
    ensures t.next == m
  {
    var calls := CompletionCalls(command, finished);
    Idle(m.(closeCount := m.closeCount + CloseCalls(calls)))
  }

  /** One event. */
  function Step(m: Modal, e: Event): (t: Transition)
  {
    match e
    case VisibilityChanged(visible) => OnVisibilityChange(m, visible)
    case LayoutMeasured(height) => OnLayout(m, height)
    case KeyboardShown(keyboard) => OnKeyboardShown(m, keyboard)
    case KeyboardHidden => OnKeyboardHidden(m)
    case PanMove(dy) => OnPanMove(m, dy)
    case PanRelease(dy) => OnPanRelease(m, dy)
    case BackdropPress => CloseModal(m)
    case CloseIconPress => OnCloseIconPress(m)
    case CloseIconChanged(shown) => OnCloseIconChange(m, shown)
    case AnimationEnd(command, finished) => OnAnimationEnd(m, command, finished)
  }

  /** A sequence of events, in order; `issued` collects every command. */
  function Run(m: Modal, events: seq<Event>): (t: Transition)
    decreases |events|
  {
    if events == [] then Idle(m)
    else
      var first := Step(m, events[0]);
      Chain(first, Run(first.next, events[1..]))
  }
}
