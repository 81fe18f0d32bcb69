# Animated bottom modal: position controller

This project models the gesture-and-offset logic of `AnimatedBottomModal`, a
React Native bottom sheet. The panel starts at the bottom edge of the window
(offset 0) and moves up into view as its vertical offset becomes more negative.
At rest it sits at `-heightContent`, where `heightContent` is the measured height
of its content plus a margin of 70. A drag follows the finger. A drag more than
20 above the rest offset is capped there. A release more than 40 down dismisses
the panel. Any other movement springs back.

The component's hooks become one immutable record, `BottomModal.Modal`. It holds
the visibility prop, the close-icon prop (both change through events, as a parent
re-render changes them), `heightContent`, `keyboardHeight`, the
last `animateHeight` command and a count of `onClose` calls. Each callback the
component registers is a pure function of that record. Each returns a
`Transition`: the next record and the commands issued. A command
(`Animation.Command`) holds a target offset, a duration and the callback handed
over. `BottomModal.Step` dispatches one `Event`, and `BottomModal.Run` folds a
sequence of them.

Modules:

- `Wrappers` (`wrappers.dfy`): `Option`.
- `Animation` (`animation.dfy`): commands, the default duration of 300 and the
  animation completion handler.
- `BottomModal` (`modal.dfy`): the state, the events and one handler per
  callback.
- `BottomModalProperties` (`properties.dfy`): lemmas that relate the handlers to
  reference definitions, plus invariants over event sequences.
- `BottomModalScenarios` (`scenarios.dfy`): concrete event sequences.

React semantics that matter are modelled explicitly:

- An effect runs again only when its dependency changed. Showing twice, or a
  layout that yields the same height, issues nothing.
- The first render runs both re-animation effects, so it issues two commands
  that animate to 0.

Two places where the code does not do what the code around it evidently means
to do. The model follows the code as written:

- The effect on `isVisible` (AnimatedBottomModal.tsx:93-95) animates to
  `-heightContent` both when the modal is shown and when it is hidden. Hiding
  never retracts the panel to `+heightContent`, the offset that `closeModal`
  (AnimatedBottomModal.tsx:153) uses to take the panel away
  (`HideDoesNotRetract`).
- The completion handler (AnimatedBottomModal.tsx:110-112) evaluates
  `finished && callback` without calling `callback`. `closeModal` hands `onClose`
  over as the completion callback (AnimatedBottomModal.tsx:153), so calling it
  once the animation finished was evidently intended. As written, `onClose` is
  never called, not even after the dismiss animation started by `closeModal`.
  `closeCount` stays at its starting value over every event sequence
  (`RunNeverCallsOnClose`, `MountedModalNeverCloses`, `DismissDoesNotNotify`).
  The model has no "close fires exactly once" behaviour.

## Model

| member | source | states |
|---|---|---|
| BottomModal.Mount | AnimatedBottomModal.tsx:93-99 | the first render starts with content and keyboard height 0 and issues two commands: animate to 0 over 300 with no callback |
| BottomModal.OnVisibilityChange | AnimatedBottomModal.tsx:93-95 | only a changed `isVisible` issues a command, and that command animates to `-heightContent` over 300 for both show and hide; the heights and the close count are unchanged |
| BottomModal.OnLayout | AnimatedBottomModal.tsx:147-150 | the content height becomes measured + 70. A command is issued exactly when that value differs from the old one, and it animates to the new rest offset |
| BottomModal.OnKeyboardShown | AnimatedBottomModal.tsx:139-141 | only the keyboard height changes, to the reported height; no command |
| BottomModal.OnKeyboardHidden | AnimatedBottomModal.tsx:143-145 | only the keyboard height changes, to 0; no command |
| BottomModal.OnPanMove | AnimatedBottomModal.tsx:117-124 | one immediate (duration 0) command to `-heightContent + max(dy, -20)`, recorded as the last command |
| BottomModal.CloseModal | AnimatedBottomModal.tsx:152-154 | one command to `+heightContent` over the default 300, with `onClose` as its callback |
| BottomModal.OnPanRelease | AnimatedBottomModal.tsx:126-136 | at most one command; a release at `dy == 0` leaves the state unchanged and issues nothing |
| BottomModal.OnCloseIconPress | AnimatedBottomModal.tsx:184-187 | with the icon shown, a press is the dismiss command; without the icon, nothing happens |
| BottomModal.OnCloseIconChange | AnimatedBottomModal.tsx:184-188 | a new `closeIcon` prop only shows or hides the close control: nothing else changes and nothing is animated |
| Animation.CompletionCalls | AnimatedBottomModal.tsx:110-112 | the completion handler's `finished && callback` evaluates the callback as a value under short-circuit `&&`, so it calls nothing and never `onClose`, for any command and either value of `finished` |
| BottomModal.OnAnimationEnd | AnimatedBottomModal.tsx:110-112 | the end of any animation, finished or not, leaves the record unchanged (the `onClose` count included) and issues nothing |
| BottomModalProperties.MoveStaysBelowCap | AnimatedBottomModal.tsx:119-123 | a move never targets above `-heightContent - 20` or above the finger, and has duration 0 |
| BottomModalProperties.MoveFollowsFinger | AnimatedBottomModal.tsx:121-122 | for `dy >= -20` the target is `-heightContent + dy`, so it moves 1:1 with the finger |
| BottomModalProperties.MoveCapIgnoresDelta | AnimatedBottomModal.tsx:119-120 | for `dy < -20` the target is `-heightContent - 20`, whatever `dy` is |
| BottomModalProperties.MoveMonotone | AnimatedBottomModal.tsx:117-124 | a larger downward delta never gives a higher target |
| BottomModalProperties.ReleaseFollowsDecision | AnimatedBottomModal.tsx:126-136 | the three sequential guards issue exactly the commands of a reference three-way decision: dismiss for `dy > 40`, nothing for `dy == 0`, snap back otherwise (each direction stated) |
| BottomModalProperties.SmallReleaseSnapsBack | AnimatedBottomModal.tsx:127-135 | `0 < dy <= 40` or `dy < 0` issues exactly one command, back to `-heightContent` over 300 |
| BottomModalProperties.DismissPathsAgree | AnimatedBottomModal.tsx:130-132 | a release with `dy > 40`, a backdrop press and a close-icon press (when the icon is shown) all give exactly the `closeModal` transition |
| BottomModalProperties.LayoutReplaces | AnimatedBottomModal.tsx:147-150 | two layouts in a row leave the second measurement + 70; heights are replaced, never summed |
| BottomModalProperties.LayoutChangeReanimates | AnimatedBottomModal.tsx:97-99 | a changed content height re-issues the rest animation for the new height, whatever the visibility, and leaves the close count unchanged |
| BottomModalProperties.HideDoesNotRetract | AnimatedBottomModal.tsx:93-95 | hiding a shown modal that has content animates to `-heightContent`, not to `+heightContent` |
| BottomModalProperties.VisibilityIdempotent | AnimatedBottomModal.tsx:93-95 | repeating the same visibility value issues nothing |
| BottomModalProperties.KeyboardLeavesPanel | AnimatedBottomModal.tsx:139-145 | keyboard events change only the keyboard height: no command, `heightContent` unchanged |
| BottomModalProperties.StepIssuesAtMostOne | AnimatedBottomModal.tsx:93-154 | each event issues at most one command, and the record's last command is the one just issued |
| BottomModalProperties.ImmediateOnlyFromDrag | AnimatedBottomModal.tsx:117-124 | a duration-0 command comes only from a pan move; every other event's command takes the default 300 |
| BottomModalProperties.RestUsesCurrentHeight | AnimatedBottomModal.tsx:93-99 | every effect-issued command targets the rest offset of the record that results, so it never uses a stale height |
| BottomModalProperties.CloseHandlerOnlyFromDismiss | AnimatedBottomModal.tsx:152-154 | only a backdrop press, a close-icon press or a release with `dy > 40` hands over `onClose`, and always with target `+heightContent` over 300 |
| BottomModalProperties.RunNeverCallsOnClose | AnimatedBottomModal.tsx:110-112 | no sequence of events changes the `onClose` count |
| BottomModalProperties.RunLastIsLastIssued | AnimatedBottomModal.tsx:101-113 | after any event sequence, the recorded last command is the last one issued; if none was issued, it is the previous one |
| BottomModalProperties.RunKeepsInv | AnimatedBottomModal.tsx:101-154 | over any event sequence the content height stays 0 or at least 70, and every command issued is well shaped: duration 0 or 300, duration 0 only with the no-op callback, rest and snap-back targets (300, no callback or the no-op one) at or above the mount position, dismiss targets at or below it |
| BottomModalProperties.MountedModalNeverCloses | AnimatedBottomModal.tsx:61-154 | from the first render on, no event sequence ever calls `onClose`, and the invariant holds |
| BottomModalScenarios.ShowAfterLayout | AnimatedBottomModal.tsx:93-99 | mounting hidden, measuring 330 and then showing issues two animations to -400 over 300 |
| BottomModalScenarios.LayoutAfterShow | AnimatedBottomModal.tsx:93-99 | mounting hidden, showing and then measuring 330 issues an animation to 0 and then one to -400 |
| BottomModalScenarios.DragUpIsCapped | AnimatedBottomModal.tsx:119-120 | dragging 30 up from rest at -400 targets -420 immediately |
| BottomModalScenarios.DismissDoesNotNotify | AnimatedBottomModal.tsx:110-112 | releasing 55 down animates to +400 with `onClose` handed over, and when the animation finishes `onClose` has still not been called |
| BottomModalScenarios.KeyboardThenReflow | AnimatedBottomModal.tsx:139-150 | a keyboard of 250 issues nothing by itself; a reflowed layout of 380 moves the rest offset to -450 |
| BottomModalScenarios.HideStaysAtRest | AnimatedBottomModal.tsx:93-95 | hiding a modal at rest at -400 animates to -400 |

## Left out

- Rendering: the JSX tree, styles, colours, `XIcon`, the drag line and the
  `Modal` host's props. These are presentation only.
- How `Animated.timing` moves the value over time, and the native driver. An
  animation appears only as the command that starts it. The `AnimationEnd` event
  stands for the library reporting that an animation ended.
- Subscribing and unsubscribing the keyboard listeners (AnimatedBottomModal.tsx:73-91)
  and creating the pan responder. This is event-source wiring. The events arrive
  as `Event` values.
- The window height query and `top: HEIGH`. They only place the panel and never
  enter an offset decision.
- The native layout reflow through which `keyboardHeight` changes the measured
  height. A layout arrives as an event carrying its height.
- What the modal host delivers while hidden. A host that renders no content
  while `isVisible` is false delivers no layout, pan or press events then. The
  model accepts every event in every state, so its event sequences include some
  a hidden host never produces (such as `ShowAfterLayout`); `LayoutAfterShow` is
  the order such a host delivers.
- Stale closures across renders. Every handler reads the state of the current
  render. JavaScript floating-point offsets are modelled as unbounded integers,
  and measured heights as non-negative integers.
