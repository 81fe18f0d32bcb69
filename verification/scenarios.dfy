/** Concrete event sequences for the bottom modal, each with the commands the
    component issues for it. */
module BottomModalScenarios {
  import opened Wrappers
  import opened Animation
  import opened BottomModal

  /** A hidden modal whose content measured 330 (so 400 with the margin). */
  function Hidden400(): Modal
  {
    Modal(false, true, 400, 0, None, 0)
  }

  /** A shown modal resting at -400. */
  function Shown400(): Modal
  {
    Modal(true, true, 400, 0, Some(Rest(400)), 0)
  }

  /** Mounting hidden, measuring 330 and then showing animates to -400 twice:
      once for the new height and once for the new visibility. */
  lemma ShowAfterLayout()
    ensures Run(Mount(false, true).next, [LayoutMeasured(330), VisibilityChanged(true)]).issued
         == [Command(-400, 300, Absent), Command(-400, 300, Absent)]
  {
  }

  /** Mounting hidden, showing and only then measuring 330 (the order in which a
      host that renders no content while hidden delivers them) animates to 0 and
      then to -400. */
  lemma LayoutAfterShow()
    ensures Step(Step(Mount(false, true).next, VisibilityChanged(true)).next, LayoutMeasured(330)).issued
         == [Command(-400, 300, Absent)]
    ensures Step(Mount(false, true).next, VisibilityChanged(true)).issued == [Command(0, 300, Absent)]
  {
  }

  /** Dragging 30 up from rest at -400 stops at the cap, -420, immediately. */
  lemma DragUpIsCapped()
    ensures Step(Shown400(), PanMove(-30)).issued == [Command(-420, 0, Noop)]
  {
  }

  /** Releasing 55 down animates to +400 with `onClose` as callback, and when that
      animation finishes `onClose` is still never called. */
  lemma DismissDoesNotNotify()
    ensures Step(Shown400(), PanRelease(55)).issued == [Command(400, 300, CloseHandler)]
    ensures Step(Step(Shown400(), PanRelease(55)).next, AnimationEnd(Command(400, 300, CloseHandler), true))
              .next.closeCount == 0
  {
  }

  /** A keyboard of 250 issues nothing by itself; the reflowed layout (380, so 450
      with the margin) moves the rest offset to -450. */
  lemma KeyboardThenReflow()
    ensures Run(Shown400(), [KeyboardShown(250), LayoutMeasured(380)]).issued == [Command(-450, 300, Absent)]
    ensures Run(Shown400(), [KeyboardShown(250), LayoutMeasured(380)]).next.keyboardHeight == 250
  {
  }

  /** Hiding the shown modal animates to -400, where it already rests. */
  lemma HideStaysAtRest()
    ensures Step(Shown400(), VisibilityChanged(false)).issued == [Command(-400, 300, Absent)]
    ensures Step(Hidden400(), VisibilityChanged(true)).issued == [Command(-400, 300, Absent)]
  {
  }
}
