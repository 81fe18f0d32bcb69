/** The command side of the bottom sheet's animations.

    The component moves its panel only through `animateHeight`, which starts an
    `Animated.timing` animation of the vertical offset. How the animated value
    travels over time belongs to the animation library; this module keeps only
    what the component decides: the target offset, the duration and the callback
    handed over, plus what the completion handler does once the animation ends.
 */
module Animation {

  /** The callback argument given to `animateHeight`. */
  datatype Callback =
    | Absent        // no argument: the two re-animation effects
    | Noop          // the empty arrow function passed by the pan handlers
    | CloseHandler  // the `onClose` prop, passed by `closeModal`

  /** Duration used when `animateHeight` is called without one, and by the snap-back. */
  const DefaultDuration: nat := 300

  /** One call `animateHeight(target, callback, duration)`. */
  datatype Command = Command(target: int, duration: nat, callback: Callback)

  /** The rest command both effects issue: animate to `-heightContent` with the
      default duration and no callback. */
  function Rest(heightContent: int): Command
  {
    Command(-heightContent, DefaultDuration, Absent)
  }

  /** A JavaScript value, as far as the completion handler produces one. */
  datatype JsValue = JsBool(b: bool) | JsFunction(callback: Callback) | JsUndefined

  /** What evaluating an expression yields, and the callbacks it called on the way. */
  datatype Evaluation = Evaluation(value: JsValue, calls: seq<Callback>)

  /** The expression `callback`: reading the parameter yields the function, or
      `undefined` when none was passed, and calls nothing. */
  function Reference(cb: Callback): (e: Evaluation)
  {
    Evaluation(if cb == Absent then JsUndefined else JsFunction(cb), [])
  }

  /** `left && right` for a boolean `left`: `right` is evaluated, with whatever
      calls it makes, only when `left` is true; otherwise the result is `false`. */
  function And(left: bool, right: Evaluation): (e: Evaluation)
  {
    if left then right else Evaluation(JsBool(false), [])
  }

  /** The callbacks the completion handler `({ finished }) => { finished && callback; }`
      calls when the animation of `c` ends: the statement evaluates `callback`
      as a value, so nothing is called, whether or not the animation finished and
      whichever callback was handed over. */
  function CompletionCalls(c: Command, finished: bool): (calls: seq<Callback>)
    ensures calls == []
    ensures CloseCalls(calls) == 0
  {
    And(finished, Reference(c.callback)).calls
  }

  /** How many times a list of calls invokes `onClose`. */
  function CloseCalls(calls: seq<Callback>): nat
  {
    multiset(calls)[CloseHandler]
  }
}
