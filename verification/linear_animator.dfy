/** The free-running animator (LinearAnimator.swift): no duration, it ticks
    until someone stops it.  Its ticker and delegate are reduced to whether
    they are set; their calls are recorded in an event log. */
module LinearAnimator {
  import Animator

  /** A call the animator makes, in order. */
  datatype Event = Ticked | DelegateTicked

  datatype LinearAnimator = LinearAnimator(clock: Animator.Clock, hasTicker: bool, hasDelegate: bool)

  datatype Step = Step(animator: LinearAnimator, events: seq<Event>)

  /** `init(ticker:)`: stopped, no delegate yet. */
  function New(hasTicker: bool): (a: LinearAnimator)
    ensures !a.clock.IsRunning()
    ensures a.hasTicker == hasTicker && !a.hasDelegate
  {
    LinearAnimator(Animator.New(), hasTicker, false)
  }

  /** `start()`: the base behaviour; the inherited `didStart` does nothing. */
  function Start(a: LinearAnimator): (r: LinearAnimator)
    ensures r.clock.IsRunning()
    ensures a.clock.IsRunning() ==> r == a
    ensures r.hasTicker == a.hasTicker && r.hasDelegate == a.hasDelegate
  {
    a.(clock := Animator.Start(a.clock).clock)
  }

  /** `stop()`: the base behaviour; the inherited `didStop` does nothing. */
  function Stop(a: LinearAnimator): (r: LinearAnimator)
    ensures !r.clock.IsRunning()
    ensures !a.clock.IsRunning() ==> r == a
    ensures r.hasTicker == a.hasTicker && r.hasDelegate == a.hasDelegate
  {
    a.(clock := Animator.Stop(a.clock).clock)
  }

  /** `tick()`: the ticker, when set, then the delegate, when set, each once.
      The animator itself is untouched: it never stops on its own. */
  function Tick(a: LinearAnimator): (r: Step)
    ensures r.animator == a
    ensures multiset(r.events)[Ticked] == (if a.hasTicker then 1 else 0)
    ensures multiset(r.events)[DelegateTicked] == (if a.hasDelegate then 1 else 0)
    ensures |r.events| == (if a.hasTicker then 1 else 0) + (if a.hasDelegate then 1 else 0)
    ensures a.hasTicker ==> r.events[0] == Ticked
  {
    Step(a, (if a.hasTicker then [Ticked] else []) + (if a.hasDelegate then [DelegateTicked] else []))
  }

  /** What happens to a linear animator: a client's `start()` or `stop()`, or
      a display-link frame, which only arrives while the link is installed. */
  datatype Input = Begin | Halt | Frame

  /** One input. */
  function Apply(a: LinearAnimator, input: Input): Step {
    match input
    case Begin => Step(Start(a), [])
    case Halt => Step(Stop(a), [])
    case Frame => if a.clock.IsRunning() then Tick(a) else Step(a, [])
  }

  /** A sequence of inputs, with the calls made in order. */
  function Run(a: LinearAnimator, inputs: seq<Input>): Step
    decreases |inputs|
  {
    if inputs == [] then Step(a, [])
    else
      var first := Apply(a, inputs[0]);
      var rest := Run(first.animator, inputs[1..]);
      Step(rest.animator, first.events + rest.events)
  }

  /** The clock calls among the inputs, frames left out. */
  function Calls(inputs: seq<Input>): seq<Animator.Call>
    decreases |inputs|
  {
    if inputs == [] then []
    else
      var first := match inputs[0]
        case Begin => [Animator.StartCall]
        case Halt => [Animator.StopCall]
        case Frame => [];
      first + Calls(inputs[1..])
  }

  /** Frames never stop a linear animator, unlike a duration animator: over
      any mix of `start()`, `stop()` and frames the clock ends where the
      `start()` / `stop()` calls alone take it, and the ticker and delegate
      stay as they were. */
  lemma {:induction false} FramesNeverStop(a: LinearAnimator, inputs: seq<Input>)
    ensures Run(a, inputs).animator.clock == Animator.Drive(a.clock, Calls(inputs))
    ensures Run(a, inputs).animator.hasTicker == a.hasTicker
    ensures Run(a, inputs).animator.hasDelegate == a.hasDelegate
    decreases |inputs|
  {
    if inputs != [] {
      var first := Apply(a, inputs[0]);
      FramesNeverStop(first.animator, inputs[1..]);
      match inputs[0]
      case Frame =>
        assert Calls(inputs) == Calls(inputs[1..]);
      case Begin =>
        assert Calls(inputs)[0] == Animator.StartCall && Calls(inputs)[1..] == Calls(inputs[1..]);
      case Halt =>
        assert Calls(inputs)[0] == Animator.StopCall && Calls(inputs)[1..] == Calls(inputs[1..]);
    }
  }
}
