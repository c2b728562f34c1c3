/** The display link's callback (Animator.swift, `displayLinkTick` and the
    base `tick`): it dispatches to the animator's own `tick`.  The base class
    does not implement `tick`; reaching it is a fatal fault. */
module DisplayLinkTick {
  import opened Wrappers
  import Animator
  import DurationAnimator
  import LinearAnimator

  /** An animator of any of the three classes. */
  datatype AnyAnimator =
    | Base(clock: Animator.Clock)
    | Duration(duration: DurationAnimator.DurationAnimator)
    | Linear(linear: LinearAnimator.LinearAnimator)
  {
    /** `isRunning`, which every class inherits. */
    predicate IsRunning() {
      match this
      case Base(c) => c.IsRunning()
      case Duration(d) => d.clock.IsRunning()
      case Linear(l) => l.clock.IsRunning()
    }
  }

  /** The base class's fatal not-implemented error, raised when `tick` reaches `Animator` itself. */
  datatype Fault = TickNotImplemented

  /** What a dispatched tick produced, by class. */
  datatype Ticked =
    | DurationTicked(duration: DurationAnimator.Step)
    | LinearTicked(linear: LinearAnimator.Step)

  /** `displayLinkTick(_:)`: calls the overriding `tick`, or faults on the base
      class.  A subclass tick keeps the animator's class; a linear tick leaves
      it running as it was. */
  function Tick(a: AnyAnimator, now: real): (r: Result<Ticked, Fault>)
    requires a.Duration? ==> a.duration.Valid()
    ensures r.Failure? <==> a.Base?
    ensures r.Failure? ==> r.error == TickNotImplemented
    ensures a.Duration? ==> r.Success? && r.value.DurationTicked? && r.value.duration.animator.Valid()
    ensures a.Linear? ==> r.Success? && r.value.LinearTicked? && r.value.linear.animator == a.linear
  {
    match a
    case Base(_) => Failure(TickNotImplemented)
    case Duration(d) => Success(DurationTicked(DurationAnimator.Tick(d, now)))
    case Linear(l) => Success(LinearTicked(LinearAnimator.Tick(l)))
  }
}
