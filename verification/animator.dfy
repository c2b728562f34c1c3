/** The frame clock behind every animator (Animator.swift, class `Animator`).
    An animator runs exactly while it holds a display link.  `start` and
    `stop` are idempotent; a real transition reports the subclass hook
    (`didStart` / `didStop`) that must run next, on the already-flipped
    clock.  The run loop and the display's refresh are left to the caller,
    which delivers ticks as explicit events. */
module Animator {
  import opened Wrappers

  /** The display link an animator registers while it runs. */
  datatype DisplayLink = DisplayLink(preferredFramesPerSecond: nat, isPaused: bool)

  /** The refresh rate `start` asks the display link for. */
  const FramesPerSecond: nat := 60

  datatype Clock = Clock(displayLink: Option<DisplayLink>) {
    /** `isRunning`: a display link is present. */
    predicate IsRunning() {
      displayLink.Some?
    }
  }

  /** A subclass extension point run after the clock has flipped. */
  datatype Hook = DidStart | DidStop

  /** The clock after a `start`/`stop`, and the hooks that call runs. */
  datatype Transition = Transition(clock: Clock, hooks: seq<Hook>)

  /** `init()`: no display link yet. */
  function New(): (c: Clock)
    ensures !c.IsRunning()
  {
    Clock(None)
  }

  /** `start()`: a no-op while running; otherwise install an unpaused 60 fps
      link and run `didStart` once. */
  function Start(c: Clock): (t: Transition)
    ensures t.clock.IsRunning()
    ensures c.IsRunning() ==> t.clock == c && t.hooks == []
    ensures !c.IsRunning() ==> t.hooks == [DidStart]
    ensures !c.IsRunning() ==> t.clock.displayLink == Some(DisplayLink(FramesPerSecond, false))
  {
    if c.displayLink.Some? then Transition(c, [])
    else Transition(Clock(Some(DisplayLink(FramesPerSecond, false))), [DidStart])
  }

  /** `stop()`: a no-op while stopped; otherwise pause and drop the link and
      run `didStop` once. */
  function Stop(c: Clock): (t: Transition)
    ensures !t.clock.IsRunning()
    ensures !c.IsRunning() ==> t.clock == c && t.hooks == []
    ensures c.IsRunning() ==> t.hooks == [DidStop]
  {
    match c.displayLink
    case None => Transition(c, [])
    case Some(_) => Transition(Clock(None), [DidStop])
  }

  /** A call a client makes on the clock. */
  datatype Call = StartCall | StopCall

  /** The clock after a sequence of `start()` / `stop()` calls. */
  function Drive(c: Clock, calls: seq<Call>): Clock
    decreases |calls|
  {
    if calls == [] then c
    else
      var next := match calls[0]
        case StartCall => Start(c).clock
        case StopCall => Stop(c).clock;
      Drive(next, calls[1..])
  }

  /** `isRunning` reports the last call: after any sequence of `start()` and
      `stop()` the clock runs exactly when the last of them was a start, and
      is as it was when there were none. */
  lemma {:induction false} RunningFollowsLastCall(c: Clock, calls: seq<Call>)
    ensures Drive(c, calls).IsRunning() == (if calls == [] then c.IsRunning() else calls[|calls| - 1] == StartCall)
    decreases |calls|
  {
    if calls != [] {
      var next := match calls[0]
        case StartCall => Start(c).clock
        case StopCall => Stop(c).clock;
      RunningFollowsLastCall(next, calls[1..]);
      if calls[1..] != [] {
        assert calls[1..][|calls[1..]| - 1] == calls[|calls| - 1];
      }
    }
  }

  /** Starting twice runs `didStart` once; stopping twice runs `didStop` once;
      a start/stop cycle brings a fresh animator back to where it began. */
  lemma StartStopIdempotent(c: Clock)
    ensures Start(Start(c).clock) == Transition(Start(c).clock, [])
    ensures Stop(Stop(c).clock) == Transition(Stop(c).clock, [])
    ensures Stop(Start(New()).clock) == Transition(New(), [DidStop])
  {
  }
}
