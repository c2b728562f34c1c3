/** An animator with a fixed running time (DurationAnimator.swift).
    Elapsed time becomes raw progress, optionally eased by a timing curve;
    every tick hands the progress to the ticker, and once raw progress reaches
    1 the animator stops (or restarts when it repeats).  Stopping runs the
    ticker one last time and then the completion callback with "finished
    naturally".  The wall clock is the explicit `now` of each event; the
    optional ticker, completion block and delegate are reduced to whether they
    are set, and their calls are recorded in an event log. */
module DurationAnimator {
  import opened Wrappers
  import Animator
  import opened TimingFunction

  /** A call the animator makes, in order. */
  datatype Event =
    | Ticked(progress: Estimate)           // ticker(self, progress)
    | DelegateTicked(progress: Estimate)   // delegate?.didTick(animation:progress:)
    | Completed(finished: bool)            // completed(rawProgress >= 1.0)
    | DelegateCompleted(finished: bool)    // delegate?.didComplete(animation:completed:)

  datatype DurationAnimator = DurationAnimator(
    clock: Animator.Clock,
    duration: real,
    startedAt: Option<real>,
    timingFunction: Option<ControlPoints>,
    hasTicker: bool,
    hasCompleted: bool,
    hasDelegate: bool,
    repeats: bool)
  {
    /** A positive duration, and a start time exactly while running. */
    predicate Valid() {
      duration > 0.0 && (clock.IsRunning() <==> startedAt.Some?)
    }
  }

  /** The animator after an event, and the calls it made. */
  datatype Step = Step(animator: DurationAnimator, events: seq<Event>)

  /** `init(duration:timingFunction:ticker:then:)`: stopped, not repeating,
      no delegate. */
  function New(duration: real, timingFunction: Option<ControlPoints>, hasTicker: bool, hasCompleted: bool): (a: DurationAnimator)
    requires duration > 0.0
    ensures a.Valid() && !a.clock.IsRunning() && a.startedAt.None?
    ensures !a.repeats && !a.hasDelegate
    ensures a.duration == duration && a.timingFunction == timingFunction
    ensures a.hasTicker == hasTicker && a.hasCompleted == hasCompleted
  {
    DurationAnimator(Animator.New(), duration, None, timingFunction, hasTicker, hasCompleted, false, false)
  }

  /** `rawProgress`: 0 before a start, otherwise the elapsed fraction of the
      duration, unbounded above; it reaches 1 exactly when the duration has
      elapsed. */
  function RawProgress(a: DurationAnimator, now: real): (p: real)
    requires a.duration > 0.0
    ensures a.startedAt.None? ==> p == 0.0
    ensures a.startedAt.Some? ==> p * a.duration == now - a.startedAt.value
    ensures a.startedAt.Some? ==> (p >= 1.0 <==> now - a.startedAt.value >= a.duration)
  {
    match a.startedAt
    case None => 0.0
    case Some(startedAt) =>
      var p := (now - startedAt) / a.duration;
      assert p * a.duration == now - startedAt;
      p
  }

  /** `progress`: the raw progress, eased by the timing curve when there is one. */
  function Progress(a: DurationAnimator, now: real): (p: Estimate)
    requires a.duration > 0.0
    ensures a.timingFunction.None? ==> p == Finite(RawProgress(a, now))
    ensures a.timingFunction.Some? && RawProgress(a, now) == 1.0 ==> p == Finite(a.timingFunction.value.p3.y)
    ensures a.timingFunction.Some? && RawProgress(a, now) == 0.0
            && a.timingFunction.value.p0.x == 0.0 && a.timingFunction.value.p1.x != 0.0
            ==> p == Finite(a.timingFunction.value.p0.y)
  {
    var value := RawProgress(a, now);
    match a.timingFunction
    case None => Finite(value)
    case Some(curve) => ValueAtTime(curve, value)
  }

  /** Progress depends on the start time, duration and curve only. */
  lemma ProgressIgnoresClock(a: DurationAnimator, clock: Animator.Clock, now: real)
    requires a.duration > 0.0
    ensures RawProgress(a.(clock := clock), now) == RawProgress(a, now)
    ensures Progress(a.(clock := clock), now) == Progress(a, now)
  {
  }

  /** `didStart`: record the start time. */
  function DidStart(a: DurationAnimator, now: real): (r: Step)
    ensures r.animator == a.(startedAt := Some(now)) && r.events == []
  {
    Step(a.(startedAt := Some(now)), [])
  }

  /** `didStop`: the ticker once more with the current progress, then the
      completion block and the delegate with whether raw progress reached 1
      (both judged before the start time is cleared), then clear it. */
  function DidStop(a: DurationAnimator, now: real): (r: Step)
    requires a.duration > 0.0
    ensures r.animator == a.(startedAt := None)
    ensures var finished := RawProgress(a, now) >= 1.0;
            && multiset(r.events)[Ticked(Progress(a, now))] == (if a.hasTicker then 1 else 0)
            && multiset(r.events)[Completed(finished)] == (if a.hasCompleted then 1 else 0)
            && multiset(r.events)[Completed(!finished)] == 0
            && multiset(r.events)[DelegateCompleted(finished)] == (if a.hasDelegate then 1 else 0)
            && |r.events| == (if a.hasTicker then 1 else 0) + (if a.hasCompleted then 1 else 0) + (if a.hasDelegate then 1 else 0)
    ensures a.hasTicker ==> r.events[0] == Ticked(Progress(a, now))
    ensures a.hasCompleted && !a.hasDelegate ==> r.events[|r.events| - 1] == Completed(RawProgress(a, now) >= 1.0)
  {
    var progress := Progress(a, now);
    var finished := RawProgress(a, now) >= 1.0;
    StopCallsCounted(a.hasTicker, a.hasCompleted, a.hasDelegate, progress, finished);
    Step(a.(startedAt := None), StopCalls(a.hasTicker, a.hasCompleted, a.hasDelegate, progress, finished))
  }

  /** The calls `didStop` makes, given which callbacks are set, the progress
      it reports and whether raw progress reached 1. */
  function StopCalls(hasTicker: bool, hasCompleted: bool, hasDelegate: bool, progress: Estimate, finished: bool): seq<Event> {
    IfSet(hasTicker, Ticked(progress)) + IfSet(hasCompleted, Completed(finished)) + IfSet(hasDelegate, DelegateCompleted(finished))
  }

  /** A call made only when its callback is set. */
  function IfSet(isSet: bool, e: Event): (calls: seq<Event>)
    ensures |calls| == (if isSet then 1 else 0)
    ensures isSet ==> calls[0] == e
    ensures forall x {:trigger multiset(calls)[x]} :: multiset(calls)[x] == (if isSet && x == e then 1 else 0)
  {
    if isSet then [e] else []
  }

  /** Each set callback is called once, the ticker first, and the
      completion last unless the delegate follows it. */
  lemma StopCallsCounted(hasTicker: bool, hasCompleted: bool, hasDelegate: bool, progress: Estimate, finished: bool)
    ensures var events := StopCalls(hasTicker, hasCompleted, hasDelegate, progress, finished);
            && multiset(events)[Ticked(progress)] == (if hasTicker then 1 else 0)
            && multiset(events)[Completed(finished)] == (if hasCompleted then 1 else 0)
            && multiset(events)[Completed(!finished)] == 0
            && multiset(events)[DelegateCompleted(finished)] == (if hasDelegate then 1 else 0)
            && |events| == (if hasTicker then 1 else 0) + (if hasCompleted then 1 else 0) + (if hasDelegate then 1 else 0)
            && (hasTicker ==> events[0] == Ticked(progress))
            && (hasCompleted && !hasDelegate ==> events[|events| - 1] == Completed(finished))
  {
    var ticked := IfSet(hasTicker, Ticked(progress));
    var completed := IfSet(hasCompleted, Completed(finished));
    var delegated := IfSet(hasDelegate, DelegateCompleted(finished));
    assert multiset(ticked + completed + delegated) == multiset(ticked) + multiset(completed) + multiset(delegated);
  }

  /** `start()`: a no-op while running; otherwise the clock starts and the
      start time becomes `now`.  Nothing is called back. */
  function Start(a: DurationAnimator, now: real): (r: Step)
    ensures r.events == []
    ensures r.animator.clock.IsRunning()
    ensures a.clock.IsRunning() ==> r.animator == a
    ensures !a.clock.IsRunning() ==> r.animator == a.(clock := r.animator.clock, startedAt := Some(now))
    ensures a.Valid() ==> r.animator.Valid()
  {
    var t := Animator.Start(a.clock);
    if t.hooks == [] then Step(a.(clock := t.clock), []) else DidStart(a.(clock := t.clock), now)
  }

  /** `stop()`: a no-op while stopped; otherwise the clock stops and
      `didStop` runs (final ticker call, completion, delegate). */
  function Stop(a: DurationAnimator, now: real): (r: Step)
    requires a.duration > 0.0
    ensures !r.animator.clock.IsRunning()
    ensures !a.clock.IsRunning() ==> r == Step(a, [])
    ensures a.clock.IsRunning() ==> r.animator == a.(clock := r.animator.clock, startedAt := None)
    ensures a.clock.IsRunning() ==> r.events == DidStop(a, now).events
    ensures a.Valid() ==> r.animator.Valid()
  {
    var t := Animator.Stop(a.clock);
    if t.hooks == [] then Step(a.(clock := t.clock), [])
    else
      DidStopIgnoresClock(a, t.clock, now);
      DidStop(a.(clock := t.clock), now)
  }

  /** `didStop` makes the same calls whatever the clock's state. */
  lemma DidStopIgnoresClock(a: DurationAnimator, clock: Animator.Clock, now: real)
    requires a.duration > 0.0
    ensures DidStop(a.(clock := clock), now).events == DidStop(a, now).events
  {
    ProgressIgnoresClock(a, clock, now);
  }

  /** `restart()`: stop, then start again at `now`; the duration, curve,
      callbacks and `repeats` flag are kept. */
  function Restart(a: DurationAnimator, now: real): (r: Step)
    requires a.duration > 0.0
    ensures r.animator.clock.IsRunning() && r.animator.startedAt == Some(now)
    ensures r.animator == a.(clock := r.animator.clock, startedAt := Some(now))
    ensures a.clock.IsRunning() ==> r.events == DidStop(a, now).events
    ensures !a.clock.IsRunning() ==> r.events == []
    ensures a.Valid() ==> r.animator.Valid()
  {
    var stopped := Stop(a, now);
    var started := Start(stopped.animator, now);
    assert stopped.events + started.events == stopped.events;
    Step(started.animator, stopped.events + started.events)
  }

  /** The calls one tick makes before it decides whether to stop. */
  function TickCalls(a: DurationAnimator, progress: Estimate): seq<Event> {
    IfSet(a.hasTicker, Ticked(progress)) + IfSet(a.hasDelegate, DelegateTicked(progress))
  }

  /** `tick()`: nothing before a start.  Otherwise the ticker and delegate get
      the current progress; then, if raw progress has reached 1, the animator
      restarts when it repeats and stops otherwise.  The three outcomes are
      spelled out by `TickBeforeEnd`, `TickAtEnd` and `TickAtEndRepeating`. */
  function Tick(a: DurationAnimator, now: real): (r: Step)
    requires a.Valid()
    ensures r.animator.Valid()
    ensures a.startedAt.None? ==> r == Step(a, [])
  {
    if a.startedAt.None? then Step(a, [])
    else
      var progress := Progress(a, now);
      var calls := TickCalls(a, progress);
      if RawProgress(a, now) >= 1.0 then
        var after := if a.repeats then Restart(a, now) else Stop(a, now);
        Step(after.animator, calls + after.events)
      else
        Step(a, calls)
  }

  /** A tick before the duration has elapsed keeps the animator running with
      its start time, calls the ticker once and completes nothing. */
  lemma TickBeforeEnd(a: DurationAnimator, now: real)
    requires a.Valid() && a.startedAt.Some? && RawProgress(a, now) < 1.0
    ensures var r := Tick(a, now);
            && r.animator == a
            && multiset(r.events)[Ticked(Progress(a, now))] == (if a.hasTicker then 1 else 0)
            && multiset(r.events)[Completed(true)] == 0
            && multiset(r.events)[Completed(false)] == 0
            && |r.events| == (if a.hasTicker then 1 else 0) + (if a.hasDelegate then 1 else 0)
            && (a.hasTicker ==> r.events[0] == Ticked(Progress(a, now)))
  {
  }

  /** A tick once the duration has elapsed, not repeating: the animator ends
      stopped with its start time cleared and everything else kept, having called the ticker twice (in
      `tick`, then in `didStop`) and completed once with "finished", last. */
  lemma TickAtEnd(a: DurationAnimator, now: real)
    requires a.Valid() && a.startedAt.Some? && RawProgress(a, now) >= 1.0 && !a.repeats
    ensures var r := Tick(a, now);
            && !r.animator.clock.IsRunning()
            && r.animator.startedAt.None?
            && r.animator == a.(clock := r.animator.clock, startedAt := None)
            && multiset(r.events)[Ticked(Progress(a, now))] == (if a.hasTicker then 2 else 0)
            && multiset(r.events)[Completed(true)] == (if a.hasCompleted then 1 else 0)
            && multiset(r.events)[Completed(false)] == 0
            && (a.hasCompleted && !a.hasDelegate ==> |r.events| > 0 && r.events[|r.events| - 1] == Completed(true))
  {
    var p := Progress(a, now);
    TickAtEndUnfolds(a, now);
    assert DidStop(a, now).events == StopCalls(a.hasTicker, a.hasCompleted, a.hasDelegate, p, true);
    EndOfTickCounted(a, p);
  }

  /** The calls of a tick that ends the animation: its own calls, then those
      of a `didStop` that reports "finished".  The ticker runs twice and the
      completion once, last unless the delegate follows it. */
  lemma EndOfTickCounted(a: DurationAnimator, p: Estimate)
    ensures var events := TickCalls(a, p) + StopCalls(a.hasTicker, a.hasCompleted, a.hasDelegate, p, true);
            && multiset(events)[Ticked(p)] == (if a.hasTicker then 2 else 0)
            && multiset(events)[Completed(true)] == (if a.hasCompleted then 1 else 0)
            && multiset(events)[Completed(false)] == 0
            && (a.hasCompleted && !a.hasDelegate ==> |events| > 0 && events[|events| - 1] == Completed(true))
  {
    var calls := TickCalls(a, p);
    var stops := StopCalls(a.hasTicker, a.hasCompleted, a.hasDelegate, p, true);
    StopCallsCounted(a.hasTicker, a.hasCompleted, a.hasDelegate, p, true);
    assert multiset(calls + stops) == multiset(calls) + multiset(stops);
    assert multiset(calls)[Ticked(p)] == (if a.hasTicker then 1 else 0);
    assert multiset(calls)[Completed(true)] == 0 && multiset(calls)[Completed(false)] == 0;
  }

  /** At the end a tick is its calls followed by the stop's or restart's. */
  lemma TickAtEndUnfolds(a: DurationAnimator, now: real)
    requires a.Valid() && a.startedAt.Some? && RawProgress(a, now) >= 1.0
    ensures var after := if a.repeats then Restart(a, now) else Stop(a, now);
            Tick(a, now) == Step(after.animator, TickCalls(a, Progress(a, now)) + after.events)
  {
  }

  /** A tick once the duration has elapsed, repeating: the ticker is called
      twice (in `tick`, then in `didStop`), the animator completes once with
      "finished" and runs again from `now`, keeping its duration, curve,
      callbacks and `repeats` flag, so it goes on repeating. */
  lemma TickAtEndRepeating(a: DurationAnimator, now: real)
    requires a.Valid() && a.startedAt.Some? && RawProgress(a, now) >= 1.0 && a.repeats
    ensures var r := Tick(a, now);
            && r.animator.clock.IsRunning()
            && r.animator.startedAt == Some(now)
            && r.animator == a.(clock := r.animator.clock, startedAt := Some(now))
            && multiset(r.events)[Ticked(Progress(a, now))] == (if a.hasTicker then 2 else 0)
            && multiset(r.events)[Completed(true)] == (if a.hasCompleted then 1 else 0)
            && multiset(r.events)[Completed(false)] == 0
  {
    var p := Progress(a, now);
    TickAtEndUnfolds(a, now);
    assert DidStop(a, now).events == StopCalls(a.hasTicker, a.hasCompleted, a.hasDelegate, p, true);
    EndOfTickCounted(a, p);
  }

  /** Starting and at once stopping (before the duration has elapsed) calls
      the ticker once and completes once, reporting "not finished". */
  lemma StartThenStop(a: DurationAnimator, startAt: real, now: real)
    requires a.Valid() && !a.clock.IsRunning() && a.hasTicker && a.hasCompleted
    requires startAt <= now < startAt + a.duration
    ensures var started := Start(a, startAt);
            var stopped := Stop(started.animator, now);
            && !stopped.animator.clock.IsRunning()
            && stopped.animator.startedAt.None?
            && multiset(started.events + stopped.events)[Completed(false)] == 1
            && multiset(started.events + stopped.events)[Completed(true)] == 0
            && multiset(started.events + stopped.events)[Ticked(Progress(started.animator, now))] == 1
  {
    var started := Start(a, startAt);
    assert RawProgress(started.animator, now) < 1.0;
  }
}
