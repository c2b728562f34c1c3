# Pull-to-refresh banner and frame animators, modelled in Dafny

This project models the animation and state core of TestScrollView, an iOS
pull-to-refresh experiment. It has five parts:

- **Range interpolation** (`RangeAnimation`). `from + (to - from) * point` over
  Double, CGFloat and rounded Int, with a `reversed` flag that swaps the ends.
  The point is never clamped.
- **Frame clock** (`Animator`, `DisplayLinkTick`). An animator runs exactly while it
  holds a display link. `start` and `stop` are idempotent and run the
  `didStart` / `didStop` hooks once, after the clock has flipped. The base
  class's `tick` is a fatal fault.
- **Timing curve** (`TimingFunction`). The power-basis coefficients of a cubic
  Bezier, the capped Newton-Raphson loop of `rootOfCubic`, and
  `value(atTime:)`.
- **Duration and linear animators** (`DurationAnimator`, `LinearAnimator`).
  Elapsed time becomes raw progress, which is optionally eased. Each tick
  reports the progress. A duration animator stops or restarts once raw
  progress reaches 1. Stopping makes a final ticker call and then the
  completion call.
- **Banner controller** (`BannerController`). Scroll samples resize the header.
  Releasing a drag past the desired height opens the banner.
  `beginRefreshing` / `endRefreshing` move the top inset and start the open
  and close animations.

Everything is pure functions over immutable datatypes. The callbacks the
source makes are returned in an event log: ticker and completion calls,
`expanded(by:)`, `beginRefreshing()` and `endRefreshing()`. The wall clock is
a `now: real` parameter. Display-link ticks, scroll samples and `UIView.animate`
completions are separate input events. All arithmetic is exact (`real`).

A few facts about the code are easy to misread:

- The Newton loop runs up to 11 steps (`y <= 10`).
- The open animation's ticker only calls `expanded(by:)`. It writes neither the
  frame nor the inset.
- There is no intermediate relaxing state and no bounce suppression.
- The release rule uses the offset of the release sample.

## Model

| member | source | states |
|---|---|---|
| RangeAnimation.Lerp | TestScrollView/animator/Range+Animation.swift:16-17 | the walk from `from` to `to` is at `from` for point 0 and at `to` for point 1; for points in [0, 1] it stays between them; beyond 1 it overshoots `to` |
| RangeAnimation.Double | TestScrollView/animator/Range+Animation.swift:12-18 | point 0 gives `min` and point 1 gives `max`, swapped when reversed; with `min <= max` and a point in [0, 1] the result lies in [min, max]; a point above 1 passes the `to` end |
| RangeAnimation.ReversedIsMirrored | TestScrollView/animator/Range+Animation.swift:13-17 | the reversed value at `p` is the unreversed value at `1 - p` |
| RangeAnimation.Round | TestScrollView/animator/Range+Animation.swift:49 | `round` gives the nearest integer, with halves going away from zero (within 1/2, ties pinned by sign) |
| RangeAnimation.Int | TestScrollView/animator/Range+Animation.swift:44-49 | exactly `from` at 0 and `to` at 1; the nearest whole number to the real interpolation, with a tie going away from `from` (up when the walk is at or above `from`, down below it); inside [min, max] for points in [0, 1] |
| RangeAnimation.CGFloat | TestScrollView/animator/Range+Animation.swift:72-78 | computes the same value as the Double variant |
| RangeAnimation.DoubleIn | TestScrollView/animator/Range+Animation.swift:20-42 | the Range / ClosedRange forms pass `lowerBound`/`upperBound` as `min`/`max`, so for points in [0, 1] the result stays between `lowerBound` and `upperBound` inclusive; for a half-open `Range`, point 1 gives the `upperBound` the range excludes |
| RangeAnimation.IntIn | TestScrollView/animator/Range+Animation.swift:51-69 | the same forwarding for Int ranges: for points in [0, 1] the result stays between `lowerBound` and `upperBound` inclusive; for a half-open `Range`, point 1 gives the `upperBound` the range excludes |
| RangeAnimation.CGFloatIn | TestScrollView/animator/Range+Animation.swift:80-99 | the same forwarding for CGFloat ranges, equal to the Double interpolation |
| Animator.New | TestScrollView/animator/Animator.swift:15-21 | a fresh animator has no display link, so it is not running |
| Animator.Start | TestScrollView/animator/Animator.swift:23-33 | starting a running clock changes nothing and runs no hook; otherwise it installs an unpaused 60 fps link and asks for `didStart` exactly once; afterwards the clock is running |
| Animator.Stop | TestScrollView/animator/Animator.swift:38-47 | stopping a stopped clock changes nothing; otherwise the link is dropped and `didStop` is asked for exactly once; afterwards the clock is not running |
| Animator.RunningFollowsLastCall | TestScrollView/animator/Animator.swift:19-47 | `isRunning` (a display link is present) after any sequence of `start()` / `stop()` calls is true exactly when the last call was `start()`, and unchanged when there were none |
| Animator.StartStopIdempotent | TestScrollView/animator/Animator.swift:23-47 | a second start and a second stop are no-ops; start followed by stop brings a fresh clock back to its initial state |
| DisplayLinkTick.Tick | TestScrollView/animator/Animator.swift:52-59 | a display-link tick faults (unimplemented) exactly for the base class; a duration tick keeps the animator valid; a linear tick leaves the animator as it was |
| TimingFunction.Coefficients | TestScrollView/animator/Animator.swift:98-108 | the power-basis cubic of one coordinate is the first control value at t = 0 and the last at t = 1, with end slopes 3(q1-q0) and 3(q3-q2) |
| TimingFunction.CoefficientsAreBezier | TestScrollView/animator/Animator.swift:98-108 | for every t the power-basis cubic equals the Bernstein form of the cubic Bezier |
| TimingFunction.DerivativeIsSlope | TestScrollView/animator/Animator.swift:130-137 | `cubicDerivativeValue` is the linear term of the exact Taylor expansion of `cubicFunctionValue` |
| TimingFunction.CubicValue | TestScrollView/animator/Animator.swift:130-132 | `cubicFunctionValue` is the constant term at 0 and the sum of the four coefficients at 1 |
| TimingFunction.CubicDerivative | TestScrollView/animator/Animator.swift:134-137 | `cubicDerivativeValue` is the linear coefficient at 0 and 3a + 2b + c at 1 |
| TimingFunction.XCubic | TestScrollView/animator/Animator.swift:98-101 | the x-cubic is `cp0.x - x` at 0 and `cp3.x - x` at 1, and everywhere it is the x-coordinate minus `x` |
| TimingFunction.YCubic | TestScrollView/animator/Animator.swift:105-108 | the y-cubic is `cp0.y` at 0 and `cp3.y` at 1 |
| TimingFunction.NewtonStep | TestScrollView/animator/Animator.swift:124 | a finite step with a nonzero slope moves by value / slope; a zero slope or a non-finite iterate leaves the reals |
| TimingFunction.NewtonLoop | TestScrollView/animator/Animator.swift:121-126 | each iteration is one Newton step; the loop stops at the first count whose test fails, never after count 11, and returns that iterate |
| TimingFunction.RootOfCubic | TestScrollView/animator/Animator.swift:113-128 | the result is the reference iterate at the step count; the loop test held before every step taken and fails at the end; at most 11 steps |
| TimingFunction.RootFromOne | TestScrollView/animator/Animator.swift:115-122 | with start point 1 (the initial `lastX`) no step runs and the result is 1 |
| TimingFunction.RootStopsWhenClose | TestScrollView/animator/Animator.swift:122 | when the loop stops before its cap on finite values, the last two iterates are within 1e-8 |
| TimingFunction.RootFromZero | TestScrollView/animator/Animator.swift:95-128 | for a curve starting at x = 0 with a nonzero start slope, input 0 stops after one step at parameter 0 |
| TimingFunction.ValueAtTime | TestScrollView/animator/Animator.swift:95-111 | `value(atTime: 1)` is `cp3.y`; `value(atTime: 0)` is `cp0.y` when `cp0.x = 0` and the start slope is nonzero |
| DurationAnimator.New | TestScrollView/animator/DurationAnimator.swift:68-76 | a new duration animator is stopped, has no start time, does not repeat and has no delegate |
| DurationAnimator.RawProgress | TestScrollView/animator/DurationAnimator.swift:49-55 | 0 before a start; otherwise progress times duration is the elapsed time (unbounded), and it reaches 1 exactly when the duration has elapsed |
| DurationAnimator.Progress | TestScrollView/animator/DurationAnimator.swift:57-63 | with no timing curve it is raw progress; with a curve it is the curve's end value at raw progress 1, and its start value at raw progress 0 when the curve starts at x = 0 with a nonzero start slope |
| DurationAnimator.DidStart | TestScrollView/animator/DurationAnimator.swift:98-100 | the start time becomes `now` and nothing is called |
| DurationAnimator.DidStop | TestScrollView/animator/DurationAnimator.swift:102-117 | the ticker is called once with the current progress, first; completion and delegate each get "raw progress >= 1", judged before the start time is cleared; then the start time is cleared |
| DurationAnimator.StopCallsCounted | TestScrollView/animator/DurationAnimator.swift:102-113 | the stop's calls contain each set callback exactly once and no completion with the other flag; the ticker comes first and the completion last unless the delegate follows |
| DurationAnimator.Start | TestScrollView/animator/DurationAnimator.swift:98-100 | starting a stopped animator records `startedAt = now` and calls nothing; starting a running one changes nothing; validity is kept |
| DurationAnimator.Stop | TestScrollView/animator/DurationAnimator.swift:102-113 | stopping a running animator clears its start time and makes exactly the calls of `didStop` on the animator as it was; a stopped one is unchanged; validity is kept |
| DurationAnimator.Restart | TestScrollView/animator/DurationAnimator.swift:119-122 | a restart ends running with `startedAt = now`, having made exactly the calls of the stop's `didStop` (none when it was not running) and none for the start; the duration, curve, callbacks and `repeats` flag are kept |
| DurationAnimator.Tick | TestScrollView/animator/DurationAnimator.swift:78-96 | a tick before any start does nothing; every tick keeps the animator valid |
| DurationAnimator.TickBeforeEnd | TestScrollView/animator/DurationAnimator.swift:82-96 | below raw progress 1 a tick calls the ticker once, completes nothing and leaves the animator (and its start time) unchanged |
| DurationAnimator.TickAtEnd | TestScrollView/animator/DurationAnimator.swift:78-113 | at raw progress >= 1 without repeating, the ticker runs twice (tick, then `didStop`) and `completed(true)` runs once, last when there is no delegate; the animator ends stopped with no start time and is otherwise unchanged |
| DurationAnimator.TickAtEndRepeating | TestScrollView/animator/DurationAnimator.swift:78-122 | at raw progress >= 1 when repeating, the ticker runs twice and `completed(true)` once; the animator runs again with `startedAt = now` and otherwise unchanged, so it keeps repeating |
| DurationAnimator.EndOfTickCounted | TestScrollView/animator/DurationAnimator.swift:82-113 | a tick that ends the animation calls the ticker twice and `completed(true)` once, last unless the delegate follows, and never `completed(false)` |
| DurationAnimator.StartThenStop | TestScrollView/animator/DurationAnimator.swift:98-113 | starting then stopping before the duration calls the ticker once and `completed(false)` once |
| LinearAnimator.New | TestScrollView/animator/LinearAnimator.swift:29-32 | a new linear animator is not running and has no delegate |
| LinearAnimator.Start | TestScrollView/animator/Animator.swift:23-33 | the inherited start runs the animator and keeps its ticker and delegate |
| LinearAnimator.Stop | TestScrollView/animator/Animator.swift:38-47 | the inherited stop halts the animator and keeps its ticker and delegate |
| LinearAnimator.Tick | TestScrollView/animator/LinearAnimator.swift:35-40 | a tick calls the ticker once when set and then the delegate once when set, and leaves the animator unchanged |
| LinearAnimator.FramesNeverStop | TestScrollView/animator/LinearAnimator.swift:15-18 | over any mix of `start()`, `stop()` and display-link frames the clock ends where the `start()`/`stop()` calls alone take it: a linear animator has no duration and never stops itself; ticker and delegate are kept |
| BannerController.New | TestScrollView/api/BannerController.swift:75-81 | after installation the banner is closed, not dragged, with a zero-height header and nothing animating |
| BannerController.ActualOffset | TestScrollView/api/BannerController.swift:111 | the pull is positive exactly when the content sits below the safe area's edge, and zero exactly at it |
| BannerController.YPos | TestScrollView/api/BannerController.swift:114 | `yPos + actualOffset == 0`: a header placed at `yPos`, as tall as the pull, ends where the content begins |
| BannerController.TickerValue | TestScrollView/api/BannerController.swift:175-177 | the ticker's value is the start end of its range at 0 and the other end at 1, and stays in the range in between |
| BannerController.TickerDelta | TestScrollView/api/BannerController.swift:175-177 | the ratio handed to `expanded(by:)` times the desired height is the ticker's value; a non-finite progress stays non-finite |
| BannerController.OpenTicker | TestScrollView/api/BannerController.swift:169-180 | the open ticker gives the header's height at progress 0 and the desired height at 1, stays between them, and its completion reports 1 |
| BannerController.CloseTicker | TestScrollView/api/BannerController.swift:206-216 | the close ticker gives the header's height at 0 and 0 at 1, stays between them, and its completion reports 0 |
| BannerController.StartAnimation | TestScrollView/api/BannerController.swift:172-181 | the 0.3 s animator is started at `now` with the ease-in-ease-out curve, a ticker and a completion |
| BannerController.BeginRefreshing | TestScrollView/api/BannerController.swift:150-189 | a no-op when open or with no controller; otherwise it opens at once, adds the desired height to the inset, starts the open animation and leaves `beginRefreshing()` to the completion; nothing is called on the controller yet |
| BannerController.EndRefreshingAsWritten | TestScrollView/api/BannerController.swift:191-225 | a no-op when closed; otherwise it calls `endRefreshing()` once at once, subtracts the desired height, sets the header height to 0 and starts the close animation; the state stays open until the completion |
| BannerController.EndRefreshing | TestScrollView/api/BannerController.swift:191-225 | the corrected call: the same effects, but also a no-op while a close is in flight |
| BannerController.OpenAnimationDone | TestScrollView/api/BannerController.swift:185-187 | the open completion calls `beginRefreshing()` on the controller exactly once |
| BannerController.CloseAnimationDone | TestScrollView/api/BannerController.swift:222-224 | the close completion sets the state to closed |
| BannerController.Update | TestScrollView/api/BannerController.swift:106-148 | open: the height is max(pull, desired), so at least desired, and the ratio is at least 1; closed and pulled: the height is the pull and `expanded(pull / desired)` fires; closed and not pulled: nothing changes; a closed banner opens iff it was dragged, is no longer dragging and the pull reaches the desired height |
| BannerController.ObserveValue | TestScrollView/api/BannerController.swift:83-101 | a sample from a non-interactive or hidden scroll view changes no frame, state or inset, calls nothing and keeps `wasDragged`; otherwise `wasDragged` becomes the sample's drag flag |
| BannerController.AnimationFrame | TestScrollView/api/BannerController.swift:172-180 | an animator tick only reports to the controller (header, inset and state unchanged); an index past the running animators does nothing; the animator is kept before the end of its duration and dropped at the end |
| BannerController.NotesFor | TestScrollView/api/BannerController.swift:175-180 | an animator's calls become at most as many calls on the controller, each an `expanded(by:)` |
| BannerController.FrameNotes | TestScrollView/api/BannerController.swift:172-180 | before the end a tick leaves its animator as it was and reports the ticker's ratio once; at the end the last report is the completion's final ratio (1 open, 0 close) |
| BannerController.Step | TestScrollView/api/BannerController.swift:83-225 | every event keeps the banner valid and consistent, and moves the inset by exactly the change in the banner's contribution, with the corrected `endRefreshing()` (see Findings) |
| BannerController.Run | TestScrollView/api/BannerController.swift:83-225 | any sequence of events keeps the banner valid and keeps its refreshable controller |
| BannerController.InsetTracksState | TestScrollView/api/BannerController.swift:150-225 | after any sequence of events the inset is the resting inset, plus the desired height exactly while open and not closing, with the corrected `endRefreshing()` (see Findings) |
| BannerController.BeginRefreshingIdempotent | TestScrollView/api/BannerController.swift:151-161 | a second `beginRefreshing()` before the first completes does nothing: no second animator and no second `beginRefreshing()` |
| BannerController.EndRefreshingIdempotent | TestScrollView/api/BannerController.swift:191-192 | with the corrected guard, a second `endRefreshing()` before the close completes does nothing |
| BannerController.EndRefreshingTwiceAsWritten | TestScrollView/api/BannerController.swift:191-224 | with the code as written, two `endRefreshing()` calls before completion call the controller twice and leave the inset one desired height too low |
| BannerController.DragKeepsClosed | TestScrollView/api/BannerController.swift:126-146 | dragging a closed banner down reports pull / desired and opens nothing while the drag lasts |
| BannerController.ReleaseOpensPastDesiredHeight | TestScrollView/api/BannerController.swift:143-146 | releasing a drag opens the banner iff the pull reaches the desired height; below it, nothing starts |
| BannerController.SettleAtDesiredHeight | TestScrollView/api/BannerController.swift:116-124 | an open banner whose content rests at the desired height has a header of exactly that height, with ratio 1 |
| BannerController.PullScenarios | TestScrollView/api/BannerController.swift:97-146 | desired 100: drag to 150 and release opens, then `beginRefreshing()` is called once and the header settles at 100; drag to 50 and release stays closed with nothing started |
| BannerController.EndRefreshingCloses | TestScrollView/api/BannerController.swift:191-224 | from open, `endRefreshing()` calls the controller once and starts the close ticker from the header's height; the close completion ends in the closed state |

## Left out

- Key-value observation plumbing is not modelled: registration, the context token, and the key-path and object-type guards (BannerController.swift:59-92). The same goes for `addSubview`, `removeFromSuperview`, `bringSubviewToFront` and the `refreshController` `didSet` reinstall. Samples arrive as inputs from the one installed scroll view, and the controller never changes after installation.
- The controller's `desiredHeight` is a get-only protocol property, which the source reads afresh in `update` (BannerController.swift:108), `beginRefreshing` (155) and `endRefreshing` (196). The model takes it to be constant. `BannerController.InsetTracksState` and `BannerController.EndRefreshingTwiceAsWritten` depend on this: `beginRefreshing` adds the height it read and `endRefreshing` subtracts the height it read, so a controller whose height changed in between would leave the inset off by the difference.
- The scroll view is a weak reference in the source. The model assumes it is always present.
- `UIView.animate` timing is not modelled. The writes in its block take effect at once, and its completion block is a later input event.
- `CADisplayLink`, `RunLoop` and `Date()` are not modelled. Each event carries one `now`. The source reads `Date()` separately for the progress and for the end-of-tick check, which can differ by a few microseconds.
- Reading control points out of `CAMediaTimingFunction` (Animator.swift:68-93) and the named presets (DurationAnimator.swift:24-40) are foreign calls. The four control points are parameters instead.
- IEEE-754 behaviour is not modelled: rounding, infinities and NaN. Arithmetic is exact, and a Newton step that divides by a zero slope becomes `NonFinite`. Every later step keeps it `NonFinite`, and in the model the loop stops at it. In floating point an infinite iterate can take one more step, but the result is non-finite either way.
- TimingFunction.RootOfCubic makes no claim about how close the result is to a true root of the cubic.
- RangeAnimation.DoubleIn, RangeAnimation.IntIn and RangeAnimation.CGFloatIn: require `lowerBound <= upperBound`, which Swift's `Range` and `ClosedRange` already guarantee when they are built.
- RangeAnimation.Int: uses unbounded integers. The trap that Swift's `Int(Double)` raises on overflow is not modelled.
- DurationAnimator.RawProgress, DurationAnimator.New and DurationAnimator.DurationAnimator.Valid: require a positive duration. In the source a zero duration yields an IEEE infinity or NaN, and a negative one gives a negative raw progress, so the animator never completes on its own; the model covers neither. `Progress`, `DidStop`, `Stop` and `Restart` carry the same requires, and `Tick` gets it through `Valid`.
- BannerController.Update, BannerController.Banner.Valid, BannerController.RangeTicker.Valid and BannerController.New: require a positive desired height, because the source divides by it in `update` and in the ticker. `Banner.Valid` carries the restriction, so `New` and every banner member that requires `b.Valid()` exclude a zero or negative `desiredHeight`, which the source's `install`, `beginRefreshing` and `endRefreshing` accept.
- Ticker, completion and delegate closures receive `self` and could call back into the animator. The model records each call as an event and does not run the closure. The banner's own closures never re-enter.
- The delegate protocols are reduced to "called once with this value" events. The `print` calls are not modelled.
- The trailing `guard rawProgress >= 1.0, repeats` in `didStop` (DurationAnimator.swift:114-116) returns on both paths, so it has no effect and is not modelled.
- MainTableViewController.swift (table plumbing and an older, hard-coded version of the drag rule) and TestView.swift (presentation transforms) are not part of this model.

## Findings

| source | as written | input that shows it | evidently intended | confidence | as-written member | corrected member |
|---|---|---|---|---|---|---|
| TestScrollView/api/BannerController.swift:191-224 | `endRefreshing()` checks only that the state is open. The state becomes closed only in the completion of the 0.3 s inset animation. | An open banner gets `endRefreshing()` twice within 0.3 s. The controller's `endRefreshing()` runs twice, the inset loses twice the desired height, and after the completion the inset rests one desired height too low. | A second call while the close is in flight is ignored. `beginRefreshing()` avoids the same re-entry by setting its state at once (lines 159-161). | medium; not executed | BannerController.EndRefreshingTwiceAsWritten | BannerController.EndRefreshingIdempotent |

`BannerController.EndRefreshingAsWritten` models the code as written.
`BannerController.EndRefreshing` adds the missing guard. The event loop
(`BannerController.Step`) uses the corrected version, and
`BannerController.InsetTracksState` proves the inset invariant for it.
