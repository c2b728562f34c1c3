/** The pull-to-refresh banner (BannerController.swift).
    The controller watches scroll samples of one scroll view and drives the
    refreshable controller's header view: while closed the header follows the
    pull; releasing a drag past the desired height opens it; while open the
    header never shrinks below the desired height.  `beginRefreshing` and
    `endRefreshing` adjust the scroll view's top inset and start a duration
    animator whose ticker reports the expansion.  The completion blocks of
    `UIView.animate` arrive later as events of their own, and every running
    animator's display link fires as an `AnimationFrame` event. */
module BannerController {
  import opened Wrappers
  import opened TimingFunction
  import RangeAnimation
  import DurationAnimator

  datatype BannerState = Open | Closed {
    /** `isOpen`. */
    predicate IsOpen() {
      this == Open
    }
  }

  datatype Rect = Rect(x: real, y: real, width: real, height: real)

  /** The refreshable controller, as far as the banner reads it. */
  datatype Refreshable = Refreshable(desiredHeight: real)

  /** The scroll view: the geometry and flags it reports, and the top inset
      the banner adjusts. */
  datatype ScrollView = ScrollView(
    contentOffsetY: real,
    safeAreaTop: real,
    boundsWidth: real,
    contentInsetTop: real,
    isDragging: bool,
    isUserInteractionEnabled: bool,
    isHidden: bool)

  /** A change notification: what the scroll view reports after a move. */
  datatype Sample = Sample(
    contentOffsetY: real,
    safeAreaTop: real,
    boundsWidth: real,
    isDragging: bool,
    isUserInteractionEnabled: bool,
    isHidden: bool)

  /** A call on the refreshable controller. */
  datatype Notification =
    | Expanded(delta: Estimate)   // expanded(by:)
    | BeginCalled                 // beginRefreshing()
    | EndCalled                   // endRefreshing()

  /** What an animator's ticker closure captured: the closed range it walks,
      its direction, the desired height it divides by, and the ratio its
      completion block reports. */
  datatype RangeTicker = RangeTicker(lower: real, upper: real, reversed: bool, desiredHeight: real, finalDelta: real) {
    predicate Valid() {
      lower <= upper && desiredHeight > 0.0
    }
  }

  /** A running duration animator and its ticker. */
  datatype Animation = Animation(animator: DurationAnimator.DurationAnimator, ticker: RangeTicker) {
    predicate Valid() {
      && animator.Valid()
      && animator.clock.IsRunning()
      && animator.hasTicker && animator.hasCompleted && !animator.hasDelegate && !animator.repeats
      && ticker.Valid()
    }
  }

  datatype Banner = Banner(
    refreshState: BannerState,
    wasDragged: bool,
    refreshController: Option<Refreshable>,
    scrollView: ScrollView,
    frame: Rect,                  // the refresh view's frame
    curve: ControlPoints,         // the ease-in-ease-out timing curve
    animations: seq<Animation>,   // animators kept alive by their display links
    pendingOpen: nat,             // open completions not yet delivered
    pendingClose: nat)            // close completions not yet delivered
  {
    predicate Valid() {
      && (refreshController.Some? ==> refreshController.value.desiredHeight > 0.0)
      && frame.height >= 0.0
      && forall i :: 0 <= i < |animations| ==> animations[i].Valid()
    }
  }

  /** The banner after an event, and the calls made on the refreshable controller. */
  datatype Output = Output(banner: Banner, notes: seq<Notification>)

  /** How long the open and close animations run, in seconds. */
  const AnimationDuration: real := 0.3

  function Max(x: real, y: real): real {
    if x >= y then x else y
  }

  function Min(x: real, y: real): real {
    if x <= y then x else y
  }

  /** How far the content is pulled down below the safe area: the height the
      header gets.  It is positive exactly when the content sits lower than
      the safe area's edge. */
  function ActualOffset(sv: ScrollView): (pull: real)
    ensures pull > 0.0 <==> sv.contentOffsetY < -sv.safeAreaTop
    ensures pull == 0.0 <==> sv.contentOffsetY == -sv.safeAreaTop
  {
    -sv.contentOffsetY - sv.safeAreaTop
  }

  /** The y position that places the header at the visible top: a header
      placed there, as tall as the pull, ends exactly where the content
      begins (y = 0). */
  function YPos(sv: ScrollView): (y: real)
    ensures y + ActualOffset(sv) == 0.0
  {
    sv.safeAreaTop + sv.contentOffsetY
  }

  /** After `install(on:)`: closed, not dragged, the header's frame zero. */
  function New(scrollView: ScrollView, refreshController: Option<Refreshable>, curve: ControlPoints): (b: Banner)
    requires refreshController.Some? ==> refreshController.value.desiredHeight > 0.0
    ensures b.Valid() && Consistent(b)
    ensures !b.refreshState.IsOpen() && !b.wasDragged
    ensures b.frame.height == 0.0 && b.animations == []
  {
    Banner(Closed, false, refreshController, scrollView, Rect(0.0, 0.0, 0.0, 0.0), curve, [], 0, 0)
  }

  // ---------------------------------------------------------------------
  // Tickers

  /** The value the ticker puts out at a progress point: the start end of
      the range at 0, the other end at 1, and inside the range in between. */
  function TickerValue(t: RangeTicker, point: real): (v: real)
    requires t.Valid()
    ensures point == 0.0 ==> v == (if t.reversed then t.upper else t.lower)
    ensures point == 1.0 ==> v == (if t.reversed then t.lower else t.upper)
    ensures 0.0 <= point <= 1.0 ==> t.lower <= v <= t.upper
  {
    RangeAnimation.CGFloatIn(RangeAnimation.Closed(t.lower, t.upper), point, t.reversed)
  }

  /** The ratio the ticker hands to `expanded(by:)`: the ticker's value as a
      multiple of the desired height. */
  function TickerDelta(t: RangeTicker, progress: Estimate): (delta: Estimate)
    requires t.Valid()
    ensures progress.NonFinite? ==> delta.NonFinite?
    ensures progress.Finite? ==> delta.Finite? && delta.value * t.desiredHeight == TickerValue(t, progress.value)
  {
    match progress
    case NonFinite => NonFinite
    case Finite(p) => Finite(TickerValue(t, p) / t.desiredHeight)
  }

  /** The open animation's ticker: the range spans the header's height and the
      desired height, reversed when the header is taller, so it runs from the
      header's height at 0 to the desired height at 1; its completion reports
      1. */
  function OpenTicker(height: real, desiredHeight: real): (t: RangeTicker)
    requires height >= 0.0 && desiredHeight > 0.0
    ensures t.Valid() && t.finalDelta == 1.0 && t.desiredHeight == desiredHeight
    ensures TickerValue(t, 0.0) == height
    ensures TickerValue(t, 1.0) == desiredHeight
    ensures forall p :: 0.0 <= p <= 1.0 ==> Min(height, desiredHeight) <= TickerValue(t, p) <= Max(height, desiredHeight)
  {
    RangeTicker(Min(height, desiredHeight), Max(height, desiredHeight), height > desiredHeight, desiredHeight, 1.0)
  }

  /** The close animation's ticker: always reversed over [0, height], so it
      runs from the header's height at 0 down to 0 at 1; its completion
      reports 0. */
  function CloseTicker(height: real, desiredHeight: real): (t: RangeTicker)
    requires height >= 0.0 && desiredHeight > 0.0
    ensures t.Valid() && t.finalDelta == 0.0 && t.desiredHeight == desiredHeight
    ensures TickerValue(t, 0.0) == height
    ensures TickerValue(t, 1.0) == 0.0
    ensures forall p :: 0.0 <= p <= 1.0 ==> 0.0 <= TickerValue(t, p) <= height
  {
    RangeTicker(0.0, height, true, desiredHeight, 0.0)
  }

  /** A `DurationAnimator(duration: 0.3, timingFunction: .easeInEaseOut, ...)`
      with the given ticker, started at `now`. */
  function StartAnimation(curve: ControlPoints, ticker: RangeTicker, now: real): (a: Animation)
    requires ticker.Valid()
    ensures a.Valid() && a.ticker == ticker
    ensures a.animator.startedAt == Some(now) && a.animator.timingFunction == Some(curve)
    ensures a.animator.duration == AnimationDuration
  {
    var created := DurationAnimator.New(AnimationDuration, Some(curve), true, true);
    Animation(DurationAnimator.Start(created, now).animator, ticker)
  }

  // ---------------------------------------------------------------------
  // beginRefreshing / endRefreshing

  /** `beginRefreshing()`: a no-op without a controller or when already open.
      Otherwise the state becomes open at once, the header is placed at the
      visible top keeping its height, the open animation starts, and the
      inset grows by the desired height; `beginRefreshing()` on the
      controller waits for the animation's completion. */
  function BeginRefreshing(b: Banner, now: real): (r: Output)
    requires b.Valid()
    ensures r.banner.Valid()
    ensures r.notes == []
    ensures r.banner.refreshController == b.refreshController && r.banner.curve == b.curve
    ensures b.refreshController.None? || b.refreshState.IsOpen() ==> r.banner == b
    ensures b.refreshController.Some? && !b.refreshState.IsOpen() ==>
            var d := b.refreshController.value.desiredHeight;
            && r.banner.refreshState.IsOpen()
            && r.banner.scrollView == b.scrollView.(contentInsetTop := b.scrollView.contentInsetTop + d)
            && r.banner.frame == Rect(0.0, YPos(b.scrollView), b.scrollView.boundsWidth, b.frame.height)
            && r.banner.animations == b.animations + [StartAnimation(b.curve, OpenTicker(b.frame.height, d), now)]
            && r.banner.pendingOpen == b.pendingOpen + 1
            && r.banner.pendingClose == b.pendingClose
            && r.banner.wasDragged == b.wasDragged
  {
    match b.refreshController
    case None => Output(b, [])
    case Some(controller) =>
      if b.refreshState.IsOpen() then Output(b, [])
      else
        var d := controller.desiredHeight;
        var sv := b.scrollView;
        var height := b.frame.height;
        var animation := StartAnimation(b.curve, OpenTicker(height, d), now);
        Output(b.(refreshState := Open,
                  frame := Rect(0.0, YPos(sv), sv.boundsWidth, height),
                  animations := b.animations + [animation],
                  scrollView := sv.(contentInsetTop := sv.contentInsetTop + d),
                  pendingOpen := b.pendingOpen + 1),
               [])
  }

  /** `endRefreshing()` as written: a no-op without a controller or when the
      state is closed.  Otherwise `endRefreshing()` is called on the
      controller at once, the close animation starts from the header's height,
      the inset shrinks by the desired height and the header's height becomes
      0; the state only becomes closed on the animation's completion. */
  function EndRefreshingAsWritten(b: Banner, now: real): (r: Output)
    requires b.Valid()
    ensures r.banner.Valid()
    ensures r.banner.refreshController == b.refreshController && r.banner.curve == b.curve
    ensures b.refreshController.None? || !b.refreshState.IsOpen() ==> r == Output(b, [])
    ensures b.refreshController.Some? && b.refreshState.IsOpen() ==>
            var d := b.refreshController.value.desiredHeight;
            && r.notes == [EndCalled]
            && r.banner.refreshState == b.refreshState
            && r.banner.scrollView == b.scrollView.(contentInsetTop := b.scrollView.contentInsetTop - d)
            && r.banner.frame.height == 0.0
            && r.banner.animations == b.animations + [StartAnimation(b.curve, CloseTicker(b.frame.height, d), now)]
            && r.banner.pendingClose == b.pendingClose + 1
            && r.banner.pendingOpen == b.pendingOpen
            && r.banner.wasDragged == b.wasDragged
  {
    match b.refreshController
    case None => Output(b, [])
    case Some(controller) =>
      if !b.refreshState.IsOpen() then Output(b, [])
      else
        var d := controller.desiredHeight;
        var sv := b.scrollView;
        var yPos := sv.safeAreaTop + sv.contentOffsetY + sv.contentInsetTop;
        var animation := StartAnimation(b.curve, CloseTicker(b.frame.height, d), now);
        Output(b.(frame := Rect(0.0, yPos, sv.boundsWidth, 0.0),
                  animations := b.animations + [animation],
                  scrollView := sv.(contentInsetTop := sv.contentInsetTop - d),
                  pendingClose := b.pendingClose + 1),
               [EndCalled])
  }

  /** `endRefreshing()`, corrected: also a no-op while a close is already in
      flight, so that the call is idempotent as `beginRefreshing()` is. */
  function EndRefreshing(b: Banner, now: real): (r: Output)
    requires b.Valid()
    ensures r.banner.Valid()
    ensures b.pendingClose > 0 ==> r == Output(b, [])
    ensures b.pendingClose == 0 ==> r == EndRefreshingAsWritten(b, now)
  {
    if b.pendingClose > 0 then Output(b, []) else EndRefreshingAsWritten(b, now)
  }

  /** The completion block of the open `UIView.animate`: `beginRefreshing()`
      on the controller. */
  function OpenAnimationDone(b: Banner): (r: Output)
    ensures b.pendingOpen == 0 ==> r == Output(b, [])
    ensures b.pendingOpen > 0 ==> r.banner == b.(pendingOpen := b.pendingOpen - 1) && r.notes == [BeginCalled]
  {
    if b.pendingOpen == 0 then Output(b, [])
    else Output(b.(pendingOpen := b.pendingOpen - 1), [BeginCalled])
  }

  /** The completion block of the close `UIView.animate`: the state becomes closed. */
  function CloseAnimationDone(b: Banner): (r: Output)
    ensures b.pendingClose == 0 ==> r == Output(b, [])
    ensures b.pendingClose > 0 ==>
            r.banner == b.(pendingClose := b.pendingClose - 1, refreshState := Closed) && r.notes == []
  {
    if b.pendingClose == 0 then Output(b, [])
    else Output(b.(pendingClose := b.pendingClose - 1, refreshState := Closed), [])
  }

  // ---------------------------------------------------------------------
  // Scroll samples

  /** `update(_:in:)` for a controller with desired height `d`.
      - Open: the header takes the pull but never less than `d`, and the
        ratio reported is at least 1.
      - Closed and pulled below the top: the header's height is the pull and
        the ratio is pull / `d`; releasing a drag at or past `d` begins
        refreshing.
      - Closed and not pulled: nothing changes. */
  function Update(b: Banner, now: real): (r: Output)
    requires b.Valid() && b.refreshController.Some?
    ensures r.banner.Valid()
    ensures r.banner.refreshController == b.refreshController && r.banner.curve == b.curve
    ensures r.banner.wasDragged == b.wasDragged && r.banner.pendingClose == b.pendingClose
    ensures var d := b.refreshController.value.desiredHeight;
            var actualOffset := ActualOffset(b.scrollView);
            && (b.refreshState.IsOpen() ==>
                  && r.banner == b.(frame := r.banner.frame)
                  && r.banner.frame == Rect(0.0, YPos(b.scrollView), b.scrollView.boundsWidth, r.banner.frame.height)
                  && r.banner.frame.height >= d
                  && r.banner.frame.height >= actualOffset
                  && (r.banner.frame.height == d || r.banner.frame.height == actualOffset)
                  && r.notes == [Expanded(Finite(r.banner.frame.height / d))]
                  && r.banner.frame.height / d >= 1.0)
            && (!b.refreshState.IsOpen() && actualOffset > 0.0 ==>
                  && r.banner.frame.height == actualOffset
                  && r.banner.frame.y + r.banner.frame.height == 0.0
                  && r.notes == [Expanded(Finite(actualOffset / d))])
            && (!b.refreshState.IsOpen() && actualOffset <= 0.0 ==> r == Output(b, []))
            && (!b.refreshState.IsOpen() ==>
                  (r.banner.refreshState.IsOpen() <==> b.wasDragged && !b.scrollView.isDragging && actualOffset >= d))
            && (!b.refreshState.IsOpen() && r.banner.refreshState.IsOpen() ==>
                  && r.banner.scrollView.contentInsetTop == b.scrollView.contentInsetTop + d
                  && r.banner.pendingOpen == b.pendingOpen + 1)
            && (b.refreshState.IsOpen() || !r.banner.refreshState.IsOpen() ==>
                  r.banner.scrollView == b.scrollView && r.banner.pendingOpen == b.pendingOpen)
  {
    var d := b.refreshController.value.desiredHeight;
    var sv := b.scrollView;
    var actualOffset := ActualOffset(sv);
    var yPos := YPos(sv);
    if b.refreshState.IsOpen() then
      var height := Max(actualOffset, d);
      RatioAtLeastOne(height, d);
      Output(b.(frame := Rect(0.0, yPos, sv.boundsWidth, height)), [Expanded(Finite(height / d))])
    else if actualOffset > 0.0 then
      var height := actualOffset;
      var pulled := b.(frame := Rect(0.0, yPos, sv.boundsWidth, height));
      var notes := [Expanded(Finite(height / d))];
      if b.wasDragged && !sv.isDragging && actualOffset >= d then
        var begun := BeginRefreshing(pulled, now);
        Output(begun.banner, notes + begun.notes)
      else
        Output(pulled, notes)
    else
      Output(b, [])
  }

  /** A height of at least `d` is at least one `d`. */
  lemma RatioAtLeastOne(height: real, d: real)
    requires d > 0.0 && height >= d
    ensures height / d >= 1.0
  {
    assert (height / d) * d == height;
  }

  /** The scroll view after it reports a sample; the inset stays. */
  function Moved(sv: ScrollView, s: Sample): ScrollView {
    sv.(contentOffsetY := s.contentOffsetY, safeAreaTop := s.safeAreaTop, boundsWidth := s.boundsWidth,
        isDragging := s.isDragging, isUserInteractionEnabled := s.isUserInteractionEnabled, isHidden := s.isHidden)
  }

  /** `observeValue(forKeyPath:of:change:context:)`: a sample from a scroll
      view that does not take touches or is hidden is ignored entirely (no
      frame change, no expansion, `wasDragged` kept).  Otherwise the header is
      updated when there is a controller, and `wasDragged` becomes the
      sample's drag flag. */
  function ObserveValue(b: Banner, s: Sample, now: real): (r: Output)
    requires b.Valid()
    ensures r.banner.Valid()
    ensures r.banner.scrollView.contentOffsetY == s.contentOffsetY && r.banner.scrollView.isDragging == s.isDragging
    ensures r.banner.refreshController == b.refreshController && r.banner.curve == b.curve
    ensures r.banner.pendingClose == b.pendingClose
    ensures !s.isUserInteractionEnabled || s.isHidden ==>
            && r.notes == []
            && r.banner.frame == b.frame
            && r.banner.wasDragged == b.wasDragged
            && r.banner.refreshState == b.refreshState
            && r.banner.animations == b.animations
            && r.banner.pendingOpen == b.pendingOpen
            && r.banner.scrollView.contentInsetTop == b.scrollView.contentInsetTop
    ensures s.isUserInteractionEnabled && !s.isHidden ==> r.banner.wasDragged == s.isDragging
    ensures b.refreshState.IsOpen() ==> r.banner.refreshState.IsOpen()
    ensures b.refreshState.IsOpen() || !r.banner.refreshState.IsOpen() ==>
            r.banner.scrollView.contentInsetTop == b.scrollView.contentInsetTop
    ensures b.refreshController.Some? && !b.refreshState.IsOpen() && r.banner.refreshState.IsOpen() ==>
            r.banner.scrollView.contentInsetTop == b.scrollView.contentInsetTop + b.refreshController.value.desiredHeight
  {
    var moved := b.(scrollView := Moved(b.scrollView, s));
    if !(s.isUserInteractionEnabled && !s.isHidden) then
      Output(moved, [])
    else
      var updated := if moved.refreshController.Some? then Update(moved, now) else Output(moved, []);
      Output(updated.banner.(wasDragged := s.isDragging), updated.notes)
  }

  // ---------------------------------------------------------------------
  // Animator frames

  /** The calls on the controller that an animator's events become: a ticker
      call reports the ticker's ratio, a completion reports the final ratio. */
  function NotesFor(t: RangeTicker, events: seq<DurationAnimator.Event>): (notes: seq<Notification>)
    requires t.Valid()
    ensures |notes| <= |events|
    ensures forall i :: 0 <= i < |notes| ==> notes[i].Expanded?
    decreases |events|
  {
    if events == [] then []
    else
      var first := match events[0]
        case Ticked(p) => [Expanded(TickerDelta(t, p))]
        case Completed(_) => [Expanded(Finite(t.finalDelta))]
        case DelegateTicked(_) => []
        case DelegateCompleted(_) => [];
      first + NotesFor(t, events[1..])
  }

  /** Translating a log piecewise is translating it whole. */
  lemma {:induction false} NotesForAppend(t: RangeTicker, xs: seq<DurationAnimator.Event>, ys: seq<DurationAnimator.Event>)
    requires t.Valid()
    ensures NotesFor(t, xs + ys) == NotesFor(t, xs) + NotesFor(t, ys)
    decreases |xs|
  {
    if xs == [] {
      assert xs + ys == ys;
    } else {
      assert (xs + ys)[1..] == xs[1..] + ys;
      NotesForAppend(t, xs[1..], ys);
    }
  }

  /** A log that ends with a completion translates to calls that end with the
      final ratio. */
  lemma NotesForEndsWithCompletion(t: RangeTicker, events: seq<DurationAnimator.Event>)
    requires t.Valid() && |events| > 0 && events[|events| - 1].Completed?
    ensures |NotesFor(t, events)| > 0
    ensures NotesFor(t, events)[|NotesFor(t, events)| - 1] == Expanded(Finite(t.finalDelta))
  {
    var init := events[..|events| - 1];
    var last := events[|events| - 1];
    assert events == init + [last];
    NotesForAppend(t, init, [last]);
    CompletionNote(t, last);
    var notes := NotesFor(t, init) + [Expanded(Finite(t.finalDelta))];
    assert notes[|notes| - 1] == Expanded(Finite(t.finalDelta));
  }

  /** A completion alone translates to the final ratio alone. */
  lemma CompletionNote(t: RangeTicker, e: DurationAnimator.Event)
    requires t.Valid() && e.Completed?
    ensures NotesFor(t, [e]) == [Expanded(Finite(t.finalDelta))]
  {
    assert [e][1..] == [];
  }

  /** One display-link tick of the `index`-th running animator.  Its ticker
      only reports to the controller: the header, the inset and the state stay
      as they are.  Below the end of its duration it reports the ticker's
      ratio once and keeps running; at the end it reports, finishes with the
      completion's final ratio, and is dropped. */
  function AnimationFrame(b: Banner, index: nat, now: real): (r: Output)
    requires b.Valid()
    ensures r.banner.Valid()
    ensures r.banner == b.(animations := r.banner.animations)
    ensures index >= |b.animations| ==> r == Output(b, [])
    ensures index < |b.animations| ==>
            var a := b.animations[index];
            && r.notes == FrameNotes(a, now)
            && (DurationAnimator.RawProgress(a.animator, now) < 1.0 ==> r.banner.animations == b.animations)
            && (DurationAnimator.RawProgress(a.animator, now) >= 1.0 ==>
                  r.banner.animations == b.animations[..index] + b.animations[index + 1..])
  {
    if index >= |b.animations| then Output(b, [])
    else
      var a := b.animations[index];
      var notes := FrameNotes(a, now);
      if DurationAnimator.RawProgress(a.animator, now) < 1.0 then
        Output(b, notes)
      else
        DropKeepsValid(b.animations, index);
        Output(b.(animations := b.animations[..index] + b.animations[index + 1..]), notes)
  }

  /** The calls on the controller that one tick of an animation makes.
      Before the end the tick leaves the animator as it was and reports the
      ticker's ratio once; at the end the last report is the final ratio. */
  function FrameNotes(a: Animation, now: real): (notes: seq<Notification>)
    requires a.Valid()
    ensures DurationAnimator.RawProgress(a.animator, now) < 1.0 ==>
            && DurationAnimator.Tick(a.animator, now).animator == a.animator
            && notes == [Expanded(TickerDelta(a.ticker, DurationAnimator.Progress(a.animator, now)))]
    ensures DurationAnimator.RawProgress(a.animator, now) >= 1.0 ==>
            |notes| > 0 && notes[|notes| - 1] == Expanded(Finite(a.ticker.finalDelta))
  {
    TickNotes(a, now);
    NotesFor(a.ticker, DurationAnimator.Tick(a.animator, now).events)
  }

  /** The two outcomes of a tick, as calls on the controller. */
  lemma TickNotes(a: Animation, now: real)
    requires a.Valid()
    ensures var step := DurationAnimator.Tick(a.animator, now);
            var notes := NotesFor(a.ticker, step.events);
            && (DurationAnimator.RawProgress(a.animator, now) < 1.0 ==>
                  step.animator == a.animator
                  && notes == [Expanded(TickerDelta(a.ticker, DurationAnimator.Progress(a.animator, now)))])
            && (DurationAnimator.RawProgress(a.animator, now) >= 1.0 ==>
                  |notes| > 0 && notes[|notes| - 1] == Expanded(Finite(a.ticker.finalDelta)))
  {
    if DurationAnimator.RawProgress(a.animator, now) < 1.0 {
      TickBeforeEndNotes(a, now);
    } else {
      TickAtEndNotes(a, now);
    }
  }

  /** Before the end an animator's tick leaves it as it was and reports the
      ticker's ratio once. */
  lemma TickBeforeEndNotes(a: Animation, now: real)
    requires a.Valid() && DurationAnimator.RawProgress(a.animator, now) < 1.0
    ensures DurationAnimator.Tick(a.animator, now).animator == a.animator
    ensures NotesFor(a.ticker, DurationAnimator.Tick(a.animator, now).events)
         == [Expanded(TickerDelta(a.ticker, DurationAnimator.Progress(a.animator, now)))]
  {
    var step := DurationAnimator.Tick(a.animator, now);
    DurationAnimator.TickBeforeEnd(a.animator, now);
    var ticked := DurationAnimator.Ticked(DurationAnimator.Progress(a.animator, now));
    assert step.events == [ticked];
    assert NotesFor(a.ticker, step.events) == [Expanded(TickerDelta(a.ticker, ticked.progress))] + NotesFor(a.ticker, []);
  }

  /** At the end an animator's tick stops it, and the last report is the
      completion's final ratio. */
  lemma TickAtEndNotes(a: Animation, now: real)
    requires a.Valid() && DurationAnimator.RawProgress(a.animator, now) >= 1.0
    ensures var notes := NotesFor(a.ticker, DurationAnimator.Tick(a.animator, now).events);
            |notes| > 0 && notes[|notes| - 1] == Expanded(Finite(a.ticker.finalDelta))
  {
    DurationAnimator.TickAtEnd(a.animator, now);
    NotesForEndsWithCompletion(a.ticker, DurationAnimator.Tick(a.animator, now).events);
  }

  /** Dropping an animation keeps the rest valid. */
  lemma DropKeepsValid(animations: seq<Animation>, index: nat)
    requires index < |animations|
    requires forall i :: 0 <= i < |animations| ==> animations[i].Valid()
    ensures var rest := animations[..index] + animations[index + 1..];
            forall i :: 0 <= i < |rest| ==> rest[i].Valid()
  {
    var rest := animations[..index] + animations[index + 1..];
    forall i | 0 <= i < |rest|
      ensures rest[i].Valid()
    {
      if i < index {
        assert rest[i] == animations[i];
      } else {
        assert rest[i] == animations[i + 1];
      }
    }
  }

  // ---------------------------------------------------------------------
  // The event loop

  /** Everything that can happen to the banner. */
  datatype Input =
    | Observe(sample: Sample, now: real)
    | Begin(now: real)
    | End(now: real)
    | Frame(index: nat, now: real)
    | OpenDone
    | CloseDone

  /** At most one close in flight, and only while open. */
  predicate Consistent(b: Banner) {
    b.pendingClose <= 1 && (b.pendingClose == 1 ==> b.refreshState.IsOpen())
  }

  /** The inset the banner contributes: the desired height exactly while open
      and not closing. */
  function Contribution(b: Banner): real
    requires b.refreshController.Some?
  {
    if b.refreshState.IsOpen() && b.pendingClose == 0 then b.refreshController.value.desiredHeight else 0.0
  }

  /** The inset without the banner's contribution. */
  function RestingInset(b: Banner): real
    requires b.refreshController.Some?
  {
    b.scrollView.contentInsetTop - Contribution(b)
  }

  /** One event, with the corrected `endRefreshing`.  Every event keeps the
      banner valid and consistent, and moves the inset by exactly the change
      in the banner's contribution. */
  function Step(b: Banner, input: Input): (r: Output)
    requires b.Valid()
    ensures r.banner.Valid()
    ensures r.banner.refreshController == b.refreshController
    ensures Consistent(b) ==> Consistent(r.banner)
    ensures Consistent(b) && b.refreshController.Some? ==> RestingInset(r.banner) == RestingInset(b)
  {
    match input
    case Observe(s, now) => ObserveValue(b, s, now)
    case Begin(now) => BeginRefreshing(b, now)
    case End(now) => EndRefreshing(b, now)
    case Frame(index, now) => AnimationFrame(b, index, now)
    case OpenDone => OpenAnimationDone(b)
    case CloseDone => CloseAnimationDone(b)
  }

  /** The banner after a sequence of events. */
  function Run(b: Banner, inputs: seq<Input>): (r: Banner)
    requires b.Valid()
    ensures r.Valid()
    ensures r.refreshController == b.refreshController
    decreases |inputs|
  {
    if inputs == [] then b else Run(Step(b, inputs[0]).banner, inputs[1..])
  }

  /** Whatever happens, the inset is the resting inset plus the desired
      height exactly while the banner is open and not closing. */
  lemma {:induction false} InsetTracksState(b: Banner, inputs: seq<Input>)
    requires b.Valid() && Consistent(b) && b.refreshController.Some?
    ensures Run(b, inputs).refreshController == b.refreshController
    ensures Consistent(Run(b, inputs))
    ensures RestingInset(Run(b, inputs)) == RestingInset(b)
    decreases |inputs|
  {
    if inputs != [] {
      InsetTracksState(Step(b, inputs[0]).banner, inputs[1..]);
    }
  }

  /** `beginRefreshing()` twice before the first completes: the second call
      does nothing, so one animation starts and one completion is pending. */
  lemma BeginRefreshingIdempotent(b: Banner, now: real, later: real)
    requires b.Valid()
    ensures var first := BeginRefreshing(b, now);
            BeginRefreshing(first.banner, later) == Output(first.banner, [])
  {
  }

  /** The corrected `endRefreshing()` twice before the close completes: the
      second call does nothing. */
  lemma EndRefreshingIdempotent(b: Banner, now: real, later: real)
    requires b.Valid() && Consistent(b)
    ensures var first := EndRefreshing(b, now);
            EndRefreshing(first.banner, later) == Output(first.banner, [])
  {
  }

  /** The code as written: from an open banner with no close in flight, two
      `endRefreshing()` calls before the close completes call the controller's
      `endRefreshing()` twice and take the desired height off the inset twice,
      so after the completion the inset sits one desired height below where it
      rested. */
  lemma EndRefreshingTwiceAsWritten(b: Banner, now: real, later: real)
    requires b.Valid() && b.refreshController.Some? && b.refreshState.IsOpen() && b.pendingClose == 0
    ensures var first := EndRefreshingAsWritten(b, now);
            var second := EndRefreshingAsWritten(first.banner, later);
            var done := CloseAnimationDone(CloseAnimationDone(second.banner).banner);
            && first.notes + second.notes == [EndCalled, EndCalled]
            && done.banner.refreshState == Closed
            && done.banner.pendingClose == 0
            && RestingInset(done.banner) == RestingInset(b) - b.refreshController.value.desiredHeight
  {
  }

  // ---------------------------------------------------------------------
  // Scenarios

  /** A visible, interactive sample at the given offset, below no safe area. */
  function SampleAt(offsetY: real, width: real, dragging: bool): Sample {
    Sample(offsetY, 0.0, width, dragging, true, false)
  }

  /** Dragging a closed banner down by `pull` reports pull / desired height,
      records the drag and opens nothing. */
  lemma DragKeepsClosed(b: Banner, pull: real, width: real, now: real)
    requires b.Valid() && b.refreshController.Some? && !b.refreshState.IsOpen() && pull > 0.0
    ensures var r := ObserveValue(b, SampleAt(-pull, width, true), now);
            && !r.banner.refreshState.IsOpen() && r.banner.wasDragged
            && r.banner.pendingOpen == b.pendingOpen
            && r.banner.animations == b.animations
            && r.notes == [Expanded(Finite(pull / b.refreshController.value.desiredHeight))]
  {
    var moved := b.(scrollView := Moved(b.scrollView, SampleAt(-pull, width, true)));
    assert ActualOffset(moved.scrollView) == pull;
  }

  /** Releasing a drag at `pull` opens the banner exactly when `pull` reaches
      the desired height; opening adds the desired height to the inset and
      leaves one open completion pending. */
  lemma ReleaseOpensPastDesiredHeight(b: Banner, pull: real, width: real, now: real)
    requires b.Valid() && b.refreshController.Some? && !b.refreshState.IsOpen() && b.wasDragged && pull > 0.0
    ensures var d := b.refreshController.value.desiredHeight;
            var r := ObserveValue(b, SampleAt(-pull, width, false), now);
            && (r.banner.refreshState.IsOpen() <==> pull >= d)
            && (pull >= d ==> r.banner.scrollView.contentInsetTop == b.scrollView.contentInsetTop + d)
            && (pull >= d ==> r.banner.pendingOpen == b.pendingOpen + 1)
            && (pull < d ==> r.banner.pendingOpen == b.pendingOpen && r.banner.animations == b.animations)
            && r.notes == [Expanded(Finite(pull / d))]
  {
    var moved := b.(scrollView := Moved(b.scrollView, SampleAt(-pull, width, false)));
    assert ActualOffset(moved.scrollView) == pull;
  }

  /** Once open, content resting at the desired height gives a header of
      exactly that height and a ratio of 1. */
  lemma SettleAtDesiredHeight(b: Banner, width: real, now: real)
    requires b.Valid() && b.refreshController.Some? && b.refreshState.IsOpen()
    ensures var d := b.refreshController.value.desiredHeight;
            var r := ObserveValue(b, SampleAt(-d, width, false), now);
            r.notes == [Expanded(Finite(1.0))] && r.banner.frame.height == d
  {
    var d := b.refreshController.value.desiredHeight;
    var moved := b.(scrollView := Moved(b.scrollView, SampleAt(-d, width, false)));
    assert ActualOffset(moved.scrollView) == d;
    assert d / d == 1.0;
  }

  /** Desired height 100: dragging down to 150 and releasing opens the
      banner; the open completion calls `beginRefreshing()` once; once the
      content settles at 100 the header is 100 high.  Dragging only to 50
      and releasing leaves it closed with nothing started. */
  lemma PullScenarios(sv: ScrollView, curve: ControlPoints, now: real)
    ensures var b0 := New(sv, Some(Refreshable(100.0)), curve);
            var dragged := ObserveValue(b0, SampleAt(-150.0, 320.0, true), now);
            var released := ObserveValue(dragged.banner, SampleAt(-150.0, 320.0, false), now);
            var refreshing := OpenAnimationDone(released.banner);
            var settled := ObserveValue(refreshing.banner, SampleAt(-100.0, 320.0, false), now);
            && dragged.notes == [Expanded(Finite(1.5))]
            && released.banner.refreshState.IsOpen()
            && released.notes == [Expanded(Finite(1.5))]
            && refreshing.notes == [BeginCalled]
            && settled.notes == [Expanded(Finite(1.0))]
            && settled.banner.frame.height == 100.0
    ensures var b0 := New(sv, Some(Refreshable(100.0)), curve);
            var dragged := ObserveValue(b0, SampleAt(-50.0, 320.0, true), now);
            var released := ObserveValue(dragged.banner, SampleAt(-50.0, 320.0, false), now);
            && !released.banner.refreshState.IsOpen()
            && released.banner.pendingOpen == 0
            && released.banner.animations == []
            && dragged.notes + released.notes == [Expanded(Finite(0.5)), Expanded(Finite(0.5))]
  {
    var b0 := New(sv, Some(Refreshable(100.0)), curve);
    DragKeepsClosed(b0, 150.0, 320.0, now);
    var dragged := ObserveValue(b0, SampleAt(-150.0, 320.0, true), now);
    ReleaseOpensPastDesiredHeight(dragged.banner, 150.0, 320.0, now);
    var released := ObserveValue(dragged.banner, SampleAt(-150.0, 320.0, false), now);
    var refreshing := OpenAnimationDone(released.banner);
    SettleAtDesiredHeight(refreshing.banner, 320.0, now);
    DragKeepsClosed(b0, 50.0, 320.0, now);
    var short := ObserveValue(b0, SampleAt(-50.0, 320.0, true), now);
    ReleaseOpensPastDesiredHeight(short.banner, 50.0, 320.0, now);
  }

  /** From an open banner, `endRefreshing()` calls the controller's
      `endRefreshing()` once, starts the close animation from the header's
      height, and the state is closed once the close completes. */
  lemma EndRefreshingCloses(b: Banner, now: real)
    requires b.Valid() && b.refreshController.Some? && b.refreshState.IsOpen() && b.pendingClose == 0
    ensures var ended := Step(b, End(now));
            var closed := Step(ended.banner, CloseDone);
            && ended.notes == [EndCalled]
            && ended.banner.frame.height == 0.0
            && ended.banner.animations[|ended.banner.animations| - 1].ticker
               == CloseTicker(b.frame.height, b.refreshController.value.desiredHeight)
            && closed.banner.refreshState == Closed
            && closed.notes == []
  {
  }
}
