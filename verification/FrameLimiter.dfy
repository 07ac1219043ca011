/** The frame-rate limiter, alone and together with the timer queue. */
module FrameLimiter {
  import opened Common
  import opened Timers

  const FPS_MEASURE_PERIOD_NS := 5 * NSEC_PER_SEC

  /** The least distance between two capture starts, in whole nanoseconds. */
  function Target(fps: int): int
    requires fps > 0
  {
    NSEC_PER_SEC / fps
  }

  /** It is 10^9 / fps rounded down: at the limited rate a second is filled but for the rounding. */
  lemma TargetIsRate(fps: int)
    requires fps > 0
    ensures Target(fps) * fps <= 1_000_000_000 < (Target(fps) + 1) * fps
  {
  }

  /** Two instants are as far apart as the rate asks for, up to rounding to whole nanoseconds. */
  predicate KeepsRate(earlier: int, later: int, fps: int) {
    (later - earlier + 1) * fps > 1_000_000_000
  }

  /** A distance of at least the target is exactly one that keeps the rate. */
  lemma TargetKeepsRate(earlier: int, later: int, fps: int)
    requires fps > 0
    ensures later - earlier >= Target(fps) <==> KeepsRate(earlier, later, fps)
  {
    TargetIsRate(fps);
    var d, t := later - earlier, Target(fps);
    if d >= t {
      MulOrder(t + 1, d + 1, fps);
    } else {
      MulOrder(d + 1, t, fps);
    }
  }

  lemma MulOrder(a: int, b: int, c: int)
    requires a <= b && c > 0
    ensures a * c <= b * c
  {
    assert (b - a) * c >= 0;
  }

  datatype LimiterState = LimiterState(frameLast: Timespec, fpsLast: Timespec, frameCount: int)

  const ZERO := Timespec(0, 0)

  function Delay(s: LimiterState, now: Timespec, fps: int): int {
    if fps <= 0 || IsZero(s.frameLast) then 0
    else
      var d := Target(fps) - DiffNs(now, s.frameLast);
      if d > 0 then d else 0
  }

  /** The statistics kept beside the limiter; they never touch its own time stamp. */
  function Measured(s: LimiterState, now: Timespec): LimiterState {
    if IsZero(s.fpsLast) then s.(fpsLast := now)
    else if DiffNs(now, s.fpsLast) < FPS_MEASURE_PERIOD_NS then s.(frameCount := s.frameCount + 1)
    else s.(fpsLast := now, frameCount := 0)
  }

  class FpsLimit {
    var frameLastTime: Timespec
    var fpsLastTime: Timespec
    var fpsFrameCount: int

    ghost function View(): LimiterState
      reads this
    {
      LimiterState(frameLastTime, fpsLastTime, fpsFrameCount)
    }

    constructor ()
      ensures View() == LimiterState(ZERO, ZERO, 0)
    {
      frameLastTime, fpsLastTime, fpsFrameCount := ZERO, ZERO, 0;
    }

    method MeasureStart(now: Timespec, maxFps: int)
      modifies this
      ensures View() == if maxFps <= 0 then old(View()) else old(View()).(frameLast := now)
      ensures frameLastTime == if maxFps <= 0 then old(frameLastTime) else now
    {
      if maxFps <= 0 {
        return;
      }
      frameLastTime := now;
    }

    method MeasureFps(now: Timespec)
      modifies `fpsLastTime, `fpsFrameCount
      ensures View() == Measured(old(View()), now)
      ensures if IsZero(old(fpsLastTime)) then fpsLastTime == now && fpsFrameCount == old(fpsFrameCount)
        else if DiffNs(now, old(fpsLastTime)) < 5_000_000_000 then
          fpsLastTime == old(fpsLastTime) && fpsFrameCount == old(fpsFrameCount) + 1
        else fpsLastTime == now && fpsFrameCount == 0
    {
      if IsZero(fpsLastTime) {
        fpsLastTime := now;
        return;
      }
      fpsFrameCount := fpsFrameCount + 1;
      var elapsedNs := DiffNs(now, fpsLastTime);
      if elapsedNs < FPS_MEASURE_PERIOD_NS {
        return;
      }
      fpsLastTime := now;
      fpsFrameCount := 0;
    }

    method MeasureEnd(now: Timespec, maxFps: int) returns (delayNs: int)
      modifies this
      ensures delayNs == Delay(old(View()), now, maxFps)
      ensures maxFps <= 0 || IsZero(old(frameLastTime)) ==> delayNs == 0
      ensures maxFps > 0 && !IsZero(old(frameLastTime)) ==>
        var missing := 1_000_000_000 / maxFps - DiffNs(now, old(frameLastTime));
        delayNs == if missing > 0 then missing else 0
      ensures frameLastTime == old(frameLastTime)
      ensures View() ==
        if maxFps <= 0 || IsZero(old(frameLastTime)) then old(View()) else Measured(old(View()), now)
    {
      if maxFps <= 0 || IsZero(frameLastTime) {
        return 0;
      }
      var elapsedNs := DiffNs(now, frameLastTime);
      MeasureFps(now);
      var targetNs := NSEC_PER_SEC / maxFps;
      delayNs := targetNs - elapsedNs;
      if delayNs <= 0 {
        delayNs := 0;
      }
    }
  }

  /** Waiting out the delay brings the clock to the last start plus the target, and no further
      than necessary. */
  lemma DelayReachesTarget(s: LimiterState, now: Timespec, fps: int)
    requires fps > 0 && Normal(now) && Normal(s.frameLast) && !IsZero(s.frameLast)
    requires Nanos(s.frameLast) <= Nanos(now)
    ensures 0 <= Delay(s, now, fps) <= NSEC_PER_SEC
    ensures Delay(s, now, fps) > 0 ==> Nanos(now) + Delay(s, now, fps) == Nanos(s.frameLast) + Target(fps)
    ensures Delay(s, now, fps) == 0 <==> Nanos(now) >= Nanos(s.frameLast) + Target(fps)
  {
    LessIsEarlier(now, s.frameLast);
  }

  /** In the rate's own terms: after the delay the distance keeps the rate, a nanosecond less would not. */
  lemma DelayKeepsRate(s: LimiterState, now: Timespec, fps: int)
    requires fps > 0 && Normal(now) && Normal(s.frameLast) && !IsZero(s.frameLast)
    requires Nanos(s.frameLast) <= Nanos(now)
    ensures KeepsRate(Nanos(s.frameLast), Nanos(now) + Delay(s, now, fps), fps)
    ensures Delay(s, now, fps) > 0 ==> !KeepsRate(Nanos(s.frameLast), Nanos(now) + Delay(s, now, fps) - 1, fps)
  {
    DelayReachesTarget(s, now, fps);
    TargetKeepsRate(Nanos(s.frameLast), Nanos(now) + Delay(s, now, fps), fps);
    TargetKeepsRate(Nanos(s.frameLast), Nanos(now) + Delay(s, now, fps) - 1, fps);
  }

  // ----- the two together -----

  /** wlr_frame_capture_start, also the callback of the capture timer, up to the capture itself. */
  method CaptureStart(limit: FpsLimit, framerate: int, now: int)
    modifies limit
    ensures limit.View() ==
      if framerate <= 0 then old(limit.View()) else old(limit.View()).(frameLast := Stamp(now))
  {
    limit.MeasureStart(Stamp(now), framerate);
  }

  /** xdpw_wlr_frame_capture: either the timer is set for the last start plus the target, counted
      from the later clock reading, or a capture starts at once; never both. */
  method RequestCapture(limit: FpsLimit, queue: TimerQueue, framerate: int,
                        measured: int, timer: TimerId, now: int)
      returns (started: bool)
    requires Consistent(queue.View()) && timer !in queue.at && 0 < measured <= now
    requires IsZero(limit.frameLastTime) ||
      (Normal(limit.frameLastTime) && Nanos(limit.frameLastTime) <= measured)
    modifies limit, queue
    ensures Consistent(queue.View())
    ensures var delay := Delay(old(limit.View()), Stamp(measured), framerate);
      && (started <==> delay == 0)
      && (if started then
            && queue.View() == old(queue.View())
            && limit.frameLastTime == (if framerate > 0 then Stamp(now) else old(limit.frameLastTime))
          else
            && queue.View() == Added(old(queue.View()), timer, After(Stamp(now), delay))
            && limit.frameLastTime == old(limit.frameLastTime))
    ensures framerate <= 0 || IsZero(old(limit.frameLastTime)) ==> started
    ensures !started ==>
      && timer in queue.at
      && Nanos(queue.at[timer]) - (now - measured) == Nanos(old(limit.frameLastTime)) + Target(framerate)
    ensures started && framerate > 0 && !IsZero(old(limit.frameLastTime)) ==>
      now >= Nanos(old(limit.frameLastTime)) + Target(framerate)
  {
    StampNormal(measured, 0);
    if framerate > 0 && !IsZero(limit.frameLastTime) {
      DelayReachesTarget(limit.View(), Stamp(measured), framerate);
    }
    var delayNs := limit.MeasureEnd(Stamp(measured), framerate);
    if delayNs > 0 {
      StampNormal(now, delayNs);
      AddedConsistent(queue.View(), timer, After(Stamp(now), delayNs));
      queue.AddTimer(timer, Stamp(now), delayNs);
      started := false;
    } else {
      CaptureStart(limit, framerate, now);
      started := true;
    }
  }

  // ----- one cast in the event loop, among other timers -----

  /** frameLast is the limiter's stamp; pending is the cast's delayed capture; starts are the
      instants at which captures were started. */
  datatype Pace = Pace(loop: Loop, frameLast: Timespec, pending: Option<TimerId>, starts: seq<int>)

  datatype PaceEvent =
    | Request(measured: int, timer: TimerId, now: int)  // clock readings of the limiter and of what follows
    | Readable(now: int, started: int)                  // and of a capture its callback starts
    | OtherAdd(timer: TimerId, delayNs: int, now: int)
    | OtherDestroy(timer: TimerId, now: int)

  function DelayOf(p: Pace, measured: int, fps: int): int {
    Delay(LimiterState(p.frameLast, ZERO, 0), Stamp(measured), fps)
  }

  ghost predicate CanHappen(p: Pace, e: PaceEvent, fps: int) {
    match e
    case Request(measured, t, now) =>
      // at most one capture is waiting for its timer
      && p.pending.None?
      && p.loop.now <= measured <= now && p.loop.now > 0
      && t !in p.loop.used
    case Readable(now, started) => Possible(p.loop, TimerReadable(now)) && now <= started
    case OtherAdd(t, delay, now) => Possible(p.loop, AddTimer(t, delay, now))
    case OtherDestroy(t, now) => Possible(p.loop, DestroyTimer(t, now)) && p.pending != Some(t)
  }

  function Start(p: Pace, now: int): Pace {
    p.(frameLast := Stamp(now), pending := None, starts := p.starts + [now], loop := p.loop.(now := now))
  }

  ghost function Paced(p: Pace, e: PaceEvent, fps: int): Pace
    requires Punctual(p.loop) && CanHappen(p, e, fps) && fps > 0
    requires IsZero(p.frameLast) || (Normal(p.frameLast) && Nanos(p.frameLast) <= p.loop.now)
  {
    match e
    case Request(measured, t, now) =>
      var delay := DelayOf(p, measured, fps);
      if delay > 0 then
        assert delay <= NSEC_PER_SEC by {
          StampNormal(measured, 0);
          DelayReachesTarget(LimiterState(p.frameLast, ZERO, 0), Stamp(measured), fps);
        }
        p.(loop := Moved(p.loop, AddTimer(t, delay, now)), pending := Some(t))
      else Start(p, now)
    case Readable(now, started) =>
      var m := p.(loop := Moved(p.loop, TimerReadable(now)));
      if p.pending.Some? && p.loop.q.next == p.pending then Start(m, started) else m
    case OtherAdd(t, delay, now) => p.(loop := Moved(p.loop, AddTimer(t, delay, now)))
    case OtherDestroy(t, now) => p.(loop := Moved(p.loop, DestroyTimer(t, now)))
  }

  ghost predicate Spaced(starts: seq<int>, gap: int) {
    forall i :: 0 <= i < |starts| - 1 ==> starts[i + 1] - starts[i] >= gap
  }

  /** The limiter remembers the last start; a delayed capture's deadline is at least the target
      after it; and so far all starts have been that far apart. */
  ghost predicate WellPaced(p: Pace, fps: int)
    requires fps > 0
  {
    && Punctual(p.loop)
    && Spaced(p.starts, Target(fps))
    && (if p.starts == [] then p.frameLast == ZERO && p.pending.None?
        else p.frameLast == Stamp(p.starts[|p.starts| - 1]) && 0 < p.starts[|p.starts| - 1] <= p.loop.now)
    && (p.pending.Some? ==>
         p.pending.value in p.loop.q.at && p.starts != [] &&
         Nanos(p.loop.q.at[p.pending.value]) >= p.starts[|p.starts| - 1] + Target(fps))
  }

  lemma StartSpaced(p: Pace, now: int, fps: int)
    requires fps > 0 && Spaced(p.starts, Target(fps))
    requires p.starts != [] ==> now >= p.starts[|p.starts| - 1] + Target(fps)
    ensures Spaced(Start(p, now).starts, Target(fps))
  {
  }

  lemma LaterPunctual(l: Loop, now: int)
    requires Punctual(l) && now >= l.now
    ensures Punctual(l.(now := now))
  {
  }

  lemma RequestPaced(p: Pace, e: PaceEvent, fps: int)
    requires fps > 0 && WellPaced(p, fps) && CanHappen(p, e, fps) && e.Request?
    requires IsZero(p.frameLast) || (Normal(p.frameLast) && Nanos(p.frameLast) <= p.loop.now)
    ensures WellPaced(Paced(p, e, fps), fps)
  {
    StampNormal(e.measured, 0);
    StampNormal(e.now, 0);
    var delay := DelayOf(p, e.measured, fps);
    if p.starts != [] {
      StampNormal(p.starts[|p.starts| - 1], 0);
      DelayReachesTarget(LimiterState(p.frameLast, ZERO, 0), Stamp(e.measured), fps);
    }
    if delay > 0 {
      var add := AddTimer(e.timer, delay, e.now);
      PunctualStep(p.loop, add);
      StampNormal(e.now, delay);
      AddedConsistent(p.loop.q, e.timer, After(Stamp(e.now), delay));
    } else {
      StartSpaced(p, e.now, fps);
      LaterPunctual(p.loop, e.now);
    }
  }

  lemma ReadablePaced(p: Pace, e: PaceEvent, fps: int)
    requires fps > 0 && WellPaced(p, fps) && CanHappen(p, e, fps) && e.Readable?
    requires IsZero(p.frameLast) || (Normal(p.frameLast) && Nanos(p.frameLast) <= p.loop.now)
    ensures WellPaced(Paced(p, e, fps), fps)
  {
    var fired := TimerReadable(e.now);
    PunctualStep(p.loop, fired);
    DispatchedConsistent(p.loop.q);
    if p.pending.Some? && p.loop.q.next == p.pending {
      var m := p.(loop := Moved(p.loop, fired));
      assert e.started >= Nanos(p.loop.q.at[p.pending.value]);
      StartSpaced(m, e.started, fps);
      LaterPunctual(m.loop, e.started);
    }
  }

  /** Other timers come and go without touching a pending capture. */
  lemma MovedKeeps(l: Loop, e: LoopEvent, pending: TimerId)
    requires Punctual(l) && Possible(l, e) && pending in l.q.at
    requires !e.TimerReadable? && (e.DestroyTimer? ==> e.timer != pending)
    ensures pending in Moved(l, e).q.at && Moved(l, e).q.at[pending] == l.q.at[pending]
  {
    match e
    case AddTimer(t, delay, now) =>
      StampNormal(now, delay);
      AddedConsistent(l.q, t, After(Stamp(now), delay));
    case DestroyTimer(t, now) =>
      DestroyedConsistent(l.q, t);
  }

  lemma OtherPaced(p: Pace, fps: int, moved: Loop, le: LoopEvent)
    requires fps > 0 && WellPaced(p, fps) && Possible(p.loop, le) && !le.TimerReadable?
    requires le.DestroyTimer? ==> p.pending != Some(le.timer)
    requires moved == Moved(p.loop, le)
    ensures WellPaced(p.(loop := moved), fps)
  {
    PunctualStep(p.loop, le);
    if p.pending.Some? {
      MovedKeeps(p.loop, le, p.pending.value);
    }
    assert moved.now >= p.loop.now;
  }

  lemma PacedStep(p: Pace, e: PaceEvent, fps: int)
    requires fps > 0 && WellPaced(p, fps) && CanHappen(p, e, fps)
    ensures IsZero(p.frameLast) || (Normal(p.frameLast) && Nanos(p.frameLast) <= p.loop.now)
    ensures WellPaced(Paced(p, e, fps), fps)
  {
    if p.starts != [] {
      StampNormal(p.starts[|p.starts| - 1], 0);
    }
    match e
    case Request(_, _, _) => RequestPaced(p, e, fps);
    case Readable(_, _) => ReadablePaced(p, e, fps);
    case OtherAdd(t, delay, now) =>
      OtherPaced(p, fps, Moved(p.loop, AddTimer(t, delay, now)), AddTimer(t, delay, now));
    case OtherDestroy(t, now) =>
      OtherPaced(p, fps, Moved(p.loop, DestroyTimer(t, now)), DestroyTimer(t, now));
  }

  ghost predicate PaceRun(ps: seq<Pace>, es: seq<PaceEvent>, fps: int)
    requires fps > 0
  {
    && |ps| == |es| + 1
    && Punctual(ps[0].loop) && ps[0].frameLast == ZERO && ps[0].pending.None? && ps[0].starts == []
    && forall i :: 0 <= i < |es| ==> PaceStep(ps[i], es[i], ps[i + 1], fps)
  }

  ghost predicate PaceStep(p: Pace, e: PaceEvent, v: Pace, fps: int)
    requires fps > 0
  {
    && CanHappen(p, e, fps)
    && (Punctual(p.loop) && (IsZero(p.frameLast) || (Normal(p.frameLast) && Nanos(p.frameLast) <= p.loop.now))
        ==> v == Paced(p, e, fps))
  }

  lemma {:induction false} WellPacedEveryRun(ps: seq<Pace>, es: seq<PaceEvent>, fps: int, i: nat)
    requires fps > 0 && PaceRun(ps, es, fps) && i <= |es|
    ensures WellPaced(ps[i], fps)
  {
    if i > 0 {
      WellPacedEveryRun(ps, es, fps, i - 1);
      assert PaceStep(ps[i - 1], es[i - 1], ps[i], fps);
      PacedStep(ps[i - 1], es[i - 1], fps);
    }
  }

  /** Consecutive starts keep the frame rate. */
  ghost predicate SpacedByRate(starts: seq<int>, fps: int) {
    forall i :: 0 <= i < |starts| - 1 ==> KeepsRate(starts[i], starts[i + 1], fps)
  }

  lemma SpacingKeepsRate(starts: seq<int>, fps: int)
    requires fps > 0 && Spaced(starts, Target(fps))
    ensures SpacedByRate(starts, fps)
  {
    forall i | 0 <= i < |starts| - 1 ensures KeepsRate(starts[i], starts[i + 1], fps) {
      assert starts[i + 1] - starts[i] >= Target(fps);
      TargetKeepsRate(starts[i], starts[i + 1], fps);
    }
  }

  /** In every run, whatever other timers come and go, consecutive captures start no closer together
      than the frame rate allows. */
  lemma StartsKeepRate(ps: seq<Pace>, es: seq<PaceEvent>, fps: int, i: nat)
    requires fps > 0 && PaceRun(ps, es, fps) && i <= |es|
    ensures SpacedByRate(ps[i].starts, fps)
  {
    WellPacedEveryRun(ps, es, fps, i);
    SpacingKeepsRate(ps[i].starts, fps);
  }

  lemma {:induction false} SpacedApart(starts: seq<int>, gap: int, i: nat, j: nat)
    requires Spaced(starts, gap) && i <= j < |starts|
    ensures starts[j] - starts[i] >= (j - i) * gap
  {
    if i < j {
      SpacedApart(starts, gap, i, j - 1);
      assert starts[j - 1 + 1] - starts[j - 1] >= gap;
    }
  }

  /** Any two starts lie whole multiples of the target apart, so a window of the given length
      holds at most window / target + 1 captures, in every run and at every moment of it: n intervals
      between captures take less than 10^9 * n / fps by no more than the rounding of each. */
  lemma CapturesPerWindow(ps: seq<Pace>, es: seq<PaceEvent>, fps: int, k: nat, i: nat, j: nat, window: int)
    requires 0 < fps <= NSEC_PER_SEC && PaceRun(ps, es, fps) && k <= |es|
    requires i <= j < |ps[k].starts| && ps[k].starts[j] - ps[k].starts[i] <= window
    ensures j - i + 1 <= window / Target(fps) + 1
    ensures i < j ==> (j - i) * 1_000_000_000 < (window + j - i) * fps
  {
    WellPacedEveryRun(ps, es, fps, k);
    SpacedApart(ps[k].starts, Target(fps), i, j);
    AtMost(j - i, Target(fps), window);
    if i < j {
      WindowInRate(j - i, window, fps);
    }
  }

  lemma WindowInRate(n: int, window: int, fps: int)
    requires n > 0 && fps > 0 && n * Target(fps) <= window
    ensures n * 1_000_000_000 < (window + n) * fps
  {
    TargetIsRate(fps);
    var t := Target(fps);
    MulOrder(n * (t + 1), window + n, fps);
    assert n * ((t + 1) * fps) == n * (t + 1) * fps;
    assert n * ((t + 1) * fps - 1_000_000_000) > 0;
  }

  lemma AtMost(n: int, gap: int, window: int)
    requires n * gap <= window && gap > 0
    ensures n <= window / gap
  {
    var q := window / gap;
    assert window < (q + 1) * gap;
    MulCancels(n, q + 1, gap);
  }
}
