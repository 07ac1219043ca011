/** The capture cycle together with the frame-rate limiter and the timer queue: whether a dequeued
    buffer waits for a timer is the limiter's choice, and the timer that starts the capture is one
    of the event loop's. */
module PacedCaptures {
  import opened Common
  import opened Capture
  import opened CaptureRuns
  import opened CaptureDiscipline
  import Timers
  import Pacing = FrameLimiter

  datatype Timed = Timed(w: World, p: Pacing.Pace)

  datatype TimedEvent =
    | CastEvent(event: Event, measured: int, timer: Timers.TimerId, now: int)  // with what a request would use
    | TimerReadable(now: int, started: int)
    | OtherTimer(pace: Pacing.PaceEvent)

  /** A buffer is dequeued and its capture requested. */
  predicate Requests(w: World, e: Event) {
    e.Process? && Dequeues(w.cast) && e.pick.Some?
  }

  /** The timer that expires is the one the cast's capture waits for. */
  predicate IsMine(p: Pacing.Pace) {
    p.pending.Some? && p.loop.q.next == p.pending
  }

  function RequestOf(e: TimedEvent): Pacing.PaceEvent
    requires e.CastEvent?
  {
    Pacing.Request(e.measured, e.timer, e.now)
  }

  ghost predicate CanOccur(cfg: Config, t: Timed, e: TimedEvent, fps: int) {
    match e
    case CastEvent(ev, measured, timer, now) =>
      && !ev.TimerFires? && Enabled(cfg, t.w, ev)
      && (Requests(t.w, ev) ==>
           && t.p.loop.now <= measured <= now && t.p.loop.now > 0 && timer !in t.p.loop.used
           && (ev.delayed <==> Pacing.DelayOf(t.p, measured, fps) > 0))
    case TimerReadable(now, started) =>
      Pacing.CanHappen(t.p, Pacing.Readable(now, started), fps) && !t.w.protocolError
    case OtherTimer(pe) => (pe.OtherAdd? || pe.OtherDestroy?) && Pacing.CanHappen(t.p, pe, fps)
  }

  /** The cast waits for one timer exactly while the limiter's is pending, and holds a buffer then. */
  ghost predicate Coupled(t: Timed) {
    && t.w.cast.timers == (if t.p.pending.Some? then 1 else 0)
    && (t.p.pending.Some? ==> t.w.cast.pwBuffer.Some?)
  }

  ghost predicate Sane(t: Timed, fps: int)
    requires fps > 0
  {
    Owned(t.w) && Coupled(t) && Pacing.WellPaced(t.p, fps)
  }

  ghost function Next(cfg: Config, t: Timed, e: TimedEvent, fps: int): Timed
    requires cfg.slots >= 1 && fps > 0 && Sane(t, fps) && CanOccur(cfg, t, e, fps)
  {
    PaceIsDefined(t.p, fps);
    match e
    case CastEvent(ev, _, _, _) =>
      Timed(Step(cfg, t.w, ev), if Requests(t.w, ev) then Pacing.Paced(t.p, RequestOf(e), fps) else t.p)
    case TimerReadable(now, started) =>
      Timed(if IsMine(t.p) then Step(cfg, t.w, TimerFires) else t.w,
            Pacing.Paced(t.p, Pacing.Readable(now, started), fps))
    case OtherTimer(pe) => Timed(t.w, Pacing.Paced(t.p, pe, fps))
  }

  lemma PaceIsDefined(p: Pacing.Pace, fps: int)
    requires fps > 0 && Pacing.WellPaced(p, fps)
    ensures Timers.IsZero(p.frameLast) ||
      (Timers.Normal(p.frameLast) && Timers.Nanos(p.frameLast) <= p.loop.now)
  {
    if p.starts != [] {
      Timers.StampNormal(p.starts[|p.starts| - 1], 0);
    }
  }

  /** The held buffer is not let go while its capture waits for the timer. */
  ghost predicate Patient(t: Timed, e: TimedEvent) {
    e.CastEvent? && t.w.cast.timers > 0 ==>
      && !e.event.ReadyEvent? && !e.event.FailedEvent?
      && (e.event.StateTo? ==> !Releases(t.w.streamState, e.event.state))
      && (e.event.Remove? ==> t.w.cast.pwBuffer != Some(e.event.pw))
  }

  /** The step creates a frame. */
  predicate Creates(t: Timed, e: TimedEvent) {
    match e
    case CastEvent(ev, _, _, _) => CreatesFrame(t.w, ev)
    case TimerReadable(_, _) => IsMine(t.p) && CreatesFrame(t.w, TimerFires)
    case OtherTimer(_) => false
  }

  function Instant(e: TimedEvent): int {
    match e
    case CastEvent(_, _, _, now) => now
    case TimerReadable(_, started) => started
    case OtherTimer(_) => 0
  }

  lemma ProcessTimers(w: World, pick: Option<PwId>, delayed: bool)
    requires Linked(w) && (pick.Some? ==> pick.value in w.withStream)
    requires w.cast.timers > 0 ==> w.cast.pwBuffer.Some?
    ensures var v := OnProcess(w, pick, delayed);
      && v.cast.timers == w.cast.timers + (if Dequeues(w.cast) && pick.Some? && delayed then 1 else 0)
      && (v.cast.timers > 0 ==> v.cast.pwBuffer.Some?)
  {
  }

  /** The cast's side of one of its events. */
  lemma CastTimers(cfg: Config, w: World, ev: Event)
    requires cfg.slots >= 1 && Linked(w) && Enabled(cfg, w, ev) && !ev.TimerFires?
    requires w.cast.timers > 0 ==> w.cast.pwBuffer.Some?
    requires w.cast.timers > 0 ==>
      && !ev.ReadyEvent? && !ev.FailedEvent?
      && (ev.StateTo? ==> !Releases(w.streamState, ev.state))
      && (ev.Remove? ==> w.cast.pwBuffer != Some(ev.pw))
    ensures var v := Step(cfg, w, ev);
      && v.cast.timers == w.cast.timers + (if Requests(w, ev) && ev.delayed then 1 else 0)
      && (v.cast.timers > 0 ==> v.cast.pwBuffer.Some?)
    ensures CreatesFrame(w, ev) <==> Requests(w, ev) && !ev.delayed
  {
    match ev
    case Process(pick, delayed) => ProcessTimers(w, pick, delayed);
    case _ =>
  }

  /** And of its timer's callback. */
  lemma CallbackTimers(cfg: Config, w: World)
    requires cfg.slots >= 1 && Linked(w) && w.cast.timers == 1 && w.cast.pwBuffer.Some?
    ensures OnTimer(w).cast.timers == 0 && CreatesFrame(w, TimerFires)
  {
  }

  /** The limiter's side of a request. */
  lemma RequestPace(p: Pacing.Pace, e: Pacing.PaceEvent, fps: int)
    requires fps > 0 && Pacing.WellPaced(p, fps) && Pacing.CanHappen(p, e, fps) && e.Request?
    requires Timers.IsZero(p.frameLast) ||
      (Timers.Normal(p.frameLast) && Timers.Nanos(p.frameLast) <= p.loop.now)
    ensures var q := Pacing.Paced(p, e, fps);
      var delayed := Pacing.DelayOf(p, e.measured, fps) > 0;
      && (q.pending.Some? <==> delayed)
      && q.starts == p.starts + if delayed then [] else [e.now]
  {
    assert p.starts + [] == p.starts;
  }

  lemma SaneCast(cfg: Config, t: Timed, e: TimedEvent, fps: int)
    requires cfg.slots >= 1 && fps > 0 && Sane(t, fps) && CanOccur(cfg, t, e, fps) && Patient(t, e) && e.CastEvent?
    ensures Sane(Next(cfg, t, e, fps), fps)
    ensures Next(cfg, t, e, fps).p.starts == t.p.starts + if Creates(t, e) then [Instant(e)] else []
  {
    PaceIsDefined(t.p, fps);
    assert t.p.starts + [] == t.p.starts;
    OwnedStep(cfg, t.w, e.event);
    CastTimers(cfg, t.w, e.event);
    if Requests(t.w, e.event) {
      Pacing.PacedStep(t.p, RequestOf(e), fps);
      RequestPace(t.p, RequestOf(e), fps);
    }
  }

  lemma SaneReadable(cfg: Config, t: Timed, e: TimedEvent, fps: int)
    requires cfg.slots >= 1 && fps > 0 && Sane(t, fps) && CanOccur(cfg, t, e, fps) && e.TimerReadable?
    ensures Sane(Next(cfg, t, e, fps), fps)
    ensures Next(cfg, t, e, fps).p.starts == t.p.starts + if Creates(t, e) then [Instant(e)] else []
  {
    PaceIsDefined(t.p, fps);
    assert t.p.starts + [] == t.p.starts;
    Pacing.PacedStep(t.p, Pacing.Readable(e.now, e.started), fps);
    if IsMine(t.p) {
      OwnedStep(cfg, t.w, TimerFires);
      CallbackTimers(cfg, t.w);
    }
  }

  lemma SaneStep(cfg: Config, t: Timed, e: TimedEvent, fps: int)
    requires cfg.slots >= 1 && fps > 0 && Sane(t, fps) && CanOccur(cfg, t, e, fps) && Patient(t, e)
    ensures Sane(Next(cfg, t, e, fps), fps)
    ensures Next(cfg, t, e, fps).p.starts == t.p.starts + if Creates(t, e) then [Instant(e)] else []
  {
    match e
    case CastEvent(_, _, _, _) => SaneCast(cfg, t, e, fps);
    case TimerReadable(_, _) => SaneReadable(cfg, t, e, fps);
    case OtherTimer(pe) =>
      PaceIsDefined(t.p, fps);
      Pacing.PacedStep(t.p, pe, fps);
      assert t.p.starts + [] == t.p.starts;
  }

  /** A step may end anywhere where the two halves have come apart, so that the theorems below have
      to show that they never do. */
  ghost predicate TimedStep(cfg: Config, t: Timed, e: TimedEvent, v: Timed, fps: int)
    requires fps > 0
  {
    cfg.slots >= 1 && CanOccur(cfg, t, e, fps) && (Sane(t, fps) ==> v == Next(cfg, t, e, fps))
  }

  ghost predicate TimedRun(cfg: Config, ts: seq<Timed>, es: seq<TimedEvent>, fps: int)
    requires fps > 0
  {
    && |ts| == |es| + 1
    && Init(cfg, ts[0].w)
    && Timers.Punctual(ts[0].p.loop) && ts[0].p.frameLast == Pacing.ZERO
    && ts[0].p.pending.None? && ts[0].p.starts == []
    && forall i :: 0 <= i < |es| ==> TimedStep(cfg, ts[i], es[i], ts[i + 1], fps)
  }

  lemma {:induction false} SaneEveryRun(cfg: Config, ts: seq<Timed>, es: seq<TimedEvent>, fps: int, i: nat)
    requires fps > 0 && TimedRun(cfg, ts, es, fps) && i <= |es|
    requires forall k :: 0 <= k < i ==> Patient(ts[k], es[k])
    ensures Sane(ts[i], fps)
  {
    if i > 0 {
      SaneEveryRun(cfg, ts, es, fps, i - 1);
      assert TimedStep(cfg, ts[i - 1], es[i - 1], ts[i], fps);
      SaneStep(cfg, ts[i - 1], es[i - 1], fps);
    }
  }

  /** Quiet as in CaptureDiscipline. */
  ghost predicate QuietStep(t: Timed, e: TimedEvent) {
    e.CastEvent? ==> Quiet(t.w, e.event)
  }

  lemma QuietIsPatient(cfg: Config, t: Timed, e: TimedEvent, fps: int)
    requires OneCapture(t.w) && QuietStep(t, e) && CanOccur(cfg, t, e, fps)
    ensures Patient(t, e)
  {
  }

  lemma OneCaptureNext(cfg: Config, t: Timed, e: TimedEvent, fps: int)
    requires cfg.slots >= 1 && fps > 0 && Sane(t, fps) && CanOccur(cfg, t, e, fps)
    requires OneCapture(t.w) && QuietStep(t, e)
    ensures OneCapture(Next(cfg, t, e, fps).w)
  {
    match e
    case CastEvent(ev, _, _, _) => OneCaptureStep(cfg, t.w, ev);
    case TimerReadable(_, _) =>
      if IsMine(t.p) {
        OneCaptureStep(cfg, t.w, TimerFires);
      }
    case OtherTimer(_) =>
  }

  lemma {:induction false} QuietRunsAreSane(cfg: Config, ts: seq<Timed>, es: seq<TimedEvent>, fps: int, i: nat)
    requires fps > 0 && TimedRun(cfg, ts, es, fps) && i <= |es|
    requires forall k :: 0 <= k < |es| ==> QuietStep(ts[k], es[k])
    ensures OneCapture(ts[i].w) && Sane(ts[i], fps)
  {
    if i > 0 {
      var t, e := ts[i - 1], es[i - 1];
      QuietRunsAreSane(cfg, ts, es, fps, i - 1);
      assert TimedStep(cfg, t, e, ts[i], fps);
      QuietIsPatient(cfg, t, e, fps);
      SaneStep(cfg, t, e, fps);
      OneCaptureNext(cfg, t, e, fps);
    }
  }

  lemma QuietRunsArePatient(cfg: Config, ts: seq<Timed>, es: seq<TimedEvent>, fps: int, i: nat)
    requires fps > 0 && TimedRun(cfg, ts, es, fps) && i < |es|
    requires forall k :: 0 <= k < |es| ==> QuietStep(ts[k], es[k])
    ensures Patient(ts[i], es[i])
  {
    QuietRunsAreSane(cfg, ts, es, fps, i);
    assert TimedStep(cfg, ts[i], es[i], ts[i + 1], fps);
    QuietIsPatient(cfg, ts[i], es[i], fps);
  }

  /** In every run in which no buffer is let go while its capture waits for the timer, frames are
      created no closer together than the frame rate allows; the starts are the instants of exactly those steps. */
  lemma FramesAreSpaced(cfg: Config, ts: seq<Timed>, es: seq<TimedEvent>, fps: int, i: nat)
    requires fps > 0 && TimedRun(cfg, ts, es, fps) && i <= |es|
    requires forall k :: 0 <= k < |es| ==> Patient(ts[k], es[k])
    ensures Pacing.SpacedByRate(ts[i].p.starts, fps)
    ensures i < |es| ==> ts[i + 1].p.starts == ts[i].p.starts + if Creates(ts[i], es[i]) then [Instant(es[i])] else []
  {
    SaneEveryRun(cfg, ts, es, fps, i);
    Pacing.SpacingKeepsRate(ts[i].p.starts, fps);
    if i < |es| {
      assert TimedStep(cfg, ts[i], es[i], ts[i + 1], fps);
      SaneStep(cfg, ts[i], es[i], fps);
    }
  }

  /** Quiet runs are such runs, and in them there is never more than one timer or frame. */
  lemma QuietFramesAreSpaced(cfg: Config, ts: seq<Timed>, es: seq<TimedEvent>, fps: int, i: nat)
    requires fps > 0 && TimedRun(cfg, ts, es, fps) && i <= |es|
    requires forall k :: 0 <= k < |es| ==> QuietStep(ts[k], es[k])
    ensures OneCapture(ts[i].w)
    ensures Pacing.SpacedByRate(ts[i].p.starts, fps)
    ensures i < |es| ==> ts[i + 1].p.starts == ts[i].p.starts + if Creates(ts[i], es[i]) then [Instant(es[i])] else []
  {
    forall k | 0 <= k < |es| ensures Patient(ts[k], es[k]) {
      QuietRunsArePatient(cfg, ts, es, fps, k);
    }
    QuietRunsAreSane(cfg, ts, es, fps, i);
    FramesAreSpaced(cfg, ts, es, fps, i);
  }
}
