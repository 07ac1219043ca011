/** When a ready event finds the buffer it belongs to, and what goes wrong when it does not. */
module CaptureDiscipline {
  import opened Common
  import opened Damage
  import opened Capture
  import opened CaptureRuns
  import opened DamageTracking

  ghost predicate Idle(w: World) {
    w.cast.timers == 0 && w.inflight.None?
  }

  /** The stream is not paused, and the held buffer not removed, while a capture is pending. */
  ghost predicate Quiet(w: World, e: Event) {
    && (e.StateTo? && Releases(w.streamState, e.state) ==> Idle(w))
    && (e.Remove? && w.cast.pwBuffer == Some(e.pw) ==> Idle(w))
  }

  /** A cast holds a buffer exactly while one timer or one frame is outstanding for it, never both,
      and a frame in flight is being captured into the held buffer. */
  ghost predicate OneCapture(w: World) {
    && !w.protocolError
    && w.cast.timers + (if w.inflight.Some? then 1 else 0) == (if w.cast.pwBuffer.Some? then 1 else 0)
    && (w.inflight.Some? ==> w.cast.xdpwBuffer == Some(w.inflight.value.buffer))
    && (w.cast.frame <==> w.inflight.Some?)
  }

  lemma OneCaptureStep(cfg: Config, w: World, e: Event)
    requires cfg.slots >= 1 && Owned(w) && OneCapture(w) && Enabled(cfg, w, e) && Quiet(w, e)
    ensures OneCapture(Step(cfg, w, e))
  {
    match e
    case Remove(pw) =>
      assert w.cast.pwBuffer != Some(pw);
    case _ =>
  }

  ghost predicate QuietRun(cfg: Config, ws: seq<World>, es: seq<Event>) {
    Run(cfg, ws, es) && forall i :: 0 <= i < |es| ==> Quiet(ws[i], es[i])
  }

  lemma {:induction false} OneCaptureEveryQuietRun(cfg: Config, ws: seq<World>, es: seq<Event>, i: nat)
    requires QuietRun(cfg, ws, es) && i <= |es|
    ensures OneCapture(ws[i]) && Owned(ws[i])
    ensures i < |es| && es[i].ReadyEvent? ==>
      ws[i].inflight.Some? && ws[i].cast.xdpwBuffer == Some(ws[i].inflight.value.buffer)
  {
    OwnershipEveryRun(cfg, ws, es, i);
    if i > 0 {
      OneCaptureEveryQuietRun(cfg, ws, es, i - 1);
      assert StepTo(cfg, ws[i - 1], es[i - 1], ws[i]);
      OneCaptureStep(cfg, ws[i - 1], es[i - 1]);
    }
    assert i < |es| ==> StepTo(cfg, ws[i], es[i], ws[i + 1]);
  }

  /** In quiet runs the consumer holds the screen whenever the columns that folding the overflow of
      a frame's damage loses are reported elsewhere, for the shipped merge as for the intended one. */
  lemma QuietRunsHoldScreen(cfg: Config, ws: seq<World>, es: seq<Event>, i: nat)
    requires QuietRun(cfg, ws, es) && i <= |es|
    requires forall j :: 0 <= j < |es| ==> AddedInTime(ws[j], es[j])
    requires cfg.slots >= 1 && forall j :: 0 <= j < |es| && es[j].ReadyEvent? ==>
      LossReportedElsewhere(cfg.rule, ws[j].cast.frameDamage, cfg.slots)
    ensures ws[i].lastReady.Some? ==> ws[i].consumer == ws[i].lastReady.value
  {
    forall j | 0 <= j < |es| ensures Delivers(cfg, ws[j], es[j]) {
      OneCaptureEveryQuietRun(cfg, ws, es, j);
      if es[j].ReadyEvent? {
        PackCoversIff(cfg.rule, ws[j].cast.frameDamage, cfg.slots);
      }
    }
    ConsumerHoldsScreen(cfg, ws, es, i);
  }

  /** With the intended merge nothing is asked of the damage. */
  lemma IntendedHoldsScreen(cfg: Config, ws: seq<World>, es: seq<Event>, i: nat)
    requires QuietRun(cfg, ws, es) && i <= |es| && cfg.rule == Intended
    requires forall j :: 0 <= j < |es| ==> AddedInTime(ws[j], es[j])
    ensures ws[i].lastReady.Some? ==> ws[i].consumer == ws[i].lastReady.value
  {
    assert cfg.slots >= 1;
    forall j | 0 <= j < |es| && es[j].ReadyEvent?
      ensures LossReportedElsewhere(cfg.rule, ws[j].cast.frameDamage, cfg.slots)
    {
      IntendedPackCovers(ws[j].cast.frameDamage, cfg.slots);
      PackCoversIff(cfg.rule, ws[j].cast.frameDamage, cfg.slots);
    }
    QuietRunsHoldScreen(cfg, ws, es, i);
  }

  // ----- exactly when the two assumptions are needed -----

  /** A ready event that finds another buffer held clears that buffer's damage without having
      captured into it. The pool stays right exactly if the buffer matches, or happens to hold
      the whole screen already. */
  lemma ReadyKeepsSyncIff(cfg: Config, w: World, e: Event)
    requires cfg.slots >= 1 && Synced(cfg, w) && Owned(w) && Enabled(cfg, w, e) && e.ReadyEvent?
    ensures Synced(cfg, Step(cfg, w, e)) <==> ReadyMatches(w, e) || HeldIsCurrent(w, e.screen)
  {
    OwnedStep(cfg, w, e);
    SyncedOnReadyIff(cfg, w, e);
  }

  /** A ready event that finds no buffer held clears the frame's damage without handing it to the
      consumer. With the captured buffer or none held, and the damage that is packed covering what
      it should, the consumer gets the new screen exactly if a buffer is held or nothing changed. */
  lemma ReadyReachesConsumerIff(cfg: Config, w: World, e: Event)
    requires cfg.slots >= 1 && Synced(cfg, w) && Owned(w) && ConsumerSynced(w)
    requires Enabled(cfg, w, e) && e.ReadyEvent? && ReadyMatches(w, e)
    requires w.cast.xdpwBuffer.Some? ==> LossReportedElsewhere(cfg.rule, w.cast.frameDamage, cfg.slots)
    ensures ConsumerSynced(Step(cfg, w, e)) <==> w.cast.xdpwBuffer.Some? || w.consumer == e.screen
  {
    AfterReady(cfg, w, e);
    ConsumerAfterReady(cfg, w, e);
    if w.cast.xdpwBuffer.Some? {
      PackCoversIff(cfg.rule, w.cast.frameDamage, cfg.slots);
      ConsumerOnReady(cfg, w, e);
    }
  }

  /** The intended merge meets the condition on the damage by itself. */
  lemma IntendedReachesConsumerIff(cfg: Config, w: World, e: Event)
    requires cfg.slots >= 1 && Synced(cfg, w) && Owned(w) && ConsumerSynced(w) && cfg.rule == Intended
    requires Enabled(cfg, w, e) && e.ReadyEvent? && ReadyMatches(w, e)
    ensures ConsumerSynced(Step(cfg, w, e)) <==> w.cast.xdpwBuffer.Some? || w.consumer == e.screen
  {
    IntendedPackCovers(w.cast.frameDamage, cfg.slots);
    PackCoversIff(cfg.rule, w.cast.frameDamage, cfg.slots);
    ReadyReachesConsumerIff(cfg, w, e);
  }

  /** What can be checked before the ready event. With the captured buffer held, or none: the regions
      packed for it show all of the screen that was reported for the frame. With another buffer held:
      nothing of the screen was reported, and what is repainted from that buffer changes nothing. */
  ghost predicate ReachesConsumer(cfg: Config, w: World)
    requires cfg.slots >= 1 && Linked(w) && Uniform(cfg, w) && w.inflight.Some?
  {
    var reported := Region(cfg, w.inflight.value.reported);
    if HeldIsCaptured(w) then reported <= Repainted(cfg, w)
    else
      && reported == {}
      && forall p :: p in Repainted(cfg, w) ==>
           w.contents.at[w.cast.xdpwBuffer.value].at[p] == w.consumer.at[p]
  }

  lemma UnreportedIsUnchanged(cfg: Config, w: World, f: Event, p: Pixel)
    requires Uniform(cfg, w) && ConsumerSynced(w) && Enabled(cfg, w, f) && f.ReadyEvent? && p in cfg.screen
    requires p !in Region(cfg, w.inflight.value.reported)
    ensures w.consumer.at[p] == f.screen.at[p]
  {
    assert !Covered(w.inflight.value.reported, p);
  }

  lemma ReachingIsRight(cfg: Config, w: World, f: Event, p: Pixel)
    requires cfg.slots >= 1 && Linked(w) && Uniform(cfg, w) && ConsumerSynced(w)
    requires Enabled(cfg, w, f) && f.ReadyEvent? && ReachesConsumer(cfg, w) && p in cfg.screen
    ensures RightAt(cfg, w, f, p)
  {
    if p !in Region(cfg, w.inflight.value.reported) {
      UnreportedIsUnchanged(cfg, w, f, p);
    }
  }

  function Recoloured(e: Event, p: Pixel, c: Color): Event
    requires e.ReadyEvent?
  {
    ReadyEvent(Image(e.screen.at[p := c]), e.updated)
  }

  /** A reported pixel may turn out any colour. */
  lemma AnyColour(cfg: Config, w: World, e: Event, p: Pixel, c: Color)
    requires Enabled(cfg, w, e) && e.ReadyEvent? && p in Region(cfg, w.inflight.value.reported)
    ensures Enabled(cfg, w, Recoloured(e, p, c)) && Recoloured(e, p, c).screen.at[p] == c
  {
    var f := Recoloured(e, p, c);
    assert f.screen.at.Keys == cfg.screen;
  }

  /** What the consumer shows at p after a ready event that does not deliver p from a new capture. */
  ghost function Shown(cfg: Config, w: World, p: Pixel): Color
    requires cfg.slots >= 1 && Linked(w) && Uniform(cfg, w) && p in cfg.screen
  {
    if p in Repainted(cfg, w) then w.contents.at[w.cast.xdpwBuffer.value].at[p] else w.consumer.at[p]
  }

  lemma ShownIsWrong(cfg: Config, w: World, f: Event, p: Pixel)
    requires cfg.slots >= 1 && Linked(w) && Uniform(cfg, w) && Enabled(cfg, w, f) && f.ReadyEvent? && p in cfg.screen
    requires HeldIsCaptured(w) ==> p !in Repainted(cfg, w)
    requires Shown(cfg, w, p) != f.screen.at[p]
    ensures !RightEverywhere(cfg, w, f)
  {
    assert !RightAt(cfg, w, f, p);
  }

  /** Otherwise some screen the compositor may come up with is not what the consumer gets. */
  lemma NotReachingIsWrong(cfg: Config, w: World, e: Event, black: Color, white: Color) returns (f: Event)
    requires cfg.slots >= 1 && Linked(w) && Uniform(cfg, w) && ConsumerSynced(w)
    requires Enabled(cfg, w, e) && e.ReadyEvent? && !ReachesConsumer(cfg, w) && black != white
    ensures Enabled(cfg, w, f) && f.ReadyEvent? && !RightEverywhere(cfg, w, f)
  {
    var reported := Region(cfg, w.inflight.value.reported);
    if p :| p in reported && (HeldIsCaptured(w) ==> p !in Repainted(cfg, w)) {
      var c := if Shown(cfg, w, p) == black then white else black;
      AnyColour(cfg, w, e, p, c);
      f := Recoloured(e, p, c);
      ShownIsWrong(cfg, w, f, p);
    } else {
      var p :| p in Repainted(cfg, w) && Shown(cfg, w, p) != w.consumer.at[p];
      UnreportedIsUnchanged(cfg, w, e, p);
      f := e;
      ShownIsWrong(cfg, w, f, p);
    }
  }

  /** Whatever screen the compositor comes up with, the consumer gets it: exactly under that condition. */
  lemma EveryReadyReachesConsumerIff(cfg: Config, w: World, e: Event, black: Color, white: Color)
    requires cfg.slots >= 1 && Synced(cfg, w) && Owned(w) && ConsumerSynced(w)
    requires Enabled(cfg, w, e) && e.ReadyEvent? && black != white
    ensures (forall f: Event :: f.ReadyEvent? && Enabled(cfg, w, f) ==> ConsumerSynced(Step(cfg, w, f))) <==>
      ReachesConsumer(cfg, w)
  {
    if ReachesConsumer(cfg, w) {
      forall f: Event | f.ReadyEvent? && Enabled(cfg, w, f) ensures ConsumerSynced(Step(cfg, w, f)) {
        ConsumerOnReadyIff(cfg, w, f);
        forall p | p in cfg.screen ensures RightAt(cfg, w, f, p) {
          ReachingIsRight(cfg, w, f, p);
        }
      }
    } else {
      var f := NotReachingIsWrong(cfg, w, e, black, white);
      ConsumerOnReadyIff(cfg, w, f);
    }
  }

  /** And the pool stays right, whatever the screen, exactly if the held buffer is the captured one,
      or nothing was reported for the frame and it holds the last ready screen; or there is none. */
  ghost predicate ReadyIsHarmless(cfg: Config, w: World)
    requires Linked(w) && w.inflight.Some?
  {
    || HeldIsCaptured(w)
    || (Region(cfg, w.inflight.value.reported) == {} &&
        (w.lastReady.Some? ==> w.contents.at[w.cast.xdpwBuffer.value] == w.lastReady.value))
  }

  lemma NothingReported(cfg: Config, w: World, f: Event)
    requires Linked(w) && Uniform(cfg, w) && Enabled(cfg, w, f) && f.ReadyEvent?
    requires Region(cfg, w.inflight.value.reported) == {}
    ensures w.lastReady.Some? ==> f.screen == w.lastReady.value
    ensures w.lastReady.None? ==> cfg.screen == {}
  {
    forall p | p in cfg.screen ensures !Covered(w.inflight.value.reported, p) {
      assert p !in Region(cfg, w.inflight.value.reported);
    }
    if w.lastReady.Some? {
      SameImageIff(f.screen, w.lastReady.value);
    }
  }

  lemma HarmlessIffCurrent(cfg: Config, w: World, f: Event)
    requires Linked(w) && Uniform(cfg, w) && Enabled(cfg, w, f) && f.ReadyEvent? && !HeldIsCaptured(w)
    requires Region(cfg, w.inflight.value.reported) == {}
    ensures HeldIsCurrent(w, f.screen) <==> ReadyIsHarmless(cfg, w)
  {
    NothingReported(cfg, w, f);
    SameImageIff(w.contents.at[w.cast.xdpwBuffer.value], f.screen);
  }

  lemma NotHarmlessIsStale(cfg: Config, w: World, e: Event, black: Color, white: Color) returns (f: Event)
    requires Linked(w) && Uniform(cfg, w) && Enabled(cfg, w, e) && e.ReadyEvent? && black != white
    requires !ReadyIsHarmless(cfg, w)
    ensures Enabled(cfg, w, f) && f.ReadyEvent? && !HeldIsCaptured(w) && !HeldIsCurrent(w, f.screen)
  {
    if p :| p in Region(cfg, w.inflight.value.reported) {
      var c := if w.contents.at[w.cast.xdpwBuffer.value].at[p] == black then white else black;
      AnyColour(cfg, w, e, p, c);
      f := Recoloured(e, p, c);
    } else {
      HarmlessIffCurrent(cfg, w, e);
      f := e;
    }
  }

  lemma EveryReadyKeepsSyncIff(cfg: Config, w: World, e: Event, black: Color, white: Color)
    requires cfg.slots >= 1 && Synced(cfg, w) && Owned(w) && Enabled(cfg, w, e) && e.ReadyEvent? && black != white
    ensures (forall f: Event :: f.ReadyEvent? && Enabled(cfg, w, f) ==> Synced(cfg, Step(cfg, w, f))) <==>
      ReadyIsHarmless(cfg, w)
  {
    if ReadyIsHarmless(cfg, w) {
      forall f: Event | f.ReadyEvent? && Enabled(cfg, w, f) ensures Synced(cfg, Step(cfg, w, f)) {
        ReadyKeepsSyncIff(cfg, w, f);
        if !HeldIsCaptured(w) {
          HarmlessIffCurrent(cfg, w, f);
        }
      }
    } else {
      var f := NotHarmlessIsStale(cfg, w, e, black, white);
      ReadyKeepsSyncIff(cfg, w, f);
    }
  }

  lemma PoolAgreesAfterAdd(damage: map<BufferId, seq<Rect>>, contents: map<BufferId, Image>,
                           b: BufferId, content: Image, full: Image)
    requires b !in damage && content.at.Keys == full.at.Keys
    requires forall x :: x in damage ==> x in contents && contents[x].at.Keys == full.at.Keys
    requires PoolAgrees(damage, contents, full)
    ensures PoolAgrees(damage[b := []], contents[b := content], full) <==> content == full
  {
    var after := damage[b := []];
    AgreesOutsideNothing(content, full);
    if content == full {
      forall x | x in after ensures AgreesOutside(contents[b := content][x], full, after[x]) {
        assert x != b ==> AgreesOutside(contents[x], full, damage[x]);
      }
    } else {
      assert after[b] == [];
    }
  }

  /** A buffer may join the pool at any moment exactly if it already holds the last ready screen, if
      there is one, and nothing has been reported yet for a frame in flight, if there is one. */
  lemma AddKeepsSyncIff(cfg: Config, w: World, e: Event)
    requires cfg.slots >= 1 && Synced(cfg, w) && Owned(w) && Enabled(cfg, w, e) && e.Add?
    ensures Synced(cfg, Step(cfg, w, e)) <==>
      (w.lastReady.Some? ==> e.content == w.lastReady.value) &&
      (w.inflight.Some? ==> Covers([], w.inflight.value.reported))
  {
    PlacedOnAdd(w, e.pw, e.buffer, e.content);
    if w.lastReady.Some? {
      PoolAgreesAfterAdd(w.cast.damage.at, w.contents.at, e.buffer, e.content, w.lastReady.value);
    }
  }

  // ----- a second frame beside a live one -----

  /** The events that create a frame. */
  predicate CreatesFrame(w: World, e: Event) {
    || (e.Process? && Dequeues(w.cast) && e.pick.Some? && !e.delayed)
    || (e.TimerFires? && w.cast.xdpwBuffer.Some?)
  }

  /** The protocol is violated exactly by creating a frame while one is in flight. */
  lemma SecondFrameIff(cfg: Config, w: World, e: Event)
    requires cfg.slots >= 1 && Linked(w) && Enabled(cfg, w, e)
    ensures Step(cfg, w, e).protocolError <==> CreatesFrame(w, e) && w.inflight.Some?
  {
  }
}
