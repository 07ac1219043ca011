/** Why incremental capture is as good as copying the whole screen. */
module DamageTracking {
  import opened Common
  import opened Damage
  import opened Capture
  import opened CaptureRuns

  ghost predicate Uniform(cfg: Config, w: World) {
    && (forall b :: b in w.contents.at ==> w.contents.at[b].at.Keys == cfg.screen)
    && (w.lastReady.Some? ==> w.lastReady.value.at.Keys == cfg.screen)
    && w.consumer.at.Keys == cfg.screen
  }

  /** image differs from full only inside rs. */
  ghost predicate AgreesOutside(image: Image, full: Image, rs: seq<Rect>)
    requires image.at.Keys == full.at.Keys
  {
    forall p :: p in image.at && !Covered(rs, p) ==> image.at[p] == full.at[p]
  }

  /** Each buffer of a pool differs from full only inside its own accumulated damage. */
  ghost predicate PoolAgrees(damage: map<BufferId, seq<Rect>>, contents: map<BufferId, Image>, full: Image)
    requires forall b :: b in damage ==> b in contents && contents[b].at.Keys == full.at.Keys
  {
    forall b :: b in damage ==> AgreesOutside(contents[b], full, damage[b])
  }

  ghost predicate PoolSynced(cfg: Config, w: World)
    requires Linked(w) && Uniform(cfg, w)
  {
    w.lastReady.Some? ==> PoolAgrees(w.cast.damage.at, w.contents.at, w.lastReady.value)
  }

  /** The captured buffer's damage is what was sent with it and what has been reported since;
      everything reported for this frame is in the damage of every pool buffer. */
  ghost predicate InflightTracked(w: World) {
    w.inflight.Some? ==>
      var f := w.inflight.value;
      && (f.buffer in w.cast.damage.at ==> w.cast.damage.at[f.buffer] == f.sent + f.reported)
      && forall b :: b in w.cast.damage.at ==> Covers(w.cast.damage.at[b], f.reported)
  }

  ghost predicate Synced(cfg: Config, w: World) {
    Linked(w) && Uniform(cfg, w) && PoolSynced(cfg, w) && InflightTracked(w)
  }

  lemma CoveredAppend(a: seq<Rect>, b: seq<Rect>, p: Pixel)
    ensures Covered(a + b, p) <==> Covered(a, p) || Covered(b, p)
  {
    if i :| 0 <= i < |a| && Inside(a[i], p) {
      assert (a + b)[i] == a[i];
    }
    if i :| 0 <= i < |b| && Inside(b[i], p) {
      assert (a + b)[|a| + i] == b[i];
    }
  }

  lemma CoversSnoc(big: seq<Rect>, small: seq<Rect>, r: Rect)
    requires Covers(big, small)
    ensures Covers(big + [r], small + [r])
  {
    forall p | Covered(small + [r], p) ensures Covered(big + [r], p) {
      CoveredAppend(small, [r], p);
      CoveredAppend(big, [r], p);
    }
  }

  /** Buffers join the pool before damage is reported to it: the first frame carries full damage. */
  predicate AddedInTime(w: World, e: Event) {
    e.Add? ==> w.lastReady.None? && (w.inflight.Some? ==> w.inflight.value.reported == [])
  }

  /** The held buffer, if any, is the one being captured into. */
  predicate HeldIsCaptured(w: World) {
    w.inflight.Some? && w.cast.xdpwBuffer.Some? ==> w.cast.xdpwBuffer.value == w.inflight.value.buffer
  }

  /** And it is when a frame becomes ready. */
  predicate ReadyMatches(w: World, e: Event) {
    e.ReadyEvent? ==> HeldIsCaptured(w)
  }

  /** The held buffer needs no capture. */
  ghost predicate HeldIsCurrent(w: World, screen: Image)
    requires Linked(w)
  {
    w.cast.xdpwBuffer.Some? && w.contents.at[w.cast.xdpwBuffer.value] == screen
  }

  lemma SyncedOnState(cfg: Config, w: World, state: StreamState)
    requires cfg.slots >= 1 && Synced(cfg, w)
    ensures Uniform(cfg, OnState(cfg, w, state)) && InflightTracked(OnState(cfg, w, state))
    ensures Linked(OnState(cfg, w, state)) ==> PoolSynced(cfg, OnState(cfg, w, state))
  {
  }

  lemma SyncedOnAdd(cfg: Config, w: World, e: Event)
    requires Synced(cfg, w) && Enabled(cfg, w, e) && e.Add? && AddedInTime(w, e)
    requires Linked(OnAdd(w, e.pw, e.buffer, e.content))
    ensures Synced(cfg, OnAdd(w, e.pw, e.buffer, e.content))
  {
  }

  lemma SyncedOnRemove(cfg: Config, w: World, pw: PwId)
    requires Synced(cfg, w) && pw in w.userData.at && Linked(OnRemove(w, pw))
    ensures Synced(cfg, OnRemove(w, pw))
  {
  }

  lemma SyncedOnProcess(cfg: Config, w: World, pick: Option<PwId>, delayed: bool)
    requires Synced(cfg, w) && (pick.Some? ==> pick.value in w.withStream)
    requires Linked(OnProcess(w, pick, delayed))
    ensures Synced(cfg, OnProcess(w, pick, delayed))
  {
  }

  lemma SyncedOnTimer(cfg: Config, w: World)
    requires Synced(cfg, w) && w.cast.timers > 0 && Linked(OnTimer(w))
    ensures Synced(cfg, OnTimer(w))
  {
  }

  lemma SyncedOnDamage(cfg: Config, w: World, r: Rect)
    requires Synced(cfg, w) && w.inflight.Some? && Linked(OnDamage(w, r))
    ensures Synced(cfg, OnDamage(w, r))
  {
    var v := OnDamage(w, r);
    var f := w.inflight.value;
    assert f.sent + (f.reported + [r]) == f.sent + f.reported + [r];
    forall b | b in v.cast.damage.at ensures Covers(v.cast.damage.at[b], f.reported + [r]) {
      CoversSnoc(w.cast.damage.at[b], f.reported, r);
    }
    if w.lastReady.Some? {
      forall b | b in v.cast.damage.at
        ensures AgreesOutside(v.contents.at[b], w.lastReady.value, v.cast.damage.at[b])
      {
        forall p | p in v.contents.at[b].at && !Covered(v.cast.damage.at[b], p)
          ensures v.contents.at[b].at[p] == w.lastReady.value.at[p]
        {
          CoveredAppend(w.cast.damage.at[b], [r], p);
        }
      }
    }
  }

  lemma SyncedOnFailed(cfg: Config, w: World, scribble: Image)
    requires cfg.slots >= 1 && Synced(cfg, w) && w.inflight.Some? && Linked(OnFailed(cfg, w, scribble))
    ensures Synced(cfg, OnFailed(cfg, w, scribble))
  {
    var v := OnFailed(cfg, w, scribble);
    assert v.cast.damage == w.cast.damage && v.lastReady == w.lastReady && v.inflight.None?;
    assert v.contents.at == ContentsAfterFailure(cfg, w, scribble);
    PoolAgreesAfterFailure(cfg, w, scribble);
  }

  ghost function ContentsAfterFailure(cfg: Config, w: World, scribble: Image): map<BufferId, Image>
    requires Linked(w) && w.inflight.Some?
  {
    var f := w.inflight.value;
    w.contents.at[f.buffer := Paint(w.contents.at[f.buffer], scribble, Region(cfg, f.sent + f.reported))]
  }

  /** Whatever a failed copy has written lies inside the damage the buffer keeps. */
  lemma PoolAgreesAfterFailure(cfg: Config, w: World, scribble: Image)
    requires Synced(cfg, w) && w.inflight.Some?
    ensures w.lastReady.Some? ==>
      PoolAgrees(w.cast.damage.at, ContentsAfterFailure(cfg, w, scribble), w.lastReady.value)
  {
    if w.lastReady.Some? {
      var contents := ContentsAfterFailure(cfg, w, scribble);
      forall b | b in w.cast.damage.at
        ensures AgreesOutside(contents[b], w.lastReady.value, w.cast.damage.at[b])
      {
        assert AgreesOutside(w.contents.at[b], w.lastReady.value, w.cast.damage.at[b]);
      }
    }
  }

  /** The heart of it: at a ready event, every pixel the compositor did not have to copy was
      already right, in the captured buffer and in every other one. */
  lemma ReadyPixel(cfg: Config, w: World, e: Event, b: BufferId, p: Pixel)
    requires cfg.slots >= 1 && Synced(cfg, w) && Enabled(cfg, w, e) && e.ReadyEvent?
    requires b in w.cast.damage.at && p in cfg.screen
    requires !Covered(w.cast.damage.at[b], p)
    ensures w.contents.at[b].at[p] == e.screen.at[p]
  {
    assert Covers(w.cast.damage.at[b], w.inflight.value.reported);
    assert AgreesOutside(w.contents.at[b], w.lastReady.value, w.cast.damage.at[b]);
  }

  lemma PaintAll(dst: Image, src: Image, area: set<Pixel>)
    requires dst.at.Keys == src.at.Keys
    requires forall p :: p in dst.at && p !in area ==> dst.at[p] == src.at[p]
    ensures Paint(dst, src, area) == src
  {
    assert Paint(dst, src, area).at == src.at;
  }

  /** Each ready frame leaves the buffer it was captured into equal to the whole screen. */
  lemma ReadyCapturesScreen(cfg: Config, w: World, e: Event)
    requires cfg.slots >= 1 && Synced(cfg, w) && Enabled(cfg, w, e) && e.ReadyEvent?
    requires w.inflight.value.buffer in w.cast.damage.at
    ensures Paint(w.contents.at[w.inflight.value.buffer], e.screen, e.updated) == e.screen
  {
    var f := w.inflight.value;
    forall p | p in cfg.screen && p !in e.updated ensures w.contents.at[f.buffer].at[p] == e.screen.at[p] {
      assert p !in Region(cfg, f.sent + f.reported);
      ReadyPixel(cfg, w, e, f.buffer, p);
    }
    PaintAll(w.contents.at[f.buffer], e.screen, e.updated);
  }

  function ContentsAfterReady(w: World, e: Event): map<BufferId, Image>
    requires e.ReadyEvent? && w.inflight.Some? && w.inflight.value.buffer in w.contents.at
  {
    var b := w.inflight.value.buffer;
    w.contents.at[b := Paint(w.contents.at[b], e.screen, e.updated)]
  }

  lemma AgreesOutsideNothing(image: Image, full: Image)
    requires image.at.Keys == full.at.Keys
    ensures AgreesOutside(image, full, []) <==> image == full
  {
    if AgreesOutside(image, full, []) {
      assert image.at == full.at;
    }
  }

  function DamageAfterReady(w: World): map<BufferId, seq<Rect>> {
    if w.cast.xdpwBuffer.Some? then w.cast.damage.at[w.cast.xdpwBuffer.value := []] else w.cast.damage.at
  }

  lemma PoolAgreesAfterReady(cfg: Config, w: World, e: Event)
    requires cfg.slots >= 1 && Synced(cfg, w) && Enabled(cfg, w, e) && e.ReadyEvent?
    requires ReadyMatches(w, e) || HeldIsCurrent(w, e.screen)
    ensures PoolAgrees(DamageAfterReady(w), ContentsAfterReady(w, e), e.screen)
  {
    var f := w.inflight.value;
    var damage := DamageAfterReady(w);
    var contents := ContentsAfterReady(w, e);
    if f.buffer in w.cast.damage.at {
      ReadyCapturesScreen(cfg, w, e);
    }
    forall b, p | b in damage && p in contents[b].at && !Covered(damage[b], p)
      ensures contents[b].at[p] == e.screen.at[p]
    {
      if b != f.buffer && w.cast.xdpwBuffer != Some(b) {
        ReadyPixel(cfg, w, e, b, p);
      }
    }
  }

  lemma PoolDisagreesAfterReady(cfg: Config, w: World, e: Event)
    requires cfg.slots >= 1 && Linked(w) && Uniform(cfg, w) && Enabled(cfg, w, e) && e.ReadyEvent?
    requires !ReadyMatches(w, e) && !HeldIsCurrent(w, e.screen)
    ensures !PoolAgrees(DamageAfterReady(w), ContentsAfterReady(w, e), e.screen)
  {
    var h := w.cast.xdpwBuffer.value;
    var image := w.contents.at[h];
    assert ContentsAfterReady(w, e)[h] == image && DamageAfterReady(w)[h] == [];
    AgreesOutsideNothing(image, e.screen);
  }

  lemma AfterReady(cfg: Config, w: World, e: Event)
    requires cfg.slots >= 1 && Linked(w) && Enabled(cfg, w, e) && e.ReadyEvent?
    ensures var v := OnReady(cfg, w, e.screen, e.updated);
      && v.cast.damage.at == DamageAfterReady(w)
      && v.contents.at == ContentsAfterReady(w, e)
      && v.lastReady == Some(e.screen) && v.inflight.None?
      && (Uniform(cfg, w) ==> Uniform(cfg, v))
  {
  }

  /** After a ready event the pool agrees with the new screen exactly if the held buffer is the
      captured one, or holds that screen already, or there is none. */
  lemma SyncedOnReadyIff(cfg: Config, w: World, e: Event)
    requires cfg.slots >= 1 && Synced(cfg, w) && Enabled(cfg, w, e) && e.ReadyEvent?
    requires Linked(OnReady(cfg, w, e.screen, e.updated))
    ensures Synced(cfg, OnReady(cfg, w, e.screen, e.updated)) <==>
      ReadyMatches(w, e) || HeldIsCurrent(w, e.screen)
  {
    AfterReady(cfg, w, e);
    if ReadyMatches(w, e) || HeldIsCurrent(w, e.screen) {
      PoolAgreesAfterReady(cfg, w, e);
    } else {
      PoolDisagreesAfterReady(cfg, w, e);
    }
  }

  lemma SyncedStep(cfg: Config, w: World, e: Event)
    requires cfg.slots >= 1 && Synced(cfg, w) && Owned(w) && Enabled(cfg, w, e)
    requires AddedInTime(w, e) && ReadyMatches(w, e)
    ensures Synced(cfg, Step(cfg, w, e))
  {
    OwnedStep(cfg, w, e);
    match e
    case StateTo(state) => SyncedOnState(cfg, w, state);
    case Add(_, _, _) => SyncedOnAdd(cfg, w, e);
    case Remove(pw) => SyncedOnRemove(cfg, w, pw);
    case Process(pick, delayed) => SyncedOnProcess(cfg, w, pick, delayed);
    case TimerFires => SyncedOnTimer(cfg, w);
    case DamageEvent(r) => SyncedOnDamage(cfg, w, r);
    case ReadyEvent(_, _) => SyncedOnReadyIff(cfg, w, e);
    case FailedEvent(scribble) => SyncedOnFailed(cfg, w, scribble);
  }

  // ----- the pool, in every run -----

  ghost predicate Orderly(ws: seq<World>, es: seq<Event>)
    requires |ws| == |es| + 1
  {
    forall i :: 0 <= i < |es| ==> AddedInTime(ws[i], es[i]) && ReadyMatches(ws[i], es[i])
  }

  lemma {:induction false} SyncedEveryRun(cfg: Config, ws: seq<World>, es: seq<Event>, i: nat)
    requires Run(cfg, ws, es) && Orderly(ws, es) && i <= |es|
    ensures Synced(cfg, ws[i]) && Owned(ws[i])
  {
    OwnershipEveryRun(cfg, ws, es, i);
    if i > 0 {
      SyncedEveryRun(cfg, ws, es, i - 1);
      assert StepTo(cfg, ws[i - 1], es[i - 1], ws[i]);
      SyncedStep(cfg, ws[i - 1], es[i - 1]);
    }
  }

  /** In every orderly run, whatever else happens in it, each ready event leaves the captured
      buffer (if it still exists) equal to the whole screen, however little was copied. */
  lemma IncrementalCaptureIsFullCapture(cfg: Config, ws: seq<World>, es: seq<Event>, i: nat)
    requires Run(cfg, ws, es) && Orderly(ws, es) && i < |es| && es[i].ReadyEvent?
    ensures ws[i].inflight.Some?
    ensures ws[i].inflight.value.buffer in ws[i].cast.damage.at ==>
      ws[i].inflight.value.buffer in ws[i + 1].contents.at &&
      ws[i + 1].contents.at[ws[i].inflight.value.buffer] == es[i].screen
  {
    SyncedEveryRun(cfg, ws, es, i);
    assert StepTo(cfg, ws[i], es[i], ws[i + 1]);
    if ws[i].inflight.value.buffer in ws[i].cast.damage.at {
      ReadyCapturesScreen(cfg, ws[i], es[i]);
    }
  }

  // ----- the consumer -----

  /** A ready event hands a good frame to the consumer, and the regions packed into it cover the
      frame's damage. The second half always holds for the intended merge. */
  ghost predicate Delivers(cfg: Config, w: World, e: Event) {
    e.ReadyEvent? ==>
      && cfg.slots >= 1
      && w.cast.xdpwBuffer.Some?
      && ReadyMatches(w, e)
      && Covers(Pack(cfg.rule, w.cast.frameDamage, cfg.slots), w.cast.frameDamage)
  }

  /** The consumer holds the last ready screen; whatever has been reported for the current frame
      is in the damage its next good frame will carry. */
  ghost predicate ConsumerSynced(w: World) {
    && (w.lastReady.Some? ==> w.consumer == w.lastReady.value)
    && (w.inflight.Some? ==> Covers(w.cast.frameDamage, w.inflight.value.reported))
  }

  /** What the consumer repaints when the frame in flight is ready: nothing if no buffer is held. */
  ghost function Repainted(cfg: Config, w: World): set<Pixel>
    requires cfg.slots >= 1
  {
    if w.cast.xdpwBuffer.Some? then Region(cfg, Pack(cfg.rule, w.cast.frameDamage, cfg.slots)) else {}
  }

  /** A ready event leaves the consumer right at p: it repaints p from a buffer that has it, or does
      not repaint it and need not. */
  ghost predicate RightAt(cfg: Config, w: World, e: Event, p: Pixel)
    requires cfg.slots >= 1 && Linked(w) && Uniform(cfg, w) && Enabled(cfg, w, e) && e.ReadyEvent? && p in cfg.screen
  {
    if p in Repainted(cfg, w) then
      ReadyMatches(w, e) || w.contents.at[w.cast.xdpwBuffer.value].at[p] == e.screen.at[p]
    else w.consumer.at[p] == e.screen.at[p]
  }

  ghost predicate RightEverywhere(cfg: Config, w: World, e: Event) {
    cfg.slots >= 1 && Linked(w) && Uniform(cfg, w) && Enabled(cfg, w, e) && e.ReadyEvent? &&
    forall p :: p in cfg.screen ==> RightAt(cfg, w, e, p)
  }

  lemma ConsumerAfterReady(cfg: Config, w: World, e: Event)
    requires cfg.slots >= 1 && Placed(w) && Enabled(cfg, w, e) && e.ReadyEvent?
    ensures OnReady(cfg, w, e.screen, e.updated).consumer ==
      if w.cast.xdpwBuffer.None? then w.consumer
      else Paint(w.consumer, ContentsAfterReady(w, e)[w.cast.xdpwBuffer.value], Repainted(cfg, w))
  {
  }

  /** What the buffer that is handed to the consumer holds by then. */
  ghost function Handed(w: World, e: Event): Image
    requires Linked(w) && w.cast.xdpwBuffer.Some? && e.ReadyEvent?
  {
    if ReadyMatches(w, e) then e.screen else w.contents.at[w.cast.xdpwBuffer.value]
  }

  lemma HandedAfterReady(cfg: Config, w: World, e: Event)
    requires cfg.slots >= 1 && Synced(cfg, w) && Placed(w) && Enabled(cfg, w, e) && e.ReadyEvent?
    ensures OnReady(cfg, w, e.screen, e.updated).consumer ==
      if w.cast.xdpwBuffer.None? then w.consumer else Paint(w.consumer, Handed(w, e), Repainted(cfg, w))
  {
    ConsumerAfterReady(cfg, w, e);
    if w.cast.xdpwBuffer.Some? && ReadyMatches(w, e) {
      ReadyCapturesScreen(cfg, w, e);
    }
  }

  lemma RightAtMeaning(cfg: Config, w: World, e: Event, p: Pixel)
    requires cfg.slots >= 1 && Linked(w) && Uniform(cfg, w) && Enabled(cfg, w, e) && e.ReadyEvent?
    requires p in cfg.screen
    ensures var c := if w.cast.xdpwBuffer.None? then w.consumer else Paint(w.consumer, Handed(w, e), Repainted(cfg, w));
      p in c.at && (c.at[p] == e.screen.at[p] <==> RightAt(cfg, w, e, p))
  {
  }

  /** A ready event, whatever buffer is held if any, leaves the consumer with the new screen exactly
      if every pixel outside what it repaints was right already, and every pixel it repaints comes
      from the captured buffer or was right in the buffer it comes from. */
  lemma ConsumerOnReadyIff(cfg: Config, w: World, e: Event)
    requires cfg.slots >= 1 && Synced(cfg, w) && Placed(w) && Enabled(cfg, w, e) && e.ReadyEvent?
    ensures ConsumerSynced(OnReady(cfg, w, e.screen, e.updated)) <==> RightEverywhere(cfg, w, e)
  {
    AfterReady(cfg, w, e);
    HandedAfterReady(cfg, w, e);
    var c := OnReady(cfg, w, e.screen, e.updated).consumer;
    forall p | p in cfg.screen
      ensures p in c.at && (c.at[p] == e.screen.at[p] <==> RightAt(cfg, w, e, p))
    {
      RightAtMeaning(cfg, w, e, p);
    }
    SameImageIff(c, e.screen);
  }

  lemma SameImageIff(a: Image, b: Image)
    requires a.at.Keys == b.at.Keys
    ensures a == b <==> forall p :: p in a.at ==> a.at[p] == b.at[p]
  {
    if forall p :: p in a.at ==> a.at[p] == b.at[p] {
      assert a.at == b.at;
    }
  }

  lemma ConsumerOnReady(cfg: Config, w: World, e: Event)
    requires cfg.slots >= 1 && Synced(cfg, w) && Placed(w) && ConsumerSynced(w)
    requires Enabled(cfg, w, e) && e.ReadyEvent? && Delivers(cfg, w, e)
    ensures OnReady(cfg, w, e.screen, e.updated).consumer == e.screen
  {
    var f := w.inflight.value;
    var regions := Pack(cfg.rule, w.cast.frameDamage, cfg.slots);
    ReadyCapturesScreen(cfg, w, e);
    forall p | p in cfg.screen && p !in Region(cfg, regions) ensures w.consumer.at[p] == e.screen.at[p] {
      assert !Covered(w.cast.frameDamage, p);
      assert !Covered(f.reported, p);
    }
    PaintAll(w.consumer, e.screen, Region(cfg, regions));
  }

  lemma ConsumerOnState(cfg: Config, w: World, state: StreamState)
    requires cfg.slots >= 1 && Placed(w) && ConsumerSynced(w)
    ensures ConsumerSynced(OnState(cfg, w, state))
  {
  }

  lemma ConsumerOnFailed(cfg: Config, w: World, scribble: Image)
    requires cfg.slots >= 1 && Placed(w) && ConsumerSynced(w) && w.inflight.Some?
    ensures ConsumerSynced(OnFailed(cfg, w, scribble))
    ensures OnFailed(cfg, w, scribble).cast.frameDamage == w.cast.frameDamage
    ensures OnFailed(cfg, w, scribble).cast.damage == w.cast.damage
  {
  }

  lemma ConsumerOnProcess(w: World, pick: Option<PwId>, delayed: bool)
    requires Linked(w) && ConsumerSynced(w) && (pick.Some? ==> pick.value in w.withStream)
    ensures ConsumerSynced(OnProcess(w, pick, delayed))
  {
  }

  lemma ConsumerOnTimer(w: World)
    requires Linked(w) && ConsumerSynced(w) && w.cast.timers > 0
    ensures ConsumerSynced(OnTimer(w))
  {
  }

  lemma ConsumerStep(cfg: Config, w: World, e: Event)
    requires cfg.slots >= 1 && Synced(cfg, w) && Placed(w) && ConsumerSynced(w)
    requires Enabled(cfg, w, e) && Delivers(cfg, w, e)
    ensures ConsumerSynced(Step(cfg, w, e))
  {
    match e
    case StateTo(state) => ConsumerOnState(cfg, w, state);
    case Process(pick, delayed) => ConsumerOnProcess(w, pick, delayed);
    case TimerFires => ConsumerOnTimer(w);
    case FailedEvent(scribble) => ConsumerOnFailed(cfg, w, scribble);
    case ReadyEvent(screen, updated) =>
      ConsumerOnReady(cfg, w, e);
      AfterReady(cfg, w, e);
    case DamageEvent(r) => CoversSnoc(w.cast.frameDamage, w.inflight.value.reported, r);
    case Add(_, _, _) =>
    case Remove(_) =>
  }

  ghost predicate AllDelivered(cfg: Config, ws: seq<World>, es: seq<Event>)
    requires |ws| == |es| + 1
  {
    forall i :: 0 <= i < |es| ==> AddedInTime(ws[i], es[i]) && Delivers(cfg, ws[i], es[i])
  }

  /** End to end: in every run whose ready events all deliver, the consumer, which repaints only
      reported regions of good frames, holds exactly the last ready screen at every moment.
      Failed captures in between change nothing it holds and lose no damage. */
  lemma {:induction false} ConsumerHoldsScreen(cfg: Config, ws: seq<World>, es: seq<Event>, i: nat)
    requires Run(cfg, ws, es) && AllDelivered(cfg, ws, es) && i <= |es|
    ensures ws[i].lastReady.Some? ==> ws[i].consumer == ws[i].lastReady.value
    ensures ConsumerSynced(ws[i]) && Synced(cfg, ws[i])
    ensures i > 0 && es[i - 1].ReadyEvent? ==> ws[i].lastReady == Some(es[i - 1].screen)
  {
    assert Orderly(ws, es);
    SyncedEveryRun(cfg, ws, es, i);
    if i > 0 {
      ConsumerHoldsScreen(cfg, ws, es, i - 1);
      assert StepTo(cfg, ws[i - 1], es[i - 1], ws[i]);
      SyncedEveryRun(cfg, ws, es, i - 1);
      ConsumerStep(cfg, ws[i - 1], es[i - 1]);
    }
  }

  /** In every orderly run, the consumer holds the last ready screen at every moment if and only if
      every ready event leaves it right everywhere. */
  lemma ConsumerHoldsScreenIff(cfg: Config, ws: seq<World>, es: seq<Event>)
    requires Run(cfg, ws, es) && Orderly(ws, es)
    ensures (forall i :: 0 <= i <= |es| ==> ConsumerSynced(ws[i])) <==>
      (forall i :: 0 <= i < |es| && es[i].ReadyEvent? ==> RightEverywhere(cfg, ws[i], es[i]))
  {
    forall i | 0 <= i < |es| && es[i].ReadyEvent?
      ensures ConsumerSynced(ws[i + 1]) <==> RightEverywhere(cfg, ws[i], es[i])
    {
      SyncedEveryRun(cfg, ws, es, i);
      assert StepTo(cfg, ws[i], es[i], ws[i + 1]);
      ConsumerOnReadyIff(cfg, ws[i], es[i]);
    }
    if forall i :: 0 <= i <= |es| ==> ConsumerSynced(ws[i]) {
      forall i | 0 <= i < |es| && es[i].ReadyEvent? ensures RightEverywhere(cfg, ws[i], es[i]) {
        assert ConsumerSynced(ws[i + 1]);
      }
    }
    if forall i :: 0 <= i < |es| && es[i].ReadyEvent? ==> RightEverywhere(cfg, ws[i], es[i]) {
      forall i | 0 <= i <= |es| ensures ConsumerSynced(ws[i]) {
        RightRunsKeepConsumer(cfg, ws, es, i);
      }
    }
  }

  lemma {:induction false} RightRunsKeepConsumer(cfg: Config, ws: seq<World>, es: seq<Event>, i: nat)
    requires Run(cfg, ws, es) && Orderly(ws, es) && i <= |es|
    requires forall j :: 0 <= j < |es| && es[j].ReadyEvent? ==> RightEverywhere(cfg, ws[j], es[j])
    ensures ConsumerSynced(ws[i])
  {
    if i > 0 {
      RightRunsKeepConsumer(cfg, ws, es, i - 1);
      SyncedEveryRun(cfg, ws, es, i - 1);
      assert StepTo(cfg, ws[i - 1], es[i - 1], ws[i]);
      if es[i - 1].ReadyEvent? {
        ConsumerOnReadyIff(cfg, ws[i - 1], es[i - 1]);
      } else {
        ConsumerStep(cfg, ws[i - 1], es[i - 1]);
      }
    }
  }
}
