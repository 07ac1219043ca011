/** Short runs that show each assumption of the theorems about captures is needed. */
module CaptureExamples {
  import opened Common
  import opened Damage
  import opened Capture
  import opened CaptureRuns
  import opened DamageTracking
  import opened CaptureDiscipline

  const CORNER := Pixel(0, 0)
  const WHOLE: Rect := Box(0, 0, 1, 1)

  function Screen(c: Color): Image {
    Image(map[CORNER := c])
  }

  function Setup(rule: MergeRule): Config {
    Config(rule, 16, {CORNER})
  }

  /** A streaming cast with two buffers, all black, and a black consumer. */
  ghost function TwoBuffers(p1: PwId, p2: PwId, b1: BufferId, b2: BufferId, black: Color): World {
    World(CastState(true, None, None, false, [], [b2, b1], Table(map[b1 := [], b2 := []]), false, 0),
          Streaming, Table(map[p1 := b1, p2 := b2]), {p1, p2}, 0, 0, 0, None,
          Table(map[b1 := Screen(black), b2 := Screen(black)]), None, Screen(black), false)
  }

  ghost function Fresh(consumer: Image): World {
    World(CastState(false, None, None, false, [], [], Table(map[]), false, 0),
          Unconnected, Table(map[]), {}, 0, 0, 0, None, Table(map[]), None, consumer, false)
  }

  /** The stream is connected and paused. */
  ghost function Connected(consumer: Image): World {
    World(CastState(false, None, None, false, [], [], Table(map[]), false, 0),
          Paused, Table(map[]), {}, 0, 0, 0, None, Table(map[]), None, consumer, false)
  }

  lemma ConnectedReachable(cfg: Config, consumer: Image) returns (ws: seq<World>, es: seq<Event>)
    requires cfg.slots >= 1 && consumer.at.Keys == cfg.screen
    ensures QuietRun(cfg, ws, es) && es == [StateTo(Connecting), StateTo(Paused)]
    ensures ws[2] == Connected(consumer)
  {
    var w0 := Fresh(consumer);
    var w1 := OnState(cfg, w0, Connecting);
    var w2 := OnState(cfg, w1, Paused);
    es := [StateTo(Connecting), StateTo(Paused)];
    ws := [w0, w1, w2];
    assert StepTo(cfg, w0, es[0], w1) && StepTo(cfg, w1, es[1], w2);
  }

  lemma TwoBuffersReachable(rule: MergeRule, p1: PwId, p2: PwId, b1: BufferId, b2: BufferId, black: Color)
    returns (ws: seq<World>, es: seq<Event>)
    requires p1 != p2 && b1 != b2
    ensures Run(Setup(rule), ws, es) && |es| == 5
    ensures ws[5] == TwoBuffers(p1, p2, b1, b2, black)
  {
    var cfg := Setup(rule);
    ws, es := ConnectedReachable(cfg, Screen(black));
    var w3 := OnAdd(ws[2], p1, b1, Screen(black));
    RunSnoc(cfg, ws, es, Add(p1, b1, Screen(black)), w3);
    ws, es := ws + [w3], es + [Add(p1, b1, Screen(black))];
    var w4 := OnAdd(w3, p2, b2, Screen(black));
    assert w4.cast.damage.at == map[b1 := [], b2 := []];
    assert w4.userData.at == map[p1 := b1, p2 := b2] && w4.withStream == {p1, p2};
    assert w4.contents.at == map[b1 := Screen(black), b2 := Screen(black)];
    RunSnoc(cfg, ws, es, Add(p2, b2, Screen(black)), w4);
    ws, es := ws + [w4], es + [Add(p2, b2, Screen(black))];
    var w5 := OnState(cfg, w4, Streaming);
    RunSnoc(cfg, ws, es, StateTo(Streaming), w5);
    ws, es := ws + [w5], es + [StateTo(Streaming)];
  }

  lemma RunSnoc(cfg: Config, ws: seq<World>, es: seq<Event>, e: Event, v: World)
    requires Run(cfg, ws, es) && StepTo(cfg, ws[|es|], e, v)
    ensures Run(cfg, ws + [v], es + [e])
  {
    var xs, ys := ws + [v], es + [e];
    forall i | 0 <= i < |ys| ensures StepTo(cfg, xs[i], ys[i], xs[i + 1]) {
      assert i < |es| ==> StepTo(cfg, ws[i], es[i], ws[i + 1]);
    }
  }

  lemma QuietSnoc(cfg: Config, ws: seq<World>, es: seq<Event>, e: Event, v: World)
    requires QuietRun(cfg, ws, es) && StepTo(cfg, ws[|es|], e, v) && Quiet(ws[|es|], e)
    ensures QuietRun(cfg, ws + [v], es + [e])
  {
    RunSnoc(cfg, ws, es, e, v);
    var xs, ys := ws + [v], es + [e];
    forall i | 0 <= i < |ys| ensures Quiet(xs[i], ys[i]) {
      assert i < |es| ==> Quiet(ws[i], es[i]);
    }
  }

  /** The first capture is in flight, but its buffer has been given back. */
  ghost function Abandoned(p1: PwId, p2: PwId, b1: BufferId, b2: BufferId, black: Color): World {
    World(CastState(true, None, None, false, [], [b2, b1], Table(map[b1 := [], b2 := []]), true, 0),
          Streaming, Table(map[p1 := b1, p2 := b2]), {p1, p2}, 1, 1, 0, Some(Inflight(b1, [], [])),
          Table(map[b1 := Screen(black), b2 := Screen(black)]), None, Screen(black), false)
  }

  lemma AbandonedReachable(rule: MergeRule, p1: PwId, p2: PwId, b1: BufferId, b2: BufferId, black: Color)
    returns (ws: seq<World>, es: seq<Event>)
    requires p1 != p2 && b1 != b2
    ensures Run(Setup(rule), ws, es) && |es| == 8
    ensures ws[8] == Abandoned(p1, p2, b1, b2, black)
  {
    var cfg := Setup(rule);
    ws, es := TwoBuffersReachable(rule, p1, p2, b1, b2, black);
    var w5 := ws[5];
    var w6 := OnProcess(w5, Some(p1), false);
    assert w6.cast.pwBuffer == Some(p1) && w6.cast.xdpwBuffer == Some(b1) && !w6.cast.completed;
    assert w6.inflight == Some(Inflight(b1, [], [])) && w6.withStream == {p2};
    RunSnoc(cfg, ws, es, Process(Some(p1), false), w6);
    ws, es := ws + [w6], es + [Process(Some(p1), false)];
    var w7 := OnState(cfg, w6, Paused);
    assert w7.withStream == {p1, p2};
    RunSnoc(cfg, ws, es, StateTo(Paused), w7);
    ws, es := ws + [w7], es + [StateTo(Paused)];
    var w8 := OnState(cfg, w7, Streaming);
    RunSnoc(cfg, ws, es, StateTo(Streaming), w8);
    ws, es := ws + [w8], es + [StateTo(Streaming)];
  }

  /** The second buffer is held for a timer; the first capture has reported its damage. */
  ghost function Delayed(p1: PwId, p2: PwId, b1: BufferId, b2: BufferId, black: Color): World {
    World(CastState(true, Some(p2), Some(b2), false, [WHOLE], [b2, b1],
                    Table(map[b1 := [WHOLE], b2 := [WHOLE]]), true, 1),
          Streaming, Table(map[p1 := b1, p2 := b2]), {p1}, 2, 1, 0, Some(Inflight(b1, [], [WHOLE])),
          Table(map[b1 := Screen(black), b2 := Screen(black)]), None, Screen(black), false)
  }

  lemma DelayedReachable(rule: MergeRule, p1: PwId, p2: PwId, b1: BufferId, b2: BufferId, black: Color)
    returns (ws: seq<World>, es: seq<Event>)
    requires p1 != p2 && b1 != b2
    ensures Run(Setup(rule), ws, es) && |es| == 10
    ensures ws[10] == Delayed(p1, p2, b1, b2, black)
  {
    var cfg := Setup(rule);
    ws, es := AbandonedReachable(rule, p1, p2, b1, b2, black);
    var w8 := ws[8];
    var w9 := OnProcess(w8, Some(p2), true);
    assert w9.cast == CastState(true, Some(p2), Some(b2), false, [], [b2, b1], w8.cast.damage, true, 1);
    assert w9.inflight == w8.inflight && w9.withStream == {p1};
    RunSnoc(cfg, ws, es, Process(Some(p2), true), w9);
    ws, es := ws + [w9], es + [Process(Some(p2), true)];
    var w10 := OnDamage(w9, WHOLE);
    assert [] + [WHOLE] == [WHOLE];
    assert w10.cast.damage.at == map[b1 := [WHOLE], b2 := [WHOLE]];
    RunSnoc(cfg, ws, es, DamageEvent(WHOLE), w10);
    ws, es := ws + [w10], es + [DamageEvent(WHOLE)];
  }

  /** Pausing during a capture and resuming while the limiter delays the next one: the ready event
      then queues a buffer that was never captured into, as a good frame, and clears its damage.
      The consumer, having repainted the whole screen from it, still holds the old one. */
  lemma PauseResumeDeliversStale(rule: MergeRule, p1: PwId, p2: PwId, b1: BufferId, b2: BufferId,
                                 black: Color, white: Color)
    returns (ws: seq<World>, es: seq<Event>)
    requires p1 != p2 && b1 != b2 && black != white
    ensures Run(Setup(rule), ws, es) && |es| == 11
    ensures es[10] == ReadyEvent(Screen(white), {CORNER})
    ensures Queued(BeforeReadyQueue(ws[10].cast), rule, 16) == Some(Frame(p2, false, Pack(rule, [WHOLE], 16)))
    ensures ws[11].consumer == Screen(black)
    ensures b2 in ws[11].cast.damage.at && ws[11].cast.damage.at[b2] == []
    ensures b2 in ws[11].contents.at && ws[11].contents.at[b2] == Screen(black)
  {
    var cfg := Setup(rule);
    ws, es := DelayedReachable(rule, p1, p2, b1, b2, black);
    var w10 := ws[10];
    var e := ReadyEvent(Screen(white), {CORNER});
    assert Inside([WHOLE][0], CORNER);
    assert Enabled(cfg, w10, e);
    var w11 := OnReady(cfg, w10, Screen(white), {CORNER});
    assert ContentsAfterReady(w10, e)[b2] == Screen(black);
    PaintAll(Screen(black), Screen(black), Region(cfg, Pack(rule, [WHOLE], 16)));
    RunSnoc(cfg, ws, es, e, w11);
    ws, es := ws + [w11], es + [e];
  }

  // ----- the shipped merge -----

  const RIGHT := Pixel(5, 0)
  const LOW := Pixel(0, 10)
  const RIGHT_BOX: Rect := Box(5, 0, 1, 1)
  const LOW_BOX: Rect := Box(0, 10, 1, 1)

  function Pair(c: Color): Image {
    Image(map[RIGHT := c, LOW := c])
  }

  lemma LowIsLost()
    ensures Pack(AsWritten, [RIGHT_BOX, LOW_BOX], 1) == [Box(5, 0, 1, 11)]
    ensures Region(Config(AsWritten, 1, {RIGHT, LOW}), Pack(AsWritten, [RIGHT_BOX, LOW_BOX], 1)) == {RIGHT}
    ensures Covered([RIGHT_BOX, LOW_BOX], RIGHT) && Covered([RIGHT_BOX, LOW_BOX], LOW)
  {
    var damage := [RIGHT_BOX, LOW_BOX];
    assert damage[1..] == [LOW_BOX];
    assert FoldMerge(AsWritten, RIGHT_BOX, [LOW_BOX]) ==
           FoldMerge(AsWritten, Merge(AsWritten, RIGHT_BOX, LOW_BOX), []);
    assert Inside(damage[0], RIGHT) && Inside(damage[1], LOW);
    assert Inside([Box(5, 0, 1, 11)][0], RIGHT);
  }

  function OneRegion(): Config {
    Config(AsWritten, 1, {RIGHT, LOW})
  }

  /** One buffer, captured into, with both rectangles reported. */
  ghost function Reported(p: PwId, b: BufferId, black: Color): World {
    World(CastState(true, Some(p), Some(b), false, [RIGHT_BOX, LOW_BOX], [b],
                    Table(map[b := [RIGHT_BOX, LOW_BOX]]), true, 0),
          Streaming, Table(map[p := b]), {}, 1, 0, 0, Some(Inflight(b, [], [RIGHT_BOX, LOW_BOX])),
          Table(map[b := Pair(black)]), None, Pair(black), false)
  }

  ghost function Capturing(p: PwId, b: BufferId, black: Color): World {
    World(CastState(true, Some(p), Some(b), false, [], [b], Table(map[b := []]), true, 0),
          Streaming, Table(map[p := b]), {}, 1, 0, 0, Some(Inflight(b, [], [])),
          Table(map[b := Pair(black)]), None, Pair(black), false)
  }

  lemma CapturingReachable(p: PwId, b: BufferId, black: Color) returns (ws: seq<World>, es: seq<Event>)
    ensures QuietRun(OneRegion(), ws, es) && |es| == 5
    ensures forall i :: 0 <= i < |es| ==> AddedInTime(ws[i], es[i])
    ensures ws[5] == Capturing(p, b, black)
  {
    var cfg := OneRegion();
    ws, es := ConnectedReachable(cfg, Pair(black));
    var w3 := OnAdd(ws[2], p, b, Pair(black));
    QuietSnoc(cfg, ws, es, Add(p, b, Pair(black)), w3);
    ws, es := ws + [w3], es + [Add(p, b, Pair(black))];
    var w4 := OnState(cfg, w3, Streaming);
    QuietSnoc(cfg, ws, es, StateTo(Streaming), w4);
    ws, es := ws + [w4], es + [StateTo(Streaming)];
    var w5 := OnProcess(w4, Some(p), false);
    assert w5.cast == CastState(true, Some(p), Some(b), false, [], [b], w4.cast.damage, true, 0);
    assert w5.inflight == Some(Inflight(b, [], [])) && w5.withStream == {};
    assert w5.cast.damage.at == map[b := []] && w5.contents.at == map[b := Pair(black)];
    QuietSnoc(cfg, ws, es, Process(Some(p), false), w5);
    ws, es := ws + [w5], es + [Process(Some(p), false)];
  }

  lemma ReportedReachable(p: PwId, b: BufferId, black: Color) returns (ws: seq<World>, es: seq<Event>)
    ensures QuietRun(OneRegion(), ws, es) && |es| == 7
    ensures forall i :: 0 <= i < |es| ==> AddedInTime(ws[i], es[i])
    ensures ws[7] == Reported(p, b, black)
  {
    var cfg := OneRegion();
    ws, es := CapturingReachable(p, b, black);
    var w5 := ws[5];
    var w6 := OnDamage(w5, RIGHT_BOX);
    var w7 := OnDamage(w6, LOW_BOX);
    assert [] + [RIGHT_BOX] == [RIGHT_BOX] && [RIGHT_BOX] + [LOW_BOX] == [RIGHT_BOX, LOW_BOX];
    assert w6.cast.damage.at == map[b := [RIGHT_BOX]];
    assert w7.cast.damage.at == map[b := [RIGHT_BOX, LOW_BOX]];
    RunSnoc(cfg, ws, es, DamageEvent(RIGHT_BOX), w6);
    ws, es := ws + [w6], es + [DamageEvent(RIGHT_BOX)];
    RunSnoc(cfg, ws, es, DamageEvent(LOW_BOX), w7);
    ws, es := ws + [w7], es + [DamageEvent(LOW_BOX)];
  }

  /** In a quiet run with a timely pool, the shipped comparison alone leaves the consumer with a
      stale pixel: two rectangles folded into one region. */
  lemma AsWrittenLeavesStale(p: PwId, b: BufferId, black: Color, white: Color)
    returns (ws: seq<World>, es: seq<Event>)
    requires black != white
    ensures QuietRun(OneRegion(), ws, es) && |es| == 8
    ensures forall i :: 0 <= i < |es| ==> AddedInTime(ws[i], es[i])
    ensures es[7] == ReadyEvent(Pair(white), {RIGHT, LOW})
    ensures ws[8].consumer == Image(map[RIGHT := white, LOW := black])
  {
    var cfg := OneRegion();
    ws, es := ReportedReachable(p, b, black);
    var w7 := ws[7];
    var e := ReadyEvent(Pair(white), {RIGHT, LOW});
    LowIsLost();
    assert Enabled(cfg, w7, e);
    var w8 := OnReady(cfg, w7, Pair(white), {RIGHT, LOW});
    PaintAll(Pair(black), Pair(white), {RIGHT, LOW});
    assert ContentsAfterReady(w7, e)[b] == Pair(white);
    assert Paint(Pair(black), Pair(white), {RIGHT}).at == map[RIGHT := white, LOW := black];
    assert w8.consumer == Paint(Pair(black), Pair(white), {RIGHT});
    RunSnoc(cfg, ws, es, e, w8);
    ws, es := ws + [w8], es + [e];
  }

  // ----- one buffer on a screen of one pixel -----

  lemma CornerRegions(rule: MergeRule)
    ensures Covered([WHOLE], CORNER)
    ensures Region(Setup(rule), Pack(rule, [WHOLE], 16)) == {CORNER}
    ensures Region(Setup(rule), Pack(rule, [], 16)) == {}
  {
    assert Inside([WHOLE][0], CORNER);
    PackExactWhenItFits(rule, [WHOLE], 16);
    PackExactWhenItFits(rule, [], 16);
    assert !Covered([], CORNER);
  }

  /** The first capture has reported the whole screen. */
  ghost function FirstReported(p: PwId, b: BufferId, black: Color): World {
    World(CastState(true, Some(p), Some(b), false, [WHOLE], [b], Table(map[b := [WHOLE]]), true, 0),
          Streaming, Table(map[p := b]), {}, 1, 0, 0, Some(Inflight(b, [], [WHOLE])),
          Table(map[b := Screen(black)]), None, Screen(black), false)
  }

  lemma FirstReportedReachable(rule: MergeRule, p: PwId, b: BufferId, black: Color)
    returns (ws: seq<World>, es: seq<Event>)
    ensures QuietRun(Setup(rule), ws, es) && |es| == 6 && ws[6] == FirstReported(p, b, black)
    ensures forall i :: 0 <= i < |es| ==> AddedInTime(ws[i], es[i]) && !es[i].ReadyEvent?
  {
    var cfg := Setup(rule);
    ws, es := ConnectedReachable(cfg, Screen(black));
    var w3 := OnAdd(ws[2], p, b, Screen(black));
    QuietSnoc(cfg, ws, es, Add(p, b, Screen(black)), w3);
    ws, es := ws + [w3], es + [Add(p, b, Screen(black))];
    var w4 := OnState(cfg, w3, Streaming);
    QuietSnoc(cfg, ws, es, StateTo(Streaming), w4);
    ws, es := ws + [w4], es + [StateTo(Streaming)];
    var w5 := OnProcess(w4, Some(p), false);
    assert w5.cast == CastState(true, Some(p), Some(b), false, [], [b], w4.cast.damage, true, 0);
    assert w5.inflight == Some(Inflight(b, [], [])) && w5.withStream == {};
    QuietSnoc(cfg, ws, es, Process(Some(p), false), w5);
    ws, es := ws + [w5], es + [Process(Some(p), false)];
    var w6 := OnDamage(w5, WHOLE);
    assert [] + [WHOLE] == [WHOLE];
    assert w6.cast.damage.at == map[b := [WHOLE]] && w6.contents.at == map[b := Screen(black)];
    QuietSnoc(cfg, ws, es, DamageEvent(WHOLE), w6);
    ws, es := ws + [w6], es + [DamageEvent(WHOLE)];
  }

  // ----- damage that never reaches the consumer -----

  /** The stream was paused during the first capture, whose ready event then found nothing held. */
  ghost function Undelivered(p: PwId, b: BufferId, black: Color, white: Color): World {
    World(CastState(false, None, None, true, [], [b], Table(map[b := [WHOLE]]), false, 0),
          Paused, Table(map[p := b]), {p}, 1, 1, 0, None,
          Table(map[b := Screen(white)]), Some(Screen(white)), Screen(black), false)
  }

  lemma UndeliveredReachable(rule: MergeRule, p: PwId, b: BufferId, black: Color, white: Color)
    returns (ws: seq<World>, es: seq<Event>)
    ensures Run(Setup(rule), ws, es) && Orderly(ws, es) && |es| == 8
    ensures ws[8] == Undelivered(p, b, black, white)
  {
    var cfg := Setup(rule);
    ws, es := FirstReportedReachable(rule, p, b, black);
    CornerRegions(rule);
    var w6 := ws[6];
    var w7 := OnState(cfg, w6, Paused);
    assert w7.withStream == {p};
    OrderlySnoc(cfg, ws, es, StateTo(Paused), w7);
    ws, es := ws + [w7], es + [StateTo(Paused)];
    var e := ReadyEvent(Screen(white), {CORNER});
    assert Enabled(cfg, w7, e);
    var w8 := OnReady(cfg, w7, Screen(white), {CORNER});
    PaintAll(Screen(black), Screen(white), {CORNER});
    assert w8.contents.at == map[b := Screen(white)];
    OrderlySnoc(cfg, ws, es, e, w8);
    ws, es := ws + [w8], es + [e];
  }

  /** The same buffer is being captured into again; nothing has been reported. */
  ghost function Resumed(p: PwId, b: BufferId, black: Color, white: Color): World {
    World(CastState(true, Some(p), Some(b), false, [], [b], Table(map[b := [WHOLE]]), true, 0),
          Streaming, Table(map[p := b]), {}, 2, 1, 0, Some(Inflight(b, [WHOLE], [])),
          Table(map[b := Screen(white)]), Some(Screen(white)), Screen(black), false)
  }

  lemma OrderlySnoc(cfg: Config, ws: seq<World>, es: seq<Event>, e: Event, v: World)
    requires Run(cfg, ws, es) && StepTo(cfg, ws[|es|], e, v)
    requires Orderly(ws, es) && AddedInTime(ws[|es|], e) && ReadyMatches(ws[|es|], e)
    ensures Run(cfg, ws + [v], es + [e]) && Orderly(ws + [v], es + [e])
  {
    RunSnoc(cfg, ws, es, e, v);
    var xs, ys := ws + [v], es + [e];
    forall i | 0 <= i < |ys| ensures AddedInTime(xs[i], ys[i]) && ReadyMatches(xs[i], ys[i]) {
      assert i < |es| ==> AddedInTime(ws[i], es[i]) && ReadyMatches(ws[i], es[i]);
    }
  }

  lemma ResumedReachable(rule: MergeRule, p: PwId, b: BufferId, black: Color, white: Color)
    returns (ws: seq<World>, es: seq<Event>)
    ensures Run(Setup(rule), ws, es) && Orderly(ws, es) && |es| == 10 && ws[10] == Resumed(p, b, black, white)
  {
    var cfg := Setup(rule);
    ws, es := UndeliveredReachable(rule, p, b, black, white);
    var w8 := ws[8];
    var w9 := OnState(cfg, w8, Streaming);
    OrderlySnoc(cfg, ws, es, StateTo(Streaming), w9);
    ws, es := ws + [w9], es + [StateTo(Streaming)];
    var w10 := OnProcess(w9, Some(p), false);
    assert w10.cast == CastState(true, Some(p), Some(b), false, [], [b], w8.cast.damage, true, 0);
    assert w10.inflight == Some(Inflight(b, [WHOLE], [])) && w10.withStream == {};
    OrderlySnoc(cfg, ws, es, Process(Some(p), false), w10);
    ws, es := ws + [w10], es + [Process(Some(p), false)];
  }

  lemma ResumedReady(rule: MergeRule, p: PwId, b: BufferId, black: Color, white: Color)
    ensures var w := Resumed(p, b, black, white);
      var e := ReadyEvent(Screen(white), {CORNER});
      && Placed(w) && Enabled(Setup(rule), w, e) && ReadyMatches(w, e)
      && OnReady(Setup(rule), w, e.screen, e.updated).consumer == Screen(black)
  {
    var cfg := Setup(rule);
    var w := Resumed(p, b, black, white);
    var e := ReadyEvent(Screen(white), {CORNER});
    CornerRegions(rule);
    PaintAll(Screen(white), Screen(white), {CORNER});
    assert Paint(Screen(black), Screen(white), {}).at == Screen(black).at;
    ConsumerAfterReady(cfg, w, e);
  }

  /** Pausing during a capture and resuming after it is ready: the pool stays right and so does the
      buffer of the next capture, but the first frame's damage is cleared with no frame to carry it,
      and the consumer never learns of it. */
  lemma PausedDamageIsLost(rule: MergeRule, p: PwId, b: BufferId, black: Color, white: Color)
    returns (ws: seq<World>, es: seq<Event>)
    requires black != white
    ensures Run(Setup(rule), ws, es) && Orderly(ws, es) && |es| == 11
    ensures es[10] == ReadyEvent(Screen(white), {CORNER})
    ensures Queued(BeforeReadyQueue(ws[10].cast), rule, 16) == Some(Frame(p, false, Pack(rule, [], 16)))
    ensures ws[11].lastReady == Some(Screen(white)) && ws[11].consumer == Screen(black)
  {
    var cfg := Setup(rule);
    ws, es := ResumedReachable(rule, p, b, black, white);
    ResumedReady(rule, p, b, black, white);
    var e := ReadyEvent(Screen(white), {CORNER});
    AfterReady(cfg, ws[10], e);
    var w11 := OnReady(cfg, ws[10], e.screen, e.updated);
    OrderlySnoc(cfg, ws, es, e, w11);
    ws, es := ws + [w11], es + [e];
  }

  // ----- two frames at once -----

  /** Pausing during a capture and resuming without a delay: a second frame is created beside the
      first, which the protocol forbids. */
  lemma ResumeCreatesSecondFrame(rule: MergeRule, p1: PwId, p2: PwId, b1: BufferId, b2: BufferId, black: Color)
    returns (ws: seq<World>, es: seq<Event>)
    requires p1 != p2 && b1 != b2
    ensures Run(Setup(rule), ws, es) && |es| == 9
    ensures !ws[8].protocolError && ws[9].protocolError
  {
    var cfg := Setup(rule);
    ws, es := AbandonedReachable(rule, p1, p2, b1, b2, black);
    var e := Process(Some(p2), false);
    SecondFrameIff(cfg, ws[8], e);
    RunSnoc(cfg, ws, es, e, OnProcess(ws[8], Some(p2), false));
    ws, es := ws + [OnProcess(ws[8], Some(p2), false)], es + [e];
  }

  // ----- a buffer that joins late -----

  /** A first frame was delivered; a second one reported the whole screen and failed. */
  ghost function SecondFailed(p: PwId, b: BufferId, white: Color): World {
    World(CastState(true, None, None, false, [WHOLE], [b], Table(map[b := [WHOLE]]), false, 0),
          Streaming, Table(map[p := b]), {p}, 2, 2, 0, None,
          Table(map[b := Screen(white)]), Some(Screen(white)), Screen(white), false)
  }

  ghost function FirstDelivered(p: PwId, b: BufferId, white: Color): World {
    World(CastState(true, None, None, true, [], [b], Table(map[b := []]), false, 0),
          Streaming, Table(map[p := b]), {p}, 1, 1, 0, None,
          Table(map[b := Screen(white)]), Some(Screen(white)), Screen(white), false)
  }

  lemma FirstDeliveredReachable(rule: MergeRule, p: PwId, b: BufferId, black: Color, white: Color)
    returns (ws: seq<World>, es: seq<Event>)
    ensures QuietRun(Setup(rule), ws, es) && |es| == 7 && ws[7] == FirstDelivered(p, b, white)
  {
    var cfg := Setup(rule);
    ws, es := FirstReportedReachable(rule, p, b, black);
    CornerRegions(rule);
    var w6 := ws[6];
    var e := ReadyEvent(Screen(white), {CORNER});
    assert Enabled(cfg, w6, e);
    var w7 := OnReady(cfg, w6, Screen(white), {CORNER});
    PaintAll(Screen(black), Screen(white), {CORNER});
    assert w7.contents.at == map[b := Screen(white)] && w7.cast.damage.at == map[b := []];
    assert w7.withStream == {p};
    QuietSnoc(cfg, ws, es, e, w7);
    ws, es := ws + [w7], es + [e];
  }

  lemma SecondFailedReachable(rule: MergeRule, p: PwId, b: BufferId, black: Color, white: Color)
    returns (ws: seq<World>, es: seq<Event>)
    ensures QuietRun(Setup(rule), ws, es) && |es| == 10 && ws[10] == SecondFailed(p, b, white)
  {
    var cfg := Setup(rule);
    ws, es := FirstDeliveredReachable(rule, p, b, black, white);
    var w7 := ws[7];
    var w8 := OnProcess(w7, Some(p), false);
    assert w8.cast == CastState(true, Some(p), Some(b), false, [], [b], w7.cast.damage, true, 0);
    assert w8.inflight == Some(Inflight(b, [], [])) && w8.withStream == {};
    QuietSnoc(cfg, ws, es, Process(Some(p), false), w8);
    ws, es := ws + [w8], es + [Process(Some(p), false)];
    var w9 := OnDamage(w8, WHOLE);
    assert [] + [WHOLE] == [WHOLE];
    assert w9.cast.damage.at == map[b := [WHOLE]];
    QuietSnoc(cfg, ws, es, DamageEvent(WHOLE), w9);
    ws, es := ws + [w9], es + [DamageEvent(WHOLE)];
    var w10 := OnFailed(cfg, w9, Screen(white));
    assert Paint(Screen(white), Screen(white), Region(cfg, [] + [WHOLE])).at == Screen(white).at;
    assert w10.contents.at == map[b := Screen(white)] && w10.withStream == {p};
    QuietSnoc(cfg, ws, es, FailedEvent(Screen(white)), w10);
    ws, es := ws + [w10], es + [FailedEvent(Screen(white))];
  }

  /** A new, black buffer is captured into without any damage. */
  ghost function LateCapture(p1: PwId, p2: PwId, b1: BufferId, b2: BufferId, black: Color, white: Color): World {
    World(CastState(true, Some(p2), Some(b2), false, [WHOLE], [b2, b1],
                    Table(map[b1 := [WHOLE], b2 := []]), true, 0),
          Streaming, Table(map[p1 := b1, p2 := b2]), {p1}, 3, 2, 0, Some(Inflight(b2, [], [])),
          Table(map[b1 := Screen(white), b2 := Screen(black)]), Some(Screen(white)), Screen(white), false)
  }

  lemma LateCaptureReachable(rule: MergeRule, p1: PwId, p2: PwId, b1: BufferId, b2: BufferId,
                             black: Color, white: Color)
    returns (ws: seq<World>, es: seq<Event>)
    requires p1 != p2 && b1 != b2
    ensures QuietRun(Setup(rule), ws, es) && |es| == 12
    ensures ws[12] == LateCapture(p1, p2, b1, b2, black, white)
  {
    var cfg := Setup(rule);
    ws, es := SecondFailedReachable(rule, p1, b1, black, white);
    var w10 := ws[10];
    var w11 := OnAdd(w10, p2, b2, Screen(black));
    assert w11.cast.damage.at == map[b1 := [WHOLE], b2 := []];
    assert w11.userData.at == map[p1 := b1, p2 := b2] && w11.withStream == {p1, p2};
    assert w11.contents.at == map[b1 := Screen(white), b2 := Screen(black)];
    QuietSnoc(cfg, ws, es, Add(p2, b2, Screen(black)), w11);
    ws, es := ws + [w11], es + [Add(p2, b2, Screen(black))];
    var w12 := OnProcess(w11, Some(p2), false);
    assert w12.cast == CastState(true, Some(p2), Some(b2), false, [WHOLE], [b2, b1], w11.cast.damage, true, 0);
    assert w12.inflight == Some(Inflight(b2, [], [])) && w12.withStream == {p1};
    QuietSnoc(cfg, ws, es, Process(Some(p2), false), w12);
    ws, es := ws + [w12], es + [Process(Some(p2), false)];
  }

  lemma LateCaptureReady(rule: MergeRule, p1: PwId, p2: PwId, b1: BufferId, b2: BufferId,
                         black: Color, white: Color)
    requires p1 != p2 && b1 != b2
    ensures var w := LateCapture(p1, p2, b1, b2, black, white);
      var e := ReadyEvent(Screen(white), {});
      && Placed(w) && Enabled(Setup(rule), w, e)
      && ContentsAfterReady(w, e)[b2] == Screen(black)
      && OnReady(Setup(rule), w, e.screen, e.updated).consumer == Screen(black)
  {
    var cfg := Setup(rule);
    var w := LateCapture(p1, p2, b1, b2, black, white);
    var e := ReadyEvent(Screen(white), {});
    CornerRegions(rule);
    assert [] + [] == w.inflight.value.sent;
    assert !Covered([], CORNER);
    assert Paint(Screen(black), Screen(white), {}).at == Screen(black).at;
    assert Paint(Screen(white), Screen(black), {CORNER}).at == Screen(black).at;
    ConsumerAfterReady(cfg, w, e);
  }

  /** A quiet run in which a buffer joins after a ready frame. It is captured into with no damage, so
      the compositor need not write anything: the ready frame leaves it unlike the screen. Carrying
      the damage of the frame that failed before, it makes the consumer repaint the whole screen. */
  lemma LateBufferDeliversStale(rule: MergeRule, p1: PwId, p2: PwId, b1: BufferId, b2: BufferId,
                                black: Color, white: Color)
    returns (ws: seq<World>, es: seq<Event>)
    requires p1 != p2 && b1 != b2 && black != white
    ensures QuietRun(Setup(rule), ws, es) && |es| == 13
    ensures es[12] == ReadyEvent(Screen(white), {}) && ws[12].inflight == Some(Inflight(b2, [], []))
    ensures b2 in ws[13].contents.at && ws[13].contents.at[b2] == Screen(black)
    ensures ws[13].lastReady == Some(Screen(white)) && ws[13].consumer == Screen(black)
  {
    var cfg := Setup(rule);
    ws, es := LateCaptureReachable(rule, p1, p2, b1, b2, black, white);
    LateCaptureReady(rule, p1, p2, b1, b2, black, white);
    var e := ReadyEvent(Screen(white), {});
    AfterReady(cfg, ws[12], e);
    var w13 := OnReady(cfg, ws[12], e.screen, e.updated);
    QuietSnoc(cfg, ws, es, e, w13);
    ws, es := ws + [w13], es + [e];
  }
}
