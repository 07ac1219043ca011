/** The cast together with the parties around it: PipeWire, the compositor (the protocol
    ext-image-copy-capture-v1, interface ext_image_copy_capture_frame_v1) and a consumer that
    drops corrupted frames and repaints only the regions a good frame reports. */
module CaptureRuns {
  import opened Common
  import opened Damage
  import opened Capture

  type Color(==, !new)
  datatype Image = Image(at: map<Pixel, Color>)

  datatype Config = Config(rule: MergeRule, slots: nat, screen: set<Pixel>)

  /** A capture the compositor is working on: the damage the client sent with the buffer,
      and the damage events emitted for this frame so far. */
  datatype Inflight = Inflight(buffer: BufferId, sent: seq<Rect>, reported: seq<Rect>)

  datatype World = World(
    cast: CastState,
    streamState: StreamState,
    userData: Table<PwId, BufferId>,  // of every PipeWire buffer of the stream
    withStream: set<PwId>,
    dequeued: nat, queued: nat, lost: nat,
    inflight: Option<Inflight>,
    contents: Table<BufferId, Image>, // every buffer ever created
    lastReady: Option<Image>,         // the screen of the last ready frame
    consumer: Image,
    protocolError: bool               // a second frame was created beside a live one
  )

  datatype Event =
    | StateTo(state: StreamState)
    | Add(pw: PwId, buffer: BufferId, content: Image)
    | Remove(pw: PwId)
    | Process(pick: Option<PwId>, delayed: bool)
    | TimerFires
    | DamageEvent(rect: Rect)
    | ReadyEvent(screen: Image, updated: set<Pixel>)
    | FailedEvent(scribble: Image)

  function Paint(dst: Image, src: Image, area: set<Pixel>): Image {
    Image(map p | p in dst.at :: if p in area && p in src.at then src.at[p] else dst.at[p])
  }

  function Region(cfg: Config, rs: seq<Rect>): set<Pixel> {
    set p | p in cfg.screen && Covered(rs, p)
  }

  ghost predicate Init(cfg: Config, w: World) {
    && cfg.slots >= 1
    && w.cast == CastState(false, None, None, false, [], [], Table(map[]), false, 0)
    && w.streamState == Unconnected
    && w.userData == Table(map[]) && w.withStream == {} && w.contents == Table(map[])
    && w.dequeued == 0 && w.queued == 0 && w.lost == 0
    && w.inflight.None? && w.lastReady.None? && !w.protocolError
    && w.consumer.at.Keys == cfg.screen
  }

  /** What the other parties may do. A damage description covers every pixel that differs from
      the last ready frame (the first one covers the whole screen), and the compositor updates
      at least the damage the client sent and the damage it reported. */
  ghost predicate Enabled(cfg: Config, w: World, e: Event) {
    && !w.protocolError
    && match e
       case StateTo(_) => true
       case Add(pw, b, content) => pw !in w.userData.at && b !in w.contents.at && content.at.Keys == cfg.screen
       case Remove(pw) => pw in w.userData.at
       case Process(pick, _) => pick.Some? ==> pick.value in w.withStream
       case TimerFires => w.cast.timers > 0
       case DamageEvent(_) => w.inflight.Some?
       case ReadyEvent(screen, updated) =>
         && w.inflight.Some?
         && screen.at.Keys == cfg.screen && updated <= cfg.screen
         && Region(cfg, w.inflight.value.sent + w.inflight.value.reported) <= updated
         && forall p :: p in cfg.screen && !Covered(w.inflight.value.reported, p) ==>
              w.lastReady.Some? && p in w.lastReady.value.at && w.lastReady.value.at[p] == screen.at[p]
       case FailedEvent(_) => w.inflight.Some?
  }

  function Pick(w: World, pick: Option<PwId>): Option<(PwId, BufferId)>
    requires pick.Some? ==> pick.value in w.userData.at
  {
    if pick.None? then None else Some((pick.value, w.userData.at[pick.value]))
  }

  /** The requests reach the compositor. */
  function Submit(w: World, request: Option<Request>): World {
    if request.None? then w
    else if w.inflight.Some? then w.(protocolError := true)
    else w.(inflight := Some(Inflight(request.value.buffer, request.value.sent, [])))
  }

  /** A queued frame goes back to PipeWire and is seen by the consumer. */
  function Deliver(cfg: Config, w: World, frame: Option<Frame>): World
    requires frame.Some? ==> frame.value.pw in w.userData.at && w.userData.at[frame.value.pw] in w.contents.at
  {
    if frame.None? then w
    else
      var f := frame.value;
      w.(withStream := w.withStream + {f.pw},
         queued := w.queued + 1,
         consumer := if f.corrupt then w.consumer
                     else Paint(w.consumer, w.contents.at[w.userData.at[f.pw]], Region(cfg, f.regions)))
  }

  /** The held PipeWire buffer is one of the stream's, carries the held buffer, and that buffer is live. */
  ghost predicate Linked(w: World) {
    && WellFormed(w.cast)
    && (w.cast.pwBuffer.Some? ==>
         w.cast.pwBuffer.value in w.userData.at &&
         w.cast.xdpwBuffer == Some(w.userData.at[w.cast.pwBuffer.value]))
    && (forall pw :: pw in w.userData.at ==> w.userData.at[pw] in w.cast.damage.at)
    && (forall b :: b in w.cast.damage.at ==> b in w.contents.at)
    && w.withStream <= w.userData.at.Keys
    && (w.inflight.Some? ==> w.inflight.value.buffer in w.contents.at)
  }

  ghost function OnState(cfg: Config, w: World, state: StreamState): World
    requires cfg.slots >= 1 && Linked(w)
  {
    var v := w.(cast := StateChanged(w.cast, w.streamState, state), streamState := state);
    if Releases(w.streamState, state) then Deliver(cfg, v, Queued(w.cast, cfg.rule, cfg.slots)) else v
  }

  ghost function OnAdd(w: World, pw: PwId, b: BufferId, content: Image): World {
    w.(cast := Added(w.cast, b), userData := Table(w.userData.at[pw := b]),
       withStream := w.withStream + {pw}, contents := Table(w.contents.at[b := content]))
  }

  ghost function OnRemove(w: World, pw: PwId): World
    requires pw in w.userData.at
  {
    w.(cast := Removed(w.cast, pw, Some(w.userData.at[pw])), userData := Table(w.userData.at - {pw}),
       withStream := w.withStream - {pw},
       lost := w.lost + if w.cast.pwBuffer == Some(pw) then 1 else 0)
  }

  ghost function OnProcess(w: World, pick: Option<PwId>, delayed: bool): World
    requires Linked(w) && (pick.Some? ==> pick.value in w.withStream)
  {
    var taken := Dequeues(w.cast) && pick.Some?;
    var v := w.(cast := Processed(w.cast, Pick(w, pick), delayed),
                withStream := if taken then w.withStream - {pick.value} else w.withStream,
                dequeued := w.dequeued + if taken then 1 else 0);
    Submit(v, ProcessRequest(w.cast, Pick(w, pick), delayed))
  }

  ghost function OnTimer(w: World): World
    requires Linked(w) && w.cast.timers > 0
  {
    Submit(w.(cast := Started(w.cast).(timers := w.cast.timers - 1)), StartRequest(w.cast))
  }

  ghost function OnDamage(w: World, r: Rect): World
    requires w.inflight.Some?
  {
    var f := w.inflight.value;
    w.(cast := Damaged(w.cast, r), inflight := Some(f.(reported := f.reported + [r])))
  }

  ghost function OnReady(cfg: Config, w: World, screen: Image, updated: set<Pixel>): World
    requires cfg.slots >= 1 && Linked(w) && w.inflight.Some?
  {
    var b := w.inflight.value.buffer;
    var v := w.(contents := Table(w.contents.at[b := Paint(w.contents.at[b], screen, updated)]),
                inflight := None, lastReady := Some(screen), cast := Ready(w.cast));
    Deliver(cfg, v, Queued(BeforeReadyQueue(w.cast), cfg.rule, cfg.slots))
  }

  /** A failed copy may have written anywhere the compositor was allowed to write. */
  ghost function OnFailed(cfg: Config, w: World, scribble: Image): World
    requires cfg.slots >= 1 && Linked(w) && w.inflight.Some?
  {
    var f := w.inflight.value;
    var v := w.(contents := Table(w.contents.at[f.buffer :=
                  Paint(w.contents.at[f.buffer], scribble, Region(cfg, f.sent + f.reported))]),
                inflight := None, cast := Failed(w.cast));
    Deliver(cfg, v, Queued(w.cast, cfg.rule, cfg.slots))
  }

  ghost function Step(cfg: Config, w: World, e: Event): World
    requires cfg.slots >= 1 && Linked(w) && Enabled(cfg, w, e)
  {
    match e
    case StateTo(state) => OnState(cfg, w, state)
    case Add(pw, b, content) => OnAdd(w, pw, b, content)
    case Remove(pw) => OnRemove(w, pw)
    case Process(pick, delayed) => OnProcess(w, pick, delayed)
    case TimerFires => OnTimer(w)
    case DamageEvent(r) => OnDamage(w, r)
    case ReadyEvent(screen, updated) => OnReady(cfg, w, screen, updated)
    case FailedEvent(scribble) => OnFailed(cfg, w, scribble)
  }

  // ----- ownership, in every run -----

  ghost function Held(w: World): set<PwId> {
    if w.cast.pwBuffer.Some? then {w.cast.pwBuffer.value} else {}
  }

  /** Buffers dequeued are those queued, those removed while held, and the one still held. */
  ghost predicate Counted(w: World) {
    w.dequeued == w.queued + w.lost + if w.cast.pwBuffer.Some? then 1 else 0
  }

  ghost predicate CarriedBy(userData: map<PwId, BufferId>, b: BufferId, pw: PwId) {
    pw in userData && userData[pw] == b
  }

  /** Pool buffers and PipeWire buffers correspond one to one. */
  ghost predicate Paired(userData: map<PwId, BufferId>, pool: set<BufferId>) {
    && (forall p, q :: p in userData && q in userData && p != q ==> userData[p] != userData[q])
    && (forall b :: b in pool ==> exists pw :: CarriedBy(userData, b, pw))
  }

  /** Every PipeWire buffer of the stream is either with it or held by the cast, and a held
      buffer was not completed. */
  ghost predicate Placed(w: World) {
    && Linked(w)
    && w.withStream !! Held(w)
    && w.userData.at.Keys == w.withStream + Held(w)
    && (w.cast.pwBuffer.Some? ==> !w.cast.completed)
    && (w.cast.streaming <==> w.streamState == Streaming)
  }

  /** Only adding and removing change which buffers exist. */
  ghost predicate SameBuffers(w: World, v: World) {
    && v.userData == w.userData
    && v.cast.damage.at.Keys == w.cast.damage.at.Keys
    && v.cast.bufferList == w.cast.bufferList
  }

  ghost predicate Owned(w: World) {
    Placed(w) && Paired(w.userData.at, w.cast.damage.at.Keys) && Counted(w)
  }

  lemma PairedAdd(userData: map<PwId, BufferId>, pool: set<BufferId>, pw: PwId, b: BufferId)
    requires Paired(userData, pool) && pw !in userData && b !in userData.Values
    ensures Paired(userData[pw := b], pool + {b})
  {
    var after := userData[pw := b];
    forall x | x in pool + {b} ensures exists q :: CarriedBy(after, x, q) {
      if x == b {
        assert CarriedBy(after, x, pw);
      } else {
        var q :| CarriedBy(userData, x, q);
        assert CarriedBy(after, x, q);
      }
    }
  }

  lemma PairedRemove(userData: map<PwId, BufferId>, pool: set<BufferId>, pw: PwId)
    requires Paired(userData, pool) && pw in userData
    ensures Paired(userData - {pw}, pool - {userData[pw]})
  {
    var after := userData - {pw};
    forall x | x in pool - {userData[pw]} ensures exists q :: CarriedBy(after, x, q) {
      var q :| CarriedBy(userData, x, q);
      assert CarriedBy(after, x, q);
    }
  }

  lemma PlacedOnRemove(w: World, pw: PwId)
    requires Placed(w) && pw in w.userData.at
    requires forall p, q :: p in w.userData.at && q in w.userData.at && p != q ==> w.userData.at[p] != w.userData.at[q]
    ensures Placed(OnRemove(w, pw))
    ensures Counted(w) ==> Counted(OnRemove(w, pw))
  {
    WithoutMembers(w.cast.bufferList, w.userData.at[pw]);
  }

  lemma PlacedOnAdd(w: World, pw: PwId, b: BufferId, content: Image)
    requires Placed(w) && pw !in w.userData.at && b !in w.contents.at
    ensures Placed(OnAdd(w, pw, b, content))
    ensures Counted(w) ==> Counted(OnAdd(w, pw, b, content))
  {
  }

  lemma PlacedOnState(cfg: Config, w: World, state: StreamState)
    requires cfg.slots >= 1 && Placed(w)
    ensures Placed(OnState(cfg, w, state))
    ensures SameBuffers(w, OnState(cfg, w, state)) && (Counted(w) ==> Counted(OnState(cfg, w, state)))
  {
  }

  lemma PlacedOnProcess(w: World, pick: Option<PwId>, delayed: bool)
    requires Placed(w) && (pick.Some? ==> pick.value in w.withStream)
    ensures Placed(OnProcess(w, pick, delayed))
    ensures SameBuffers(w, OnProcess(w, pick, delayed)) && (Counted(w) ==> Counted(OnProcess(w, pick, delayed)))
  {
  }

  lemma PlacedOnTimer(w: World)
    requires Placed(w) && w.cast.timers > 0
    ensures Placed(OnTimer(w))
    ensures SameBuffers(w, OnTimer(w)) && (Counted(w) ==> Counted(OnTimer(w)))
  {
    var v := OnTimer(w);
    assert v.cast.damage == w.cast.damage && v.userData == w.userData && v.contents == w.contents;
    assert v.cast.bufferList == w.cast.bufferList && v.withStream == w.withStream;
    assert v.cast.pwBuffer == w.cast.pwBuffer && v.cast.xdpwBuffer == w.cast.xdpwBuffer;
  }

  lemma PlacedOnDamage(w: World, r: Rect)
    requires Placed(w) && w.inflight.Some?
    ensures Placed(OnDamage(w, r))
    ensures SameBuffers(w, OnDamage(w, r)) && (Counted(w) ==> Counted(OnDamage(w, r)))
  {
  }

  lemma PlacedOnReady(cfg: Config, w: World, screen: Image, updated: set<Pixel>)
    requires cfg.slots >= 1 && Placed(w) && w.inflight.Some?
    ensures Placed(OnReady(cfg, w, screen, updated))
    ensures SameBuffers(w, OnReady(cfg, w, screen, updated))
    ensures Counted(w) ==> Counted(OnReady(cfg, w, screen, updated))
  {
  }

  lemma PlacedOnFailed(cfg: Config, w: World, scribble: Image)
    requires cfg.slots >= 1 && Placed(w) && w.inflight.Some?
    ensures Placed(OnFailed(cfg, w, scribble))
    ensures SameBuffers(w, OnFailed(cfg, w, scribble)) && (Counted(w) ==> Counted(OnFailed(cfg, w, scribble)))
  {
  }

  lemma OwnedStep(cfg: Config, w: World, e: Event)
    requires cfg.slots >= 1 && Owned(w) && Enabled(cfg, w, e)
    ensures Owned(Step(cfg, w, e))
  {
    match e
    case Add(pw, b, content) =>
      PlacedOnAdd(w, pw, b, content);
      PairedAdd(w.userData.at, w.cast.damage.at.Keys, pw, b);
    case Remove(pw) =>
      PlacedOnRemove(w, pw);
      PairedRemove(w.userData.at, w.cast.damage.at.Keys, pw);
      assert OnRemove(w, pw).cast.damage.at.Keys == w.cast.damage.at.Keys - {w.userData.at[pw]};
    case StateTo(state) => PlacedOnState(cfg, w, state);
    case Process(pick, delayed) => PlacedOnProcess(w, pick, delayed);
    case TimerFires => PlacedOnTimer(w);
    case DamageEvent(r) => PlacedOnDamage(w, r);
    case ReadyEvent(screen, updated) => PlacedOnReady(cfg, w, screen, updated);
    case FailedEvent(scribble) => PlacedOnFailed(cfg, w, scribble);
  }

  /** A step may end anywhere if a pointer it follows dangles, so that properties of runs
      can only be proved by showing that none does. */
  ghost predicate StepTo(cfg: Config, w: World, e: Event, v: World) {
    cfg.slots >= 1 && Enabled(cfg, w, e) && (Linked(w) ==> v == Step(cfg, w, e))
  }

  /** ws are the states before, between and after the events es. */
  ghost predicate Run(cfg: Config, ws: seq<World>, es: seq<Event>) {
    && |ws| == |es| + 1
    && Init(cfg, ws[0])
    && forall i :: 0 <= i < |es| ==> StepTo(cfg, ws[i], es[i], ws[i + 1])
  }

  lemma {:induction false} OwnershipEveryRun(cfg: Config, ws: seq<World>, es: seq<Event>, i: nat)
    requires Run(cfg, ws, es) && i <= |es|
    ensures Owned(ws[i])
  {
    if i > 0 {
      OwnershipEveryRun(cfg, ws, es, i - 1);
      assert StepTo(cfg, ws[i - 1], es[i - 1], ws[i]);
      OwnedStep(cfg, ws[i - 1], es[i - 1]);
    }
  }

  /** Once PipeWire has removed every buffer, nothing is held and the pool is empty, as the
      teardown assertion demands; and no frame was ever queued that had not been dequeued. */
  lemma EmptyPoolAtTeardown(cfg: Config, ws: seq<World>, es: seq<Event>, i: nat)
    requires Run(cfg, ws, es) && i <= |es|
    ensures ws[i].userData.at == map[] ==> ws[i].cast.bufferList == [] && ws[i].cast.pwBuffer.None?
    ensures ws[i].queued <= ws[i].dequeued
  {
    OwnershipEveryRun(cfg, ws, es, i);
    var w := ws[i];
    if w.cast.bufferList != [] {
      var b := w.cast.bufferList[0];
      assert b in w.cast.damage.at;
      var pw :| CarriedBy(w.userData.at, b, pw);
      assert pw in w.userData.at;
    }
  }

  // ----- damage, from the history of a run -----

  /** The rectangles reported since the last ready event. */
  function SinceReady(es: seq<Event>): seq<Rect> {
    if es == [] then []
    else
      var e := es[|es| - 1];
      if e.ReadyEvent? then []
      else SinceReady(es[..|es| - 1]) + if e.DamageEvent? then [e.rect] else []
  }

  /** The rectangles reported since the buffer joined the pool or was last held at a ready event. */
  ghost function SinceCleared(ws: seq<World>, es: seq<Event>, b: BufferId): seq<Rect>
    requires |ws| == |es| + 1
  {
    if es == [] then []
    else
      var n := |es| - 1;
      var e := es[n];
      if (e.Add? && e.buffer == b) || (e.ReadyEvent? && ws[n].cast.xdpwBuffer == Some(b)) then []
      else SinceCleared(ws[..n + 1], es[..n], b) + if e.DamageEvent? then [e.rect] else []
  }

  lemma FrameDamageStep(cfg: Config, w: World, e: Event)
    requires cfg.slots >= 1 && Linked(w) && Enabled(cfg, w, e)
    ensures Step(cfg, w, e).cast.frameDamage ==
      if e.ReadyEvent? then [] else w.cast.frameDamage + if e.DamageEvent? then [e.rect] else []
  {
    assert w.cast.frameDamage + [] == w.cast.frameDamage;
  }

  lemma BufferDamageStep(cfg: Config, w: World, e: Event, b: BufferId)
    requires cfg.slots >= 1 && Linked(w) && Enabled(cfg, w, e) && b in Step(cfg, w, e).cast.damage.at
    ensures var d := Step(cfg, w, e).cast.damage.at[b];
      if (e.Add? && e.buffer == b) || (e.ReadyEvent? && w.cast.xdpwBuffer == Some(b)) then d == []
      else b in w.cast.damage.at && d == w.cast.damage.at[b] + if e.DamageEvent? then [e.rect] else []
  {
    if b in w.cast.damage.at {
      assert w.cast.damage.at[b] + [] == w.cast.damage.at[b];
    }
    if !e.Add? && !e.Remove? && !e.DamageEvent? && !e.ReadyEvent? {
      OthersKeepDamage(cfg, w, e);
    } else if e.ReadyEvent? {
      ReadyClearsDamage(cfg, w, e);
    }
  }

  lemma OthersKeepDamage(cfg: Config, w: World, e: Event)
    requires cfg.slots >= 1 && Linked(w) && Enabled(cfg, w, e)
    requires !e.Add? && !e.Remove? && !e.DamageEvent? && !e.ReadyEvent?
    ensures Step(cfg, w, e).cast.damage == w.cast.damage
  {
  }

  lemma ReadyClearsDamage(cfg: Config, w: World, e: Event)
    requires cfg.slots >= 1 && Linked(w) && Enabled(cfg, w, e) && e.ReadyEvent?
    ensures Step(cfg, w, e).cast.damage.at ==
      if w.cast.xdpwBuffer.Some? then w.cast.damage.at[w.cast.xdpwBuffer.value := []] else w.cast.damage.at
  {
  }

  /** In every run the frame's damage is exactly what was reported since the last ready event, and a
      pool buffer's what was reported since its own damage was last cleared. */
  lemma {:induction false} DamageIsHistory(cfg: Config, ws: seq<World>, es: seq<Event>, i: nat)
    requires Run(cfg, ws, es) && i <= |es|
    ensures ws[i].cast.frameDamage == SinceReady(es[..i])
    ensures forall b :: b in ws[i].cast.damage.at ==>
      ws[i].cast.damage.at[b] == SinceCleared(ws[..i + 1], es[..i], b)
  {
    if i > 0 {
      DamageIsHistory(cfg, ws, es, i - 1);
      OwnershipEveryRun(cfg, ws, es, i - 1);
      assert StepTo(cfg, ws[i - 1], es[i - 1], ws[i]);
      FrameDamageStep(cfg, ws[i - 1], es[i - 1]);
      assert es[..i][..i - 1] == es[..i - 1] && ws[..i + 1][..i] == ws[..i];
      forall b | b in ws[i].cast.damage.at
        ensures ws[i].cast.damage.at[b] == SinceCleared(ws[..i + 1], es[..i], b)
      {
        BufferDamageStep(cfg, ws[i - 1], es[i - 1], b);
      }
    }
  }

  /** A buffer is taken from the stream exactly while it is streaming, none is held and there is one. */
  lemma TakenIff(w: World, pick: Option<PwId>, delayed: bool)
    requires Placed(w) && (pick.Some? ==> pick.value in w.withStream)
    ensures var v := OnProcess(w, pick, delayed);
      if w.streamState == Streaming && w.cast.pwBuffer.None? && pick.Some? then
        v.dequeued == w.dequeued + 1 && v.cast.pwBuffer == pick && v.withStream == w.withStream - {pick.value}
      else v == w
  {
  }
}
