/** The wlr-screencopy-unstable-v1 backend, interface zwlr_screencopy_frame_v1: at most one copy
    and one destroy per frame, and copies only into buffers the frame asked for. */
module WlrScreencopy {
  import opened Common
  import opened Formats
  import Constraints

  type ConstraintSet = Constraints.ConstraintSet
  type Pair = Constraints.Pair
  type FrameId(==, !new)

  /** The attributes of the held xdpw_buffer. */
  datatype HeldBuffer = HeldBuffer(dmabuf: bool, format: int, width: int, height: int, stride: int, modifier: int)

  datatype Request = CopyWithDamage(frame: FrameId, buffer: HeldBuffer) | Destroy(frame: FrameId)

  datatype WlrState = WlrState(
    pending: ConstraintSet, current: ConstraintSet, initialized: bool, streaming: bool,
    held: Option<HeldBuffer>,        // current_frame.xdpw_buffer
    wlrFrame: Option<FrameId>)       // wlr_session.wlr_frame

  /** A buffer of the announced size, with an announced format and stride or modifier. */
  predicate Fits(c: ConstraintSet, b: HeldBuffer) {
    && c.width == b.width && c.height == b.height
    && (if b.dmabuf then Constraints.Pair(b.format, b.modifier) in c.pairs
        else Constraints.ShmFormat(b.format, b.stride) in c.shm)
  }

  function PairsWith(known: seq<Pair>, fourcc: int): seq<Pair> {
    if known == [] then []
    else (if known[0].fourcc == fourcc then [known[0]] else []) + PairsWith(known[1..], fourcc)
  }

  /** The known pairs of that format and no others, in the order they are known. */
  lemma {:induction false} PairsWithIff(known: seq<Pair>, fourcc: int, p: Pair)
    ensures p in PairsWith(known, fourcc) <==> p in known && p.fourcc == fourcc
  {
    if known != [] {
      PairsWithIff(known[1..], fourcc, p);
      assert known == [known[0]] + known[1..];
    }
  }

  lemma {:induction false} PairsWithInOrder(known: seq<Pair>, i: nat, fourcc: int)
    requires i < |known|
    ensures PairsWith(known[..0], fourcc) == []
    ensures PairsWith(known[..i + 1], fourcc) ==
      PairsWith(known[..i], fourcc) + if known[i].fourcc == fourcc then [known[i]] else []
  {
    var a, b := known[..i + 1], known[..i];
    if i > 0 {
      PairsWithInOrder(known[1..], i - 1, fourcc);
      assert a[1..] == known[1..][..i] && b[1..] == known[1..][..i - 1];
      assert a[0] == b[0] == known[0] && known[1..][i - 1] == known[i];
    } else {
      assert a[1..] == [] && b == [];
    }
  }

  function WithShm(c: ConstraintSet, format: int, width: int, height: int, stride: int): ConstraintSet {
    c.(shm := c.shm + [Constraints.ShmFormat(DrmFromShm(format), stride)],
       width := width, height := height, dirty := true)
  }

  function WithDmabuf(c: ConstraintSet, known: seq<Pair>, format: int, width: int, height: int): ConstraintSet {
    c.(pairs := c.pairs + PairsWith(known, format), width := width, height := height, dirty := true)
  }

  function Moved(s: WlrState): WlrState {
    if s.pending.dirty then s.(current := s.pending, pending := Constraints.EMPTY) else s
  }

  function FinishRequests(s: WlrState): seq<Request> {
    if s.wlrFrame.None? then [] else [Destroy(s.wlrFrame.value)]
  }

  /** The frame is rejected or over: the held buffer is queued, the frame destroyed if known. */
  function Finished(s: WlrState): WlrState {
    s.(held := None, wlrFrame := None)
  }

  predicate Copies(s: WlrState) {
    Moved(s).initialized && s.held.Some? && Fits(Moved(s).current, s.held.value)
  }

  function BufferDone(s: WlrState): WlrState {
    var m := Moved(s);
    if !s.initialized then m.(wlrFrame := None)
    else if Copies(s) then m
    else Finished(m)
  }

  function BufferDoneRequests(s: WlrState, frame: FrameId): seq<Request> {
    if Copies(s) then [CopyWithDamage(frame, s.held.value)] else FinishRequests(s)
  }

  /** The held buffer does not fit what is committed: the formats are offered anew. */
  predicate Reoffers(s: WlrState) {
    s.initialized && s.held.Some? && !Copies(s)
  }

  class WlrCast {
    var pending: ConstraintSet
    var current: ConstraintSet
    var initialized: bool
    var streaming: bool
    var held: Option<HeldBuffer>
    var wlrFrame: Option<FrameId>
    const managerVersion: int
    const formatModifierPairs: seq<Pair>

    ghost function View(): WlrState
      reads this
    {
      WlrState(pending, current, initialized, streaming, held, wlrFrame)
    }

    constructor (version: int, known: seq<Pair>)
      ensures View() == WlrState(Constraints.EMPTY, Constraints.EMPTY, false, false, None, None)
      ensures managerVersion == version && formatModifierPairs == known
    {
      pending, current, initialized, streaming := Constraints.EMPTY, Constraints.EMPTY, false, false;
      held, wlrFrame, managerVersion, formatModifierPairs := None, None, version, known;
    }

    method FrameFinish() returns (requests: seq<Request>)
      modifies `wlrFrame
      ensures View() == old(View()).(wlrFrame := None)
      ensures requests == FinishRequests(old(View()))
      ensures requests == if old(wlrFrame).Some? then [Destroy(old(wlrFrame).value)] else []
    {
      if wlrFrame.None? {
        return [];
      }
      requests := [Destroy(wlrFrame.value)];
      wlrFrame := None;
    }

    method CheckConstraints(c: ConstraintSet, buffer: HeldBuffer) returns (ok: bool)
      ensures ok == Fits(c, buffer)
      ensures ok ==> c.width == buffer.width && c.height == buffer.height
      ensures c.width == buffer.width && c.height == buffer.height ==>
        ok == if buffer.dmabuf then
          exists i :: 0 <= i < |c.pairs| && c.pairs[i].fourcc == buffer.format && c.pairs[i].modifier == buffer.modifier
        else
          exists i :: 0 <= i < |c.shm| && c.shm[i].fourcc == buffer.format && c.shm[i].stride == buffer.stride
    {
      if c.width != buffer.width || c.height != buffer.height {
        return false;
      }
      if buffer.dmabuf {
        for i := 0 to |c.pairs|
          invariant forall j :: 0 <= j < i ==> c.pairs[j] != Constraints.Pair(buffer.format, buffer.modifier)
        {
          if buffer.format == c.pairs[i].fourcc && buffer.modifier == c.pairs[i].modifier {
            return true;
          }
        }
        return false;
      } else {
        for i := 0 to |c.shm|
          invariant forall j :: 0 <= j < i ==> c.shm[j] != Constraints.ShmFormat(buffer.format, buffer.stride)
        {
          if buffer.format == c.shm[i].fourcc && buffer.stride == c.shm[i].stride {
            return true;
          }
        }
        return false;
      }
    }

    method HandleBufferDone(frame: FrameId) returns (requests: seq<Request>, reoffers: bool)
      modifies this
      ensures View() == BufferDone(old(View()))
      ensures requests == BufferDoneRequests(old(View()), frame)
      ensures reoffers == Reoffers(old(View()))
      ensures current == if old(pending).dirty then old(pending) else old(current)
      ensures pending == if old(pending).dirty then Constraints.EMPTY else old(pending)
      ensures held == if !initialized || (old(held).Some? && Fits(current, old(held).value)) then old(held) else None
      ensures reoffers <==> initialized && old(held).Some? && !Fits(current, old(held).value)
      ensures initialized && held.Some? ==> requests == [CopyWithDamage(frame, held.value)] && wlrFrame == old(wlrFrame)
      ensures !(initialized && held.Some?) ==>
        wlrFrame.None? && requests == if old(wlrFrame).Some? then [Destroy(old(wlrFrame).value)] else []
    {
      reoffers := false;
      if pending.dirty {
        current := pending;
        pending := Constraints.EMPTY;
      }
      if !initialized {
        requests := FrameFinish();
        return;
      }
      if held.None? {
        requests := FrameFinish();
        return;
      }
      var fits := CheckConstraints(current, held.value);
      if !fits {
        reoffers := true;
        held := None;
        requests := FrameFinish();
        return;
      }
      requests := [CopyWithDamage(frame, held.value)];
    }

    method HandleBuffer(frame: FrameId, format: int, width: int, height: int, stride: int)
      returns (requests: seq<Request>, reoffers: bool)
      modifies this
      ensures var s := old(View()).(wlrFrame := Some(frame),
                                    pending := WithShm(old(pending), format, width, height, stride));
        if managerVersion < 3 then
          View() == BufferDone(s) && requests == BufferDoneRequests(s, frame) && reoffers == Reoffers(s)
        else
          View() == s && requests == [] && !reoffers
    {
      wlrFrame := Some(frame);
      pending := pending.(shm := pending.shm + [Constraints.ShmFormat(DrmFromShm(format), stride)]);
      pending := pending.(width := width, height := height, dirty := true);
      requests, reoffers := [], false;
      if managerVersion < 3 {
        requests, reoffers := HandleBufferDone(frame);
      }
    }

    method HandleLinuxDmabuf(format: int, width: int, height: int)
      modifies `pending
      ensures View() == old(View()).(pending := WithDmabuf(old(pending), formatModifierPairs, format, width, height))
    {
      var known := formatModifierPairs;
      ghost var start := pending;
      assert known[0..] == known;
      for i := 0 to |known|
        invariant pending.(pairs := pending.pairs + PairsWith(known[i..], format)) ==
          start.(pairs := start.pairs + PairsWith(known, format))
      {
        assert known[i..][0] == known[i] && known[i..][1..] == known[i + 1..];
        if known[i].fourcc == format {
          assert pending.pairs + ([known[i]] + PairsWith(known[i + 1..], format)) ==
            pending.pairs + [known[i]] + PairsWith(known[i + 1..], format);
          pending := pending.(pairs := pending.pairs + [known[i]]);
        } else {
          assert PairsWith(known[i..], format) == PairsWith(known[i + 1..], format);
        }
      }
      assert pending.pairs + [] == pending.pairs;
      pending := pending.(width := width, height := height, dirty := true);
    }

    /** Both the ready and the failed handler queue the held buffer and destroy the frame. */
    method HandleOver() returns (requests: seq<Request>)
      modifies this
      ensures View() == Finished(old(View()))
      ensures requests == FinishRequests(old(View()))
      ensures held.None? && wlrFrame.None?
      ensures requests == if old(wlrFrame).Some? then [Destroy(old(wlrFrame).value)] else []
    {
      held := None;
      requests := FrameFinish();
    }
  }

  // ----- runs with one frame in flight -----

  datatype Phase = Announcing | Copying

  /** The compositor's frame: what it found pending, left over from earlier frames, and what it has
      announced itself. */
  datatype Live = Live(id: FrameId, phase: Phase, left: ConstraintSet, report: ConstraintSet,
                       gotBuffer: bool, gotDmabuf: bool)

  /** A request as sent, with its frame's leftovers and announcements and what was committed before. */
  datatype Sent = Sent(request: Request, left: ConstraintSet, report: ConstraintSet, before: ConstraintSet)

  datatype Backend = Backend(s: WlrState, live: Option<Live>, used: set<FrameId>, log: seq<Sent>)

  datatype WlrEvent =
    | Capture(id: FrameId)
    | Buffer(format: int, width: int, height: int, stride: int)
    | LinuxDmabuf(format: int, width: int, height: int)
    | BufferDoneEvent
    | Ready
    | FailedEvent
    | Hold(held: Option<HeldBuffer>)
    | Initialize
    | Stream(on: bool)

  datatype Setup = Setup(version: int, known: seq<Pair>)

  /** What the compositor sends for a frame: each announcement at most once and before buffer_done
      (which version 3 introduced), ready only after a copy, nothing after ready or failed. */
  predicate Allowed(cfg: Setup, b: Backend, e: WlrEvent) {
    match e
    case Capture(id) => b.live.None? && id !in b.used && (!b.s.initialized || b.s.streaming)
    case Buffer(_, _, _, _) => b.live.Some? && b.live.value.phase == Announcing && !b.live.value.gotBuffer
    case LinuxDmabuf(_, _, _) =>
      cfg.version >= 3 && b.live.Some? && b.live.value.phase == Announcing && !b.live.value.gotDmabuf
    case BufferDoneEvent => cfg.version >= 3 && b.live.Some? && b.live.value.phase == Announcing
    case Ready => b.live.Some? && b.live.value.phase == Copying
    case FailedEvent => b.live.Some?
    case _ => true
  }

  function Logged(b: Backend, requests: seq<Request>): seq<Sent>
    requires b.live.Some?
  {
    var f := b.live.value;
    b.log + seq(|requests|, i requires 0 <= i < |requests| => Sent(requests[i], f.left, f.report, b.s.current))
  }

  function AfterDone(b: Backend): Backend
    requires b.live.Some?
  {
    var f := b.live.value;
    b.(s := BufferDone(b.s), log := Logged(b, BufferDoneRequests(b.s, f.id)),
       live := if Copies(b.s) then Some(f.(phase := Copying)) else None)
  }

  /** The frame's shm announcement is recorded; nothing is decided yet. */
  function ShmAnnounced(b: Backend, format: int, w: int, h: int, stride: int): Backend
    requires b.live.Some?
  {
    var f := b.live.value;
    b.(s := b.s.(pending := WithShm(b.s.pending, format, w, h, stride), wlrFrame := Some(f.id)),
       live := Some(f.(report := WithShm(f.report, format, w, h, stride), gotBuffer := true)))
  }

  function DmabufAnnounced(b: Backend, known: seq<Pair>, format: int, w: int, h: int): Backend
    requires b.live.Some?
  {
    var f := b.live.value;
    b.(s := b.s.(pending := WithDmabuf(b.s.pending, known, format, w, h)),
       live := Some(f.(report := WithDmabuf(f.report, known, format, w, h), gotDmabuf := true)))
  }

  /** The events on which it is decided whether to copy. */
  predicate Decides(cfg: Setup, e: WlrEvent) {
    e.BufferDoneEvent? || (e.Buffer? && cfg.version < 3)
  }

  /** The state that decision is taken in: an shm announcement is recorded first. */
  function Deciding(b: Backend, e: WlrEvent): Backend
    requires b.live.Some?
  {
    if e.Buffer? then ShmAnnounced(b, e.format, e.width, e.height, e.stride) else b
  }

  function Over(b: Backend): Backend
    requires b.live.Some?
  {
    b.(s := Finished(b.s), log := Logged(b, FinishRequests(b.s)), live := None)
  }

  function Advance(cfg: Setup, b: Backend, e: WlrEvent): Backend
    requires Allowed(cfg, b, e)
  {
    match e
    case Capture(id) =>
      b.(live := Some(Live(id, Announcing, b.s.pending, Constraints.EMPTY, false, false)), used := b.used + {id})
    case Buffer(_, _, _, _) => if cfg.version < 3 then AfterDone(Deciding(b, e)) else Deciding(b, e)
    case LinuxDmabuf(format, w, h) => DmabufAnnounced(b, cfg.known, format, w, h)
    case BufferDoneEvent => AfterDone(Deciding(b, e))
    case Ready => Over(b)
    case FailedEvent => Over(b)
    case Hold(h) => b.(s := b.s.(held := h))
    case Initialize => b.(s := b.s.(initialized := true))
    case Stream(on) => b.(s := b.s.(streaming := on))
  }

  /** What is pending once a frame has announced something on top of leftovers. */
  function Accumulated(left: ConstraintSet, report: ConstraintSet): ConstraintSet {
    if report.dirty then
      report.(pairs := left.pairs + report.pairs, shm := left.shm + report.shm, device := left.device)
    else left
  }

  /** What the held buffer is checked against. */
  function Checked(left: ConstraintSet, report: ConstraintSet, before: ConstraintSet): ConstraintSet {
    if Accumulated(left, report).dirty then Accumulated(left, report) else before
  }

  /** No frame is copied twice, destroyed twice, or copied after it was destroyed. */
  ghost predicate Obedient(log: seq<Sent>) {
    forall i, j :: 0 <= i < j < |log| && log[i].request.frame == log[j].request.frame ==>
      log[i].request.CopyWithDamage? && log[j].request.Destroy?
  }

  /** A copy goes into a buffer that fits its frame's announcements together with what earlier
      frames left; for a frame that found and announced nothing, what was committed last. */
  ghost predicate CopyFits(c: Sent) {
    c.request.CopyWithDamage? ==> Fits(Checked(c.left, c.report, c.before), c.request.buffer)
  }

  ghost predicate Fitting(log: seq<Sent>) {
    forall i :: 0 <= i < |log| ==> CopyFits(log[i])
  }

  ghost predicate LiveTracked(b: Backend, f: Live) {
    && f.id in b.used
    && (b.s.wlrFrame.Some? ==> b.s.wlrFrame.value == f.id)
    && (forall i :: 0 <= i < |b.log| && b.log[i].request.frame == f.id ==>
         f.phase == Copying && b.log[i].request.CopyWithDamage?)
    && (f.phase == Announcing ==>
         b.s.pending == Accumulated(f.left, f.report) && (!f.report.dirty ==> f.report == Constraints.EMPTY))
  }

  ghost predicate Tracked(b: Backend) {
    && Obedient(b.log) && Fitting(b.log)
    && (forall i :: 0 <= i < |b.log| ==> b.log[i].request.frame in b.used)
    && (b.live.None? ==> b.s.wlrFrame.None?)
    && (b.live.Some? ==> LiveTracked(b, b.live.value))
  }

  lemma LogOne(b: Backend, r: Request)
    requires Tracked(b) && b.live.Some? && r.frame == b.live.value.id
    requires r.CopyWithDamage? ==> b.live.value.phase == Announcing
    requires CopyFits(Sent(r, b.live.value.left, b.live.value.report, b.s.current))
    ensures Obedient(Logged(b, [r])) && Fitting(Logged(b, [r]))
    ensures forall i :: 0 <= i < |Logged(b, [r])| ==> Logged(b, [r])[i].request.frame in b.used
    ensures forall i :: 0 <= i < |Logged(b, [r])| && Logged(b, [r])[i].request.frame == b.live.value.id ==>
      Logged(b, [r])[i].request.CopyWithDamage? || i == |b.log|
  {
  }

  lemma TrackedAfterDone(b: Backend)
    requires Tracked(b) && b.live.Some? && b.live.value.phase == Announcing
    ensures Tracked(AfterDone(b))
  {
    var f := b.live.value;
    var requests := BufferDoneRequests(b.s, f.id);
    if requests == [] {
      assert Logged(b, requests) == b.log;
    } else {
      LogOne(b, requests[0]);
      assert Logged(b, requests) == Logged(b, [requests[0]]);
    }
  }

  lemma TrackedOver(b: Backend)
    requires Tracked(b) && b.live.Some?
    ensures Tracked(Over(b))
  {
    var requests := FinishRequests(b.s);
    if requests == [] {
      assert Logged(b, requests) == b.log;
    } else {
      LogOne(b, requests[0]);
      assert Logged(b, requests) == Logged(b, [requests[0]]);
    }
  }

  /** An announcement is added to what is pending exactly as to the frame's own report. */
  lemma TrackedAnnounced(b: Backend, known: seq<Pair>, format: int, w: int, h: int, stride: int)
    requires Tracked(b) && b.live.Some? && b.live.value.phase == Announcing
    ensures Tracked(ShmAnnounced(b, format, w, h, stride))
    ensures Tracked(DmabufAnnounced(b, known, format, w, h))
  {
    var f := b.live.value;
    var left, report := f.left, f.report;
    var more := [Constraints.ShmFormat(DrmFromShm(format), stride)];
    var pairs := PairsWith(known, format);
    assert left.pairs + report.pairs + pairs == left.pairs + (report.pairs + pairs);
    assert left.shm + report.shm + more == left.shm + (report.shm + more);
    if !report.dirty {
      assert left.pairs + [] == left.pairs && left.shm + [] == left.shm;
      assert [] + pairs == pairs && [] + more == more;
    }
  }

  lemma TrackedStep(cfg: Setup, b: Backend, e: WlrEvent)
    requires Tracked(b) && Allowed(cfg, b, e)
    ensures Tracked(Advance(cfg, b, e))
  {
    match e
    case Buffer(format, w, h, stride) =>
      TrackedAnnounced(b, [], format, w, h, stride);
      if cfg.version < 3 {
        TrackedAfterDone(ShmAnnounced(b, format, w, h, stride));
      }
    case LinuxDmabuf(format, w, h) => TrackedAnnounced(b, cfg.known, format, w, h, 0);
    case BufferDoneEvent => TrackedAfterDone(b);
    case Ready => TrackedOver(b);
    case FailedEvent => TrackedOver(b);
    case _ =>
  }

  ghost predicate BackendRun(cfg: Setup, bs: seq<Backend>, es: seq<WlrEvent>) {
    && |bs| == |es| + 1
    && bs[0] == Backend(WlrState(Constraints.EMPTY, Constraints.EMPTY, false, false, None, None), None, {}, [])
    && forall i :: 0 <= i < |es| ==> Allowed(cfg, bs[i], es[i]) && bs[i + 1] == Advance(cfg, bs[i], es[i])
  }

  /** In every run with one frame in flight the client obeys the protocol, and every copy fits its
      frame's announcements together with what earlier frames left. */
  lemma {:induction false} ProtocolEveryRun(cfg: Setup, bs: seq<Backend>, es: seq<WlrEvent>, i: nat)
    requires BackendRun(cfg, bs, es) && i <= |es|
    ensures Tracked(bs[i])
  {
    if i > 0 {
      ProtocolEveryRun(cfg, bs, es, i - 1);
      TrackedStep(cfg, bs[i - 1], es[i - 1]);
    }
  }

  // ----- what a frame has announced, read off the events -----

  /** The events since the last frame was created. */
  function SinceCapture(es: seq<WlrEvent>): seq<WlrEvent> {
    if es == [] || es[|es| - 1].Capture? then [] else SinceCapture(es[..|es| - 1]) + [es[|es| - 1]]
  }

  predicate Announces(e: WlrEvent) {
    e.Buffer? || e.LinuxDmabuf?
  }

  /** The size of the last announcement. */
  function LastSize(batch: seq<WlrEvent>): (int, int) {
    if batch == [] then (0, 0)
    else if Announces(batch[|batch| - 1]) then (batch[|batch| - 1].width, batch[|batch| - 1].height)
    else LastSize(batch[..|batch| - 1])
  }

  ghost predicate AnnouncesShm(batch: seq<WlrEvent>, f: Constraints.ShmFormat) {
    exists k :: 0 <= k < |batch| && batch[k].Buffer? &&
      f.fourcc == DrmFromShm(batch[k].format) && f.stride == batch[k].stride
  }

  ghost predicate AnnouncesDmabuf(batch: seq<WlrEvent>, fourcc: int) {
    exists k :: 0 <= k < |batch| && batch[k].LinuxDmabuf? && batch[k].format == fourcc
  }

  ghost predicate AnnouncesAny(batch: seq<WlrEvent>) {
    exists k :: 0 <= k < |batch| && Announces(batch[k])
  }

  /** The shm entries and the known pairs of the formats announced, with the last size. */
  ghost predicate ReportOf(report: ConstraintSet, batch: seq<WlrEvent>, known: seq<Pair>) {
    && (report.width, report.height) == LastSize(batch)
    && (forall f :: f in report.shm <==> AnnouncesShm(batch, f))
    && (forall p :: p in report.pairs <==> p in known && AnnouncesDmabuf(batch, p.fourcc))
    && (report.dirty <==> AnnouncesAny(batch))
  }

  lemma AnnouncesSnoc(batch: seq<WlrEvent>, e: WlrEvent)
    ensures LastSize(batch + [e]) == if Announces(e) then (e.width, e.height) else LastSize(batch)
    ensures AnnouncesAny(batch + [e]) <==> AnnouncesAny(batch) || Announces(e)
    ensures forall f :: AnnouncesShm(batch + [e], f) <==>
      AnnouncesShm(batch, f) || (e.Buffer? && f.fourcc == DrmFromShm(e.format) && f.stride == e.stride)
    ensures forall g :: AnnouncesDmabuf(batch + [e], g) <==>
      AnnouncesDmabuf(batch, g) || (e.LinuxDmabuf? && e.format == g)
  {
    var more := batch + [e];
    assert more[..|batch|] == batch && more[|batch|] == e;
    forall k | 0 <= k < |batch| ensures more[k] == batch[k] {
    }
  }

  lemma ReportSnoc(report: ConstraintSet, batch: seq<WlrEvent>, known: seq<Pair>, e: WlrEvent)
    requires ReportOf(report, batch, known)
    ensures e.Buffer? ==> ReportOf(WithShm(report, e.format, e.width, e.height, e.stride), batch + [e], known)
    ensures e.LinuxDmabuf? ==> ReportOf(WithDmabuf(report, known, e.format, e.width, e.height), batch + [e], known)
    ensures !Announces(e) ==> ReportOf(report, batch + [e], known)
  {
    AnnouncesSnoc(batch, e);
    if e.LinuxDmabuf? {
      forall p ensures p in PairsWith(known, e.format) <==> p in known && p.fourcc == e.format {
        PairsWithIff(known, e.format, p);
      }
    }
  }

  /** In every run the report of the frame in flight is what its own events announced. */
  lemma {:induction false} ReportIsAnnounced(cfg: Setup, bs: seq<Backend>, es: seq<WlrEvent>, i: nat)
    requires BackendRun(cfg, bs, es) && i <= |es|
    ensures bs[i].live.Some? ==> ReportOf(bs[i].live.value.report, SinceCapture(es[..i]), cfg.known)
  {
    if i > 0 && bs[i].live.Some? {
      var b, e := bs[i - 1], es[i - 1];
      ReportIsAnnounced(cfg, bs, es, i - 1);
      assert es[..i][..i - 1] == es[..i - 1];
      if !e.Capture? {
        assert SinceCapture(es[..i]) == SinceCapture(es[..i - 1]) + [e];
        ReportSnoc(b.live.value.report, SinceCapture(es[..i - 1]), cfg.known, e);
      }
    }
  }

  // ----- every frame that can be is destroyed -----

  ghost predicate IsDestroyed(log: seq<Sent>, id: FrameId) {
    exists k :: 0 <= k < |log| && log[k].request == Destroy(id)
  }

  /** Some event announced an shm buffer for the frame. */
  ghost predicate HadBuffer(bs: seq<Backend>, es: seq<WlrEvent>, i: nat, id: FrameId)
    requires i <= |es| && |bs| == |es| + 1
  {
    exists k :: 0 <= k < i && es[k].Buffer? && bs[k].live.Some? && bs[k].live.value.id == id
  }

  /** A frame that is over has been destroyed exactly if it announced an shm buffer, which is when the
      cast comes to know it; one in flight has not been destroyed. */
  ghost predicate Disposed(b: Backend, had: bool, id: FrameId) {
    if b.live.Some? && b.live.value.id == id then
      && !IsDestroyed(b.log, id) && (had <==> b.live.value.gotBuffer)
      && (b.s.wlrFrame == Some(id) <==> had)
    else
      && (id in b.used ==> (IsDestroyed(b.log, id) <==> had))
      && (id !in b.used ==> !had && !IsDestroyed(b.log, id))
  }

  lemma DestroyedMore(b: Backend, requests: seq<Request>, id: FrameId)
    requires b.live.Some? && |requests| <= 1
    ensures IsDestroyed(Logged(b, requests), id) <==>
      IsDestroyed(b.log, id) || (requests != [] && requests[0] == Destroy(id))
  {
    var log := Logged(b, requests);
    forall k | 0 <= k < |b.log| ensures log[k] == b.log[k] {
    }
    if requests != [] {
      assert log[|b.log|].request == requests[0];
    }
  }

  lemma DisposedAfterDone(b: Backend, had: bool, id: FrameId)
    requires Tracked(b) && b.live.Some? && Disposed(b, had, id)
    ensures Disposed(AfterDone(b), had, id)
  {
    DestroyedMore(b, BufferDoneRequests(b.s, b.live.value.id), id);
  }

  lemma DisposedStep(cfg: Setup, b: Backend, e: WlrEvent, had: bool, id: FrameId)
    requires Tracked(b) && Allowed(cfg, b, e) && Disposed(b, had, id)
    ensures Disposed(Advance(cfg, b, e), had || (e.Buffer? && b.live.value.id == id), id)
  {
    match e
    case Buffer(format, w, h, stride) =>
      var c := ShmAnnounced(b, format, w, h, stride);
      assert Disposed(c, had || b.live.value.id == id, id);
      if cfg.version < 3 {
        TrackedAnnounced(b, [], format, w, h, stride);
        DisposedAfterDone(c, had || b.live.value.id == id, id);
      }
    case BufferDoneEvent => DisposedAfterDone(b, had, id);
    case Ready => DestroyedMore(b, FinishRequests(b.s), id);
    case FailedEvent => DestroyedMore(b, FinishRequests(b.s), id);
    case _ =>
  }

  /** In every run, for every frame. */
  lemma {:induction false} FramesAreDisposed(cfg: Setup, bs: seq<Backend>, es: seq<WlrEvent>, i: nat, id: FrameId)
    requires BackendRun(cfg, bs, es) && i <= |es|
    ensures Disposed(bs[i], HadBuffer(bs, es, i, id), id)
  {
    if i > 0 {
      FramesAreDisposed(cfg, bs, es, i - 1, id);
      ProtocolEveryRun(cfg, bs, es, i - 1);
      DisposedStep(cfg, bs[i - 1], es[i - 1], HadBuffer(bs, es, i - 1, id), id);
    }
  }

  /** A frame that announces dmabufs only is given up without being destroyed: the cast learns which
      frame it has from the shm announcement alone. */
  lemma SilentFrameLeaks(id: FrameId, pair: Pair) returns (bs: seq<Backend>, es: seq<WlrEvent>)
    ensures BackendRun(Setup(3, [pair]), bs, es)
    ensures es == [Capture(id), LinuxDmabuf(pair.fourcc, 1, 1), BufferDoneEvent]
    ensures bs[3].live.None? && id in bs[3].used && !IsDestroyed(bs[3].log, id)
  {
    var cfg := Setup(3, [pair]);
    es := [Capture(id), LinuxDmabuf(pair.fourcc, 1, 1), BufferDoneEvent];
    var b0 := Backend(WlrState(Constraints.EMPTY, Constraints.EMPTY, false, false, None, None), None, {}, []);
    var b1 := Advance(cfg, b0, es[0]);
    var b2 := Advance(cfg, b1, es[1]);
    bs := [b0, b1, b2, Advance(cfg, b2, es[2])];
  }

  // ----- leftovers of failed frames -----

  /** A frame fails after announcing something, before its buffer_done. */
  predicate FailsHalfway(b: Backend, e: WlrEvent) {
    e.FailedEvent? && b.live.Some? && b.live.value.phase == Announcing && b.live.value.report.dirty
  }

  ghost predicate NothingLeftOver(b: Backend) {
    && (b.live.None? || b.live.value.phase == Copying ==> b.s.pending == Constraints.EMPTY)
    && (b.live.Some? ==> b.live.value.left == Constraints.EMPTY)
    && forall i :: 0 <= i < |b.log| ==> b.log[i].left == Constraints.EMPTY
  }

  lemma NothingLeftOverStep(cfg: Setup, b: Backend, e: WlrEvent)
    requires Tracked(b) && NothingLeftOver(b) && Allowed(cfg, b, e) && !FailsHalfway(b, e)
    ensures NothingLeftOver(Advance(cfg, b, e))
  {
    if Decides(cfg, e) {
      TrackedAnnounced(b, [], if e.Buffer? then e.format else 0, if e.Buffer? then e.width else 0,
                       if e.Buffer? then e.height else 0, if e.Buffer? then e.stride else 0);
    }
  }

  /** When no frame fails halfway, every copy of every run fits what its own frame announced, if it
      announced anything. */
  lemma {:induction false} CopiesFitEveryRun(cfg: Setup, bs: seq<Backend>, es: seq<WlrEvent>, i: nat)
    requires BackendRun(cfg, bs, es) && i <= |es|
    requires forall j :: 0 <= j < |es| ==> !FailsHalfway(bs[j], es[j])
    ensures NothingLeftOver(bs[i]) && Tracked(bs[i])
    ensures forall k :: 0 <= k < |bs[i].log| && bs[i].log[k].request.CopyWithDamage? && bs[i].log[k].report.dirty ==>
      Fits(bs[i].log[k].report, bs[i].log[k].request.buffer)
  {
    ProtocolEveryRun(cfg, bs, es, i);
    if i > 0 {
      CopiesFitEveryRun(cfg, bs, es, i - 1);
      NothingLeftOverStep(cfg, bs[i - 1], es[i - 1]);
    }
    assert forall k :: 0 <= k < |bs[i].log| ==> CopyFits(bs[i].log[k]);
  }

  /** With this buffer held, the event sends a copy into it. */
  ghost predicate CopiesInto(cfg: Setup, b: Backend, e: WlrEvent, h: HeldBuffer)
    requires Allowed(cfg, b, e) && Decides(cfg, e)
  {
    var id := b.live.value.id;
    var held := Advance(cfg, b, Hold(Some(h)));
    exists c :: c in Advance(cfg, held, e).log && c !in b.log && c.request == CopyWithDamage(id, h)
  }

  lemma CopiesIntoChecked(cfg: Setup, b: Backend, e: WlrEvent, h: HeldBuffer)
    requires Tracked(b) && Allowed(cfg, b, e) && Decides(cfg, e)
    ensures var d := Deciding(b, e);
      CopiesInto(cfg, b, e, h) <==>
        d.s.initialized && Fits(Checked(d.live.value.left, d.live.value.report, d.s.current), h)
  {
    var held := Advance(cfg, b, Hold(Some(h)));
    var d := Deciding(held, e);
    if e.Buffer? {
      TrackedAnnounced(held, [], e.format, e.width, e.height, e.stride);
    }
    var f := d.live.value;
    var copy := Sent(CopyWithDamage(f.id, h), f.left, f.report, d.s.current);
    var log := Advance(cfg, held, e).log;
    if Copies(d.s) {
      assert log[|b.log|] == copy;
      assert copy !in b.log;
    } else {
      assert forall k :: |b.log| <= k < |log| ==> log[k].request.Destroy?;
    }
  }

  /** Leftovers are harmless exactly when the frame announces them all again: otherwise some buffer
      it never asked for would be copied into. For a frame that announces nothing, what counts is
      that nothing is committed. In every run, at every decision. */
  lemma LeftoversHarmlessIff(cfg: Setup, bs: seq<Backend>, es: seq<WlrEvent>, i: nat, e: WlrEvent)
    requires BackendRun(cfg, bs, es) && i <= |es| && Allowed(cfg, bs[i], e) && Decides(cfg, e)
    ensures var d := Deciding(bs[i], e);
      var f := d.live.value;
      (forall h :: CopiesInto(cfg, bs[i], e, h) ==> Fits(f.report, h)) <==>
        !d.s.initialized ||
        (if f.report.dirty then Contained(f.left, f.report)
         else Contained(Checked(f.left, f.report, d.s.current), Constraints.EMPTY))
  {
    ProtocolEveryRun(cfg, bs, es, i);
    var d := Deciding(bs[i], e);
    var f := d.live.value;
    if e.Buffer? {
      TrackedAnnounced(bs[i], [], e.format, e.width, e.height, e.stride);
    }
    forall h ensures CopiesInto(cfg, bs[i], e, h) <==>
      d.s.initialized && Fits(Checked(f.left, f.report, d.s.current), h)
    {
      CopiesIntoChecked(cfg, bs[i], e, h);
    }
    FitsOnlyIff(Checked(f.left, f.report, d.s.current), f.report);
  }

  /** All pairs and formats of one set are in another. */
  ghost predicate Contained(c: ConstraintSet, report: ConstraintSet) {
    (forall p :: p in c.pairs ==> p in report.pairs) && (forall f :: f in c.shm ==> f in report.shm)
  }

  /** The buffers that fit one set fit another, of the same size or empty, exactly if it is contained. */
  lemma FitsOnlyIff(c: ConstraintSet, report: ConstraintSet)
    requires (c.width == report.width && c.height == report.height) || (report.pairs == [] && report.shm == [])
    ensures (forall h: HeldBuffer :: Fits(c, h) ==> Fits(report, h)) <==> Contained(c, report)
  {
    if forall h: HeldBuffer :: Fits(c, h) ==> Fits(report, h) {
      forall p | p in c.pairs ensures p in report.pairs {
        var h := HeldBuffer(true, p.fourcc, c.width, c.height, 0, p.modifier);
        assert Fits(c, h);
      }
      forall f | f in c.shm ensures f in report.shm {
        var h := HeldBuffer(false, f.fourcc, c.width, c.height, f.stride, 0);
        assert Fits(c, h);
      }
    }
  }

  const OLD_BUFFER := HeldBuffer(false, RGBA8888, 1, 1, 4, 0)
  const OLD_FORMAT := Constraints.ShmFormat(RGBA8888, 4)
  const NEW_FORMAT := Constraints.ShmFormat(RGBX8888, 4)

  function OneFormat(f: Constraints.ShmFormat): ConstraintSet {
    Constraints.EMPTY.(shm := [f], width := 1, height := 1, dirty := true)
  }

  /** A frame has announced a format and failed. */
  function AfterFailure(id1: FrameId): Backend {
    Backend(WlrState(OneFormat(OLD_FORMAT), Constraints.EMPTY, true, true, None, None), None, {id1},
            [Sent(Destroy(id1), Constraints.EMPTY, OneFormat(OLD_FORMAT), Constraints.EMPTY)])
  }

  lemma FailureReachable(id1: FrameId) returns (bs: seq<Backend>, es: seq<WlrEvent>)
    ensures BackendRun(Setup(3, []), bs, es) && |es| == 5
    ensures bs[5] == AfterFailure(id1)
  {
    var cfg := Setup(3, []);
    es := [Initialize, Stream(true), Capture(id1), Buffer(RGBA8888, 1, 1, 4), FailedEvent];
    var b0 := Backend(WlrState(Constraints.EMPTY, Constraints.EMPTY, false, false, None, None), None, {}, []);
    var b1 := Advance(cfg, b0, es[0]);
    var b2 := Advance(cfg, b1, es[1]);
    var b3 := Advance(cfg, b2, es[2]);
    var b4 := Advance(cfg, b3, es[3]);
    Codes();
    assert b4.s.pending == OneFormat(OLD_FORMAT) && b4.live.value.report == OneFormat(OLD_FORMAT);
    var b5 := Advance(cfg, b4, es[4]);
    bs := [b0, b1, b2, b3, b4, b5];
  }

  /** After a frame that announced a format and failed, a frame that announces another one commits
      both, and a buffer only the first one asked for is copied into. */
  lemma LeftoverReachesNextFrame(id1: FrameId, id2: FrameId) returns (bs: seq<Backend>, es: seq<WlrEvent>)
    requires id1 != id2
    ensures BackendRun(Setup(3, []), bs, es) && |es| == 9
    ensures |bs[9].log| == 2 && bs[9].log[1].request == CopyWithDamage(id2, OLD_BUFFER)
    ensures bs[9].log[1].report == OneFormat(NEW_FORMAT) && !Fits(bs[9].log[1].report, OLD_BUFFER)
  {
    var cfg := Setup(3, []);
    bs, es := FailureReachable(id1);
    var b5 := bs[5];
    var more := [Hold(Some(OLD_BUFFER)), Capture(id2), Buffer(RGBX8888, 1, 1, 4), BufferDoneEvent];
    var b6 := Advance(cfg, b5, more[0]);
    var b7 := Advance(cfg, b6, more[1]);
    var b8 := Advance(cfg, b7, more[2]);
    Codes();
    assert b8.s.pending.shm == [OLD_FORMAT, NEW_FORMAT];
    assert b8.live.value.report == OneFormat(NEW_FORMAT);
    assert b8.s.pending.shm[0] == OLD_FORMAT;
    assert Copies(b8.s);
    var b9 := Advance(cfg, b8, more[3]);
    bs, es := bs + [b6, b7, b8, b9], es + more;
  }
}
