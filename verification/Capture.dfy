/** The capture cycle of one cast on the ext-image-copy-capture path: which buffer it holds,
    the damage each pool buffer has accumulated, and what is handed to PipeWire.

    Pointers are numbers, and what they point to is looked up in a map that loses its entry
    when the source frees the object, so every lookup here is a proof that the pointer is live. */
module Capture {
  import opened Common
  import opened Damage

  type BufferId(==, !new) // an xdpw_buffer's address
  type PwId(==, !new)     // a pw_buffer's address

  datatype StreamState = Error | Unconnected | Connecting | Paused | Streaming

  /** The fields of xdpw_screencast_instance that the capture cycle uses. */
  datatype CastState = CastState(
    streaming: bool,                    // pwr_stream_state
    pwBuffer: Option<PwId>,             // current_frame.pw_buffer
    xdpwBuffer: Option<BufferId>,       // current_frame.xdpw_buffer
    completed: bool,                    // current_frame.completed
    frameDamage: seq<Rect>,             // current_frame.damage
    bufferList: seq<BufferId>,          // buffer_list, head first
    damage: Table<BufferId, seq<Rect>>, // the damage array of every live buffer
    frame: bool,                        // ext_session.frame is set
    timers: nat                         // pending timers whose user data is this cast
  )

  /** Every listed buffer is live and listed once; the two pointers to the held buffer agree. */
  ghost predicate WellFormed(c: CastState) {
    && NoDup(c.bufferList)
    && (forall b :: b in c.bufferList <==> b in c.damage.at)
    && (c.pwBuffer.Some? <==> c.xdpwBuffer.Some?)
    && (c.xdpwBuffer.Some? ==> c.xdpwBuffer.value in c.damage.at)
  }

  /** What pw_stream_queue_buffer is called with. */
  datatype Frame = Frame(pw: PwId, corrupt: bool, regions: seq<Rect>)

  /** attach_buffer, the damage_buffer requests, capture. */
  datatype Request = Request(buffer: BufferId, sent: seq<Rect>)

  // ----- the handlers, as functions of the cast's fields -----

  function Release(c: CastState): CastState {
    c.(pwBuffer := None, xdpwBuffer := None)
  }

  function Queued(c: CastState, rule: MergeRule, slots: nat): Option<Frame>
    requires slots >= 1
  {
    if c.pwBuffer.None? then None
    else Some(Frame(c.pwBuffer.value, !c.completed, Pack(rule, c.frameDamage, slots)))
  }

  function Hold(c: CastState, pw: PwId, buffer: BufferId): CastState {
    c.(pwBuffer := Some(pw), xdpwBuffer := Some(buffer), completed := false)
  }

  function Started(c: CastState): CastState {
    if c.xdpwBuffer.None? then c else c.(frame := true)
  }

  function StartRequest(c: CastState): Option<Request>
    requires c.xdpwBuffer.Some? ==> c.xdpwBuffer.value in c.damage.at
  {
    if c.xdpwBuffer.None? then None else Some(Request(c.xdpwBuffer.value, c.damage.at[c.xdpwBuffer.value]))
  }

  predicate Dequeues(c: CastState) {
    c.streaming && c.pwBuffer.None?
  }

  /** pick is the dequeued buffer with its user data, delayed whether the limiter asks for a timer. */
  function Processed(c: CastState, pick: Option<(PwId, BufferId)>, delayed: bool): CastState {
    if !Dequeues(c) || pick.None? then c
    else
      var held := Hold(c, pick.value.0, pick.value.1);
      if delayed then held.(timers := c.timers + 1) else Started(held)
  }

  function ProcessRequest(c: CastState, pick: Option<(PwId, BufferId)>, delayed: bool): Option<Request>
    requires pick.Some? ==> pick.value.1 in c.damage.at
  {
    if !Dequeues(c) || pick.None? || delayed then None
    else StartRequest(Hold(c, pick.value.0, pick.value.1))
  }

  predicate Releases(before: StreamState, state: StreamState) {
    state == Paused && before == Streaming
  }

  function StateChanged(c: CastState, before: StreamState, state: StreamState): CastState {
    (if Releases(before, state) then Release(c) else c).(streaming := state == Streaming)
  }

  function Added(c: CastState, b: BufferId): CastState {
    c.(bufferList := [b] + c.bufferList, damage := Table(c.damage.at[b := []]))
  }

  function Removed(c: CastState, pw: PwId, userData: Option<BufferId>): CastState {
    var d := if userData.None? then c
             else c.(bufferList := Without(c.bufferList, userData.value),
                     damage := Table(c.damage.at - {userData.value}));
    if c.pwBuffer == Some(pw) then Release(d) else d
  }

  function Damaged(c: CastState, r: Rect): CastState {
    c.(damage := Table(map b | b in c.damage.at :: c.damage.at[b] + [r]), frameDamage := c.frameDamage + [r])
  }

  function BeforeReadyQueue(c: CastState): CastState {
    c.(frame := false, completed := true)
  }

  function Ready(c: CastState): CastState {
    Release(BeforeReadyQueue(c)).(
      damage := if c.xdpwBuffer.Some? then Table(c.damage.at[c.xdpwBuffer.value := []]) else c.damage,
      frameDamage := [])
  }

  function Failed(c: CastState): CastState {
    Release(c.(frame := false))
  }

  // ----- the handlers, as the source has them -----

  class Cast {
    var pwrStreamState: bool
    var pwBuffer: Option<PwId>
    var xdpwBuffer: Option<BufferId>
    var completed: bool
    var frameDamage: seq<Rect>
    var bufferList: seq<BufferId>
    var bufferDamage: map<BufferId, seq<Rect>>
    var extFrame: bool
    var pendingTimers: nat

    ghost function View(): CastState
      reads this
    {
      CastState(pwrStreamState, pwBuffer, xdpwBuffer, completed, frameDamage,
                bufferList, Table(bufferDamage), extFrame, pendingTimers)
    }

    ghost predicate Valid()
      reads this
    {
      WellFormed(View())
    }

    constructor ()
      ensures Valid()
      ensures View() == CastState(false, None, None, false, [], [], Table(map[]), false, 0)
    {
      pwrStreamState, pwBuffer, xdpwBuffer, completed := false, None, None, false;
      frameDamage, bufferList, bufferDamage, extFrame, pendingTimers := [], [], map[], false, 0;
    }

    /** slots is the damage metadata of the held buffer. */
    method EnqueueBuffer(rule: MergeRule, slots: array<Rect>) returns (queued: Option<Frame>)
      requires Valid() && slots.Length >= 1
      modifies `pwBuffer, `xdpwBuffer, slots
      ensures Valid() && View() == Release(old(View())) && pwBuffer.None? && xdpwBuffer.None?
      ensures queued == Queued(old(View()), rule, slots.Length)
      ensures old(pwBuffer).None? ==> queued.None? && slots[..] == old(slots[..])
      ensures old(pwBuffer).Some? ==>
        && slots[..] == Pack(rule, frameDamage, slots.Length)
        && queued == Some(Frame(old(pwBuffer).value, !completed, slots[..]))
    {
      queued := None;
      if pwBuffer.Some? {
        var bufferCorrupt := !completed;
        WriteDamage(rule, frameDamage, slots);
        queued := Some(Frame(pwBuffer.value, bufferCorrupt, slots[..]));
      }
      xdpwBuffer := None;
      pwBuffer := None;
    }

    /** ext_register_frame_cb: one damage_buffer request for each rectangle the buffer accumulated. */
    method FrameCapture() returns (request: Option<Request>)
      requires Valid()
      modifies `extFrame
      ensures Valid() && View() == Started(old(View()))
      ensures request == StartRequest(old(View()))
      ensures extFrame == (old(extFrame) || xdpwBuffer.Some?)
      ensures request ==
        if xdpwBuffer.Some? then Some(Request(xdpwBuffer.value, bufferDamage[xdpwBuffer.value])) else None
    {
      if xdpwBuffer.None? {
        return None;
      }
      extFrame := true;
      var accumulated := bufferDamage[xdpwBuffer.value];
      var sent := [];
      for i := 0 to |accumulated|
        invariant sent == accumulated[..i]
      {
        sent := sent + [accumulated[i]];
      }
      assert sent == accumulated;
      request := Some(Request(xdpwBuffer.value, sent));
    }

    method OnProcess(dequeued: Option<(PwId, BufferId)>, delayNs: nat) returns (request: Option<Request>)
      requires Valid()
      requires dequeued.Some? ==> dequeued.value.1 in bufferDamage
      modifies `pwBuffer, `xdpwBuffer, `completed, `pendingTimers, `extFrame
      ensures Valid() && View() == Processed(old(View()), dequeued, delayNs > 0)
      ensures request == ProcessRequest(old(View()), dequeued, delayNs > 0)
      ensures !pwrStreamState || old(pwBuffer).Some? || dequeued.None? ==> View() == old(View()) && request.None?
      ensures pwrStreamState && old(pwBuffer).None? && dequeued.Some? ==>
        && pwBuffer == Some(dequeued.value.0) && xdpwBuffer == Some(dequeued.value.1) && !completed
        && pendingTimers == old(pendingTimers) + (if delayNs > 0 then 1 else 0)
        && extFrame == (old(extFrame) || delayNs == 0)
        && request ==
             if delayNs > 0 then None else Some(Request(dequeued.value.1, bufferDamage[dequeued.value.1]))
    {
      request := None;
      if !pwrStreamState {
        return;
      }
      if pwBuffer.Some? {
        return;
      }
      if dequeued.None? {
        return;
      }
      pwBuffer := Some(dequeued.value.0);
      xdpwBuffer := Some(dequeued.value.1);
      completed := false;
      if delayNs > 0 {
        pendingTimers := pendingTimers + 1;
      } else {
        request := FrameCapture();
      }
    }

    method CaptureTimer() returns (request: Option<Request>)
      requires Valid() && pendingTimers > 0
      modifies `pendingTimers, `extFrame
      ensures Valid() && View() == Started(old(View())).(timers := old(pendingTimers) - 1)
      ensures request == StartRequest(old(View()))
      ensures pendingTimers == old(pendingTimers) - 1 && extFrame == (old(extFrame) || xdpwBuffer.Some?)
      ensures request ==
        if xdpwBuffer.Some? then Some(Request(xdpwBuffer.value, bufferDamage[xdpwBuffer.value])) else None
    {
      pendingTimers := pendingTimers - 1;
      request := FrameCapture();
    }

    method HandleStateChanged(oldState: StreamState, state: StreamState,
                              rule: MergeRule, slots: array<Rect>) returns (queued: Option<Frame>)
      requires Valid() && slots.Length >= 1
      modifies `pwrStreamState, `pwBuffer, `xdpwBuffer, slots
      ensures Valid() && View() == StateChanged(old(View()), oldState, state)
      ensures queued == if Releases(oldState, state) then Queued(old(View()), rule, slots.Length) else None
      ensures pwrStreamState <==> state == Streaming
      ensures oldState == Streaming && state == Paused ==> pwBuffer.None? && xdpwBuffer.None?
      ensures oldState == Streaming && state == Paused && old(pwBuffer).Some? ==>
        queued == Some(Frame(old(pwBuffer).value, !completed, Pack(rule, frameDamage, slots.Length)))
      ensures oldState != Streaming || state != Paused || old(pwBuffer).None? ==>
        pwBuffer == old(pwBuffer) && xdpwBuffer == old(xdpwBuffer) && queued.None?
    {
      queued := None;
      match state
      case Streaming =>
        pwrStreamState := true;
      case Paused =>
        if oldState == Streaming {
          queued := EnqueueBuffer(rule, slots);
        }
        pwrStreamState := false;
      case _ =>
        pwrStreamState := false;
    }

    method AddBuffer(b: BufferId)
      requires Valid() && b !in bufferDamage
      modifies `bufferList, `bufferDamage
      ensures Valid() && View() == Added(old(View()), b)
      ensures bufferList == [b] + old(bufferList) && bufferDamage == old(bufferDamage)[b := []]
    {
      bufferDamage := bufferDamage[b := []];
      bufferList := [b] + bufferList;
    }

    method RemoveBuffer(pw: PwId, userData: Option<BufferId>)
      requires Valid()
      requires userData.Some? ==> userData.value in bufferDamage
      // the held buffer is the held PipeWire buffer's user data
      requires pwBuffer == Some(pw) ==> xdpwBuffer == userData
      requires pwBuffer != Some(pw) ==> userData.None? || xdpwBuffer != userData
      modifies `bufferList, `bufferDamage, `pwBuffer, `xdpwBuffer
      ensures Valid() && View() == Removed(old(View()), pw, userData)
      ensures bufferDamage == old(bufferDamage) - if userData.Some? then {userData.value} else {}
      ensures pwBuffer == if old(pwBuffer) == Some(pw) then None else old(pwBuffer)
      ensures xdpwBuffer == if old(pwBuffer) == Some(pw) then None else old(xdpwBuffer)
    {
      if userData.Some? {
        WithoutMembers(bufferList, userData.value);
        bufferList := Without(bufferList, userData.value);
        bufferDamage := bufferDamage - {userData.value};
      }
      if pwBuffer == Some(pw) {
        pwBuffer := None;
        xdpwBuffer := None;
      }
    }

    method FrameDamage(r: Rect)
      requires Valid()
      modifies `bufferDamage, `frameDamage
      ensures Valid() && View() == Damaged(old(View()), r)
      ensures frameDamage == old(frameDamage) + [r] && bufferDamage.Keys == old(bufferDamage).Keys
      ensures forall b :: b in bufferDamage ==> bufferDamage[b] == old(bufferDamage)[b] + [r]
    {
      var before := bufferDamage;
      for i := 0 to |bufferList|
        modifies `bufferDamage
        invariant bufferDamage.Keys == before.Keys
        invariant forall j :: 0 <= j < i ==> bufferDamage[bufferList[j]] == before[bufferList[j]] + [r]
        invariant forall j :: i <= j < |bufferList| ==> bufferDamage[bufferList[j]] == before[bufferList[j]]
      {
        var b := bufferList[i];
        bufferDamage := bufferDamage[b := bufferDamage[b] + [r]];
      }
      frameDamage := frameDamage + [r];
    }

    method FrameReady(rule: MergeRule, slots: array<Rect>) returns (queued: Option<Frame>)
      requires Valid() && slots.Length >= 1
      modifies this, slots
      ensures Valid() && View() == Ready(old(View()))
      ensures queued == Queued(BeforeReadyQueue(old(View())), rule, slots.Length)
      ensures pwBuffer.None? && xdpwBuffer.None? && !extFrame && frameDamage == []
      ensures bufferDamage ==
        if old(xdpwBuffer).Some? then old(bufferDamage)[old(xdpwBuffer).value := []] else old(bufferDamage)
      ensures queued ==
        if old(pwBuffer).None? then None
        else Some(Frame(old(pwBuffer).value, false, Pack(rule, old(frameDamage), slots.Length)))
      ensures bufferList == old(bufferList) && pendingTimers == old(pendingTimers)
      ensures pwrStreamState == old(pwrStreamState)
    {
      extFrame := false;
      var buffer := xdpwBuffer;
      completed := true;
      queued := EnqueueBuffer(rule, slots);
      if buffer.Some? {
        bufferDamage := bufferDamage[buffer.value := []];
      }
      frameDamage := [];
    }

    /** The constraint-mismatch reason; the other reasons end the cast. */
    method FrameFailed(rule: MergeRule, slots: array<Rect>) returns (queued: Option<Frame>)
      requires Valid() && slots.Length >= 1
      modifies `extFrame, `pwBuffer, `xdpwBuffer, slots
      ensures Valid() && View() == Failed(old(View()))
      ensures queued == Queued(old(View()), rule, slots.Length)
      ensures pwBuffer.None? && xdpwBuffer.None? && !extFrame
      ensures queued ==
        if old(pwBuffer).None? then None
        else Some(Frame(old(pwBuffer).value, !completed, Pack(rule, frameDamage, slots.Length)))
    {
      extFrame := false;
      queued := EnqueueBuffer(rule, slots);
    }
  }
}
