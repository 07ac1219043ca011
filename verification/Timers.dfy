/** The event loop's timers: normalised time stamps, a cached earliest timer, one timerfd. */
module Timers {
  import opened Common

  const NSEC_PER_SEC := 1_000_000_000

  datatype Timespec = Timespec(sec: int, nsec: int)

  ghost predicate Normal(t: Timespec) {
    t.sec >= 0 && 0 <= t.nsec < NSEC_PER_SEC
  }

  function Nanos(t: Timespec): int {
    t.sec * NSEC_PER_SEC + t.nsec
  }

  predicate Less(a: Timespec, b: Timespec) {
    if a.sec != b.sec then a.sec < b.sec else a.nsec < b.nsec
  }

  predicate IsZero(t: Timespec) {
    t.sec == 0 && t.nsec == 0
  }

  function DiffNs(a: Timespec, b: Timespec): int {
    var s := a.sec - b.sec;
    var ns := a.nsec - b.nsec;
    s * NSEC_PER_SEC + ns
  }

  /** For a non-negative delay below 2^31 seconds, which fits the source's int. */
  method TimespecAdd(t: Timespec, deltaNs: int) returns (r: Timespec)
    requires Normal(t) && 0 <= deltaNs < 0x8000_0000 * NSEC_PER_SEC
    ensures Normal(r) && Nanos(r) == Nanos(t) + deltaNs
    ensures r == After(t, deltaNs)
  {
    var low := deltaNs % NSEC_PER_SEC;
    var high := deltaNs / NSEC_PER_SEC;
    var sec := t.sec + high;
    var nsec := t.nsec + low;
    if nsec >= NSEC_PER_SEC {
      nsec := nsec - NSEC_PER_SEC;
      sec := sec + 1;
    }
    r := Timespec(sec, nsec);
    NormalIsUnique(r, After(t, deltaNs));
  }

  /** The normalised time stamp of a number of nanoseconds after t. */
  function After(t: Timespec, deltaNs: int): Timespec {
    var n := Nanos(t) + deltaNs;
    Timespec(n / NSEC_PER_SEC, n % NSEC_PER_SEC)
  }

  lemma NormalIsUnique(a: Timespec, b: Timespec)
    requires 0 <= a.nsec < NSEC_PER_SEC && 0 <= b.nsec < NSEC_PER_SEC
    ensures Nanos(a) == Nanos(b) <==> a == b
  {
  }

  /** On normalised stamps the field-wise comparison and difference are those of the instants. */
  lemma LessIsEarlier(a: Timespec, b: Timespec)
    requires Normal(a) && Normal(b)
    ensures Less(a, b) <==> Nanos(a) < Nanos(b)
    ensures DiffNs(a, b) == Nanos(a) - Nanos(b)
    ensures IsZero(a) <==> Nanos(a) == 0
  {
  }

  // ----- the queue, as a value -----

  type TimerId(==, !new) // an xdpw_timer's address

  datatype QueueState = QueueState(
    fd: int,                        // timer_poll_fd, negative if timerfd_create failed
    timers: seq<TimerId>,           // the list, newest first
    at: map<TimerId, Timespec>,     // the deadline of every live timer
    next: Option<TimerId>,          // next_timer
    armed: Option<Timespec>         // the timerfd's one-shot absolute deadline
  )

  /** The scan of update_timer over the list, starting from the cached timer. */
  function Scan(timers: seq<TimerId>, at: map<TimerId, Timespec>, next: Option<TimerId>): Option<TimerId>
    requires forall i :: 0 <= i < |timers| ==> timers[i] in at
    requires next.Some? ==> next.value in at
    decreases |timers|
  {
    if timers == [] then next
    else
      var t := timers[0];
      Scan(timers[1..], at, if next.None? || Less(at[t], at[next.value]) then Some(t) else next)
  }

  /** The kernel disarms a timerfd that is set to zero. */
  function SetTime(t: Timespec): Option<Timespec> {
    if IsZero(t) then None else Some(t)
  }

  ghost predicate Live(q: QueueState) {
    && NoDup(q.timers)
    && (forall i :: 0 <= i < |q.timers| ==> q.timers[i] in q.at)
    && (forall t :: t in q.at ==> t in q.timers)
    && (forall t :: t in q.at ==> Normal(q.at[t]) && !IsZero(q.at[t]))
    && (q.next.Some? ==> q.next.value in q.at)
  }

  function Updated(q: QueueState): (r: QueueState)
    requires forall i :: 0 <= i < |q.timers| ==> q.timers[i] in q.at
    requires q.next.Some? ==> q.next.value in q.at
  {
    if q.fd < 0 then q
    else
      var next := Scan(q.timers, q.at, q.next);
      if next == q.next then q
      else if next.None? then q
      else ScanStaysLive(q.timers, q.at, q.next); q.(next := next, armed := SetTime(q.at[next.value]))
  }

  lemma {:induction false} ScanStaysLive(timers: seq<TimerId>, at: map<TimerId, Timespec>, next: Option<TimerId>)
    requires forall i :: 0 <= i < |timers| ==> timers[i] in at
    requires next.Some? ==> next.value in at
    ensures var r := Scan(timers, at, next);
      && (r.Some? ==> r.value in at)
      && (r.None? <==> next.None? && timers == [])
      && (r == next || (r.Some? && r.value in timers))
    decreases |timers|
  {
    if timers != [] {
      var t := timers[0];
      var n := if next.None? || Less(at[t], at[next.value]) then Some(t) else next;
      ScanStaysLive(timers[1..], at, n);
    }
  }

  /** The scan ends on a least deadline among the list and the timer it started from. */
  lemma {:induction false} ScanIsLeast(timers: seq<TimerId>, at: map<TimerId, Timespec>, next: Option<TimerId>)
    requires forall i :: 0 <= i < |timers| ==> timers[i] in at
    requires next.Some? ==> next.value in at
    requires forall t :: t in at ==> Normal(at[t])
    requires next.Some? || timers != []
    ensures var r := Scan(timers, at, next);
      && r.Some? && r.value in at
      && (forall i :: 0 <= i < |timers| ==> Nanos(at[r.value]) <= Nanos(at[timers[i]]))
      && (next.Some? ==> Nanos(at[r.value]) <= Nanos(at[next.value]))
    decreases |timers|
  {
    ScanStaysLive(timers, at, next);
    if timers != [] {
      var t := timers[0];
      var n := if next.None? || Less(at[t], at[next.value]) then Some(t) else next;
      if next.Some? {
        LessIsEarlier(at[t], at[next.value]);
      }
      ScanIsLeast(timers[1..], at, n);
      var r := Scan(timers, at, next);
      forall i | 0 <= i < |timers| ensures Nanos(at[r.value]) <= Nanos(at[timers[i]]) {
        assert i > 0 ==> timers[i] == timers[1..][i - 1];
      }
    }
  }

  function Enlisted(q: QueueState, t: TimerId, deadline: Timespec): QueueState {
    q.(timers := [t] + q.timers, at := q.at[t := deadline])
  }

  function Added(q: QueueState, t: TimerId, deadline: Timespec): QueueState
    requires Live(q) && t !in q.at && Normal(deadline) && !IsZero(deadline)
  {
    EnlistedLive(q, t, deadline);
    Updated(Enlisted(q, t, deadline))
  }

  lemma EnlistedLive(q: QueueState, t: TimerId, deadline: Timespec)
    requires Live(q) && t !in q.at && Normal(deadline) && !IsZero(deadline)
    ensures Live(Enlisted(q, t, deadline))
  {
  }

  function Delisted(q: QueueState, t: TimerId): QueueState {
    q.(next := if q.next == Some(t) then None else q.next,
       timers := Without(q.timers, t), at := q.at - {t})
  }

  function Destroyed(q: QueueState, t: TimerId): QueueState
    requires Live(q) && t in q.at
  {
    DelistedLive(q, t);
    Updated(Delisted(q, t))
  }

  lemma DelistedLive(q: QueueState, t: TimerId)
    requires Live(q) && t in q.at
    ensures Live(Delisted(q, t))
  {
    WithoutMembers(q.timers, t);
    var r := Delisted(q, t);
    forall i | 0 <= i < |r.timers| ensures r.timers[i] in r.at {
      assert r.timers[i] in r.timers;
    }
  }

  /** Reading an expired one-shot timerfd leaves it disarmed; the cached timer, if any, is removed
      before its callback runs. */
  function Dispatched(q: QueueState): QueueState
    requires Live(q)
  {
    var r := q.(armed := None);
    if r.next.None? then r else Destroyed(r, r.next.value)
  }

  /** The cached timer exists exactly when there is one, is a least-deadline one, and the timerfd
      is armed with its deadline. Without a timerfd nothing is ever cached or armed. */
  ghost predicate Consistent(q: QueueState) {
    && Live(q)
    && (q.fd < 0 ==> q.next.None? && q.armed.None?)
    && (q.fd >= 0 ==>
         && (q.next.None? <==> q.timers == [])
         && (q.next.Some? ==>
              && q.armed == Some(q.at[q.next.value])
              && forall t :: t in q.at ==> Nanos(q.at[q.next.value]) <= Nanos(q.at[t])))
  }

  /** update_timer restores consistency whenever the cache is empty or still armed. */
  lemma UpdatedConsistent(q: QueueState)
    requires Live(q)
    requires q.fd < 0 ==> q.next.None? && q.armed.None?
    requires q.next.Some? ==> q.armed == Some(q.at[q.next.value])
    ensures Consistent(Updated(q))
    ensures Updated(q).timers == q.timers && Updated(q).at == q.at && Updated(q).fd == q.fd
  {
    if q.fd >= 0 {
      ScanStaysLive(q.timers, q.at, q.next);
      if q.timers != [] {
        ScanIsLeast(q.timers, q.at, q.next);
      }
    }
  }

  lemma AddedConsistent(q: QueueState, t: TimerId, deadline: Timespec)
    requires Consistent(q) && t !in q.at && Normal(deadline) && !IsZero(deadline)
    ensures Consistent(Added(q, t, deadline))
    ensures Added(q, t, deadline).at == q.at[t := deadline] && Added(q, t, deadline).fd == q.fd
  {
    EnlistedLive(q, t, deadline);
    UpdatedConsistent(Enlisted(q, t, deadline));
  }

  lemma DestroyedConsistent(q: QueueState, t: TimerId)
    requires Live(q) && t in q.at
    requires Consistent(q) || (q.next == Some(t) && q.fd >= 0)
    ensures Consistent(Destroyed(q, t))
    ensures Destroyed(q, t).at == q.at - {t} && Destroyed(q, t).fd == q.fd
  {
    DelistedLive(q, t);
    UpdatedConsistent(Delisted(q, t));
  }

  /** After the timer event the earliest timer is gone and the next one is armed. */
  lemma DispatchedConsistent(q: QueueState)
    requires Consistent(q)
    ensures Consistent(Dispatched(q))
    ensures Dispatched(q).at == (if q.next.None? then q.at else q.at - {q.next.value}) && Dispatched(q).fd == q.fd
  {
    if q.next.Some? {
      DestroyedConsistent(q.(armed := None), q.next.value);
    }
  }

  // ----- the queue, as the source has it -----

  class TimerQueue {
    var timerPollFd: int
    var timers: seq<TimerId>
    var at: map<TimerId, Timespec>
    var nextTimer: Option<TimerId>
    var armed: Option<Timespec>

    ghost function View(): QueueState
      reads this
    {
      QueueState(timerPollFd, timers, at, nextTimer, armed)
    }

    constructor (fd: int)
      ensures View() == QueueState(fd, [], map[], None, None) && Consistent(View())
    {
      timerPollFd, timers, at, nextTimer, armed := fd, [], map[], None, None;
    }

    method UpdateTimer()
      requires Live(View())
      modifies `nextTimer, `armed
      ensures View() == Updated(old(View()))
    {
      if timerPollFd < 0 {
        return;
      }
      var updated := false;
      for i := 0 to |timers|
        modifies `nextTimer
        invariant nextTimer.Some? ==> nextTimer.value in at
        invariant Scan(timers[i..], at, nextTimer) == Scan(timers, at, old(nextTimer))
        invariant if updated then nextTimer.Some? && nextTimer != old(nextTimer) else nextTimer == old(nextTimer)
        invariant updated && old(nextTimer).Some? ==>
          Nanos(at[nextTimer.value]) < Nanos(at[old(nextTimer).value])
      {
        var timer := timers[i];
        assert timers[i..][0] == timer && timers[i..][1..] == timers[i + 1..];
        if nextTimer.Some? {
          LessIsEarlier(at[timer], at[nextTimer.value]);
        }
        if nextTimer.None? || Less(at[timer], at[nextTimer.value]) {
          nextTimer := Some(timer);
          updated := true;
        }
      }
      if updated {
        armed := SetTime(at[nextTimer.value]);
      }
    }

    method AddTimer(timer: TimerId, now: Timespec, delayNs: int)
      requires Consistent(View()) && timer !in at
      requires Normal(now) && !IsZero(now) && 0 <= delayNs < 0x8000_0000 * NSEC_PER_SEC
      modifies this
      ensures Normal(After(now, delayNs)) && !IsZero(After(now, delayNs))
      ensures View() == Added(old(View()), timer, After(now, delayNs))
      ensures Consistent(View()) && timers == [timer] + old(timers)
      ensures at == old(at)[timer := After(now, delayNs)] && Nanos(After(now, delayNs)) == Nanos(now) + delayNs
    {
      var deadline := TimespecAdd(now, delayNs);
      LessIsEarlier(now, deadline);
      AddedConsistent(View(), timer, deadline);
      EnlistedLive(View(), timer, deadline);
      timers := [timer] + timers;
      at := at[timer := deadline];
      UpdateTimer();
    }

    method DestroyTimer(timer: TimerId)
      requires Live(View()) && timer in at
      modifies this
      ensures View() == Destroyed(old(View()), timer)
      ensures at == old(at) - {timer}
    {
      DelistedLive(View(), timer);
      if nextTimer == Some(timer) {
        nextTimer := None;
      }
      timers := Without(timers, timer);
      at := at - {timer};
      UpdateTimer();
    }

    /** The timer branch of the event loop: returns the timer whose callback is to run. */
    method HandleTimerEvent() returns (callback: Option<TimerId>)
      requires Consistent(View()) && armed.Some?
      modifies this
      ensures View() == Dispatched(old(View())) && Consistent(View())
      ensures callback == old(nextTimer)
    {
      DispatchedConsistent(View());
      armed := None;
      callback := nextTimer;
      if nextTimer.Some? {
        DestroyTimer(nextTimer.value);
      }
    }
  }

  // ----- whole runs of the event loop -----

  datatype Firing = Firing(timer: TimerId, deadline: int, time: int)

  datatype Loop = Loop(q: QueueState, now: int, fired: seq<Firing>, used: set<TimerId>)

  datatype LoopEvent =
    | AddTimer(timer: TimerId, delayNs: int, now: int)
    | DestroyTimer(timer: TimerId, now: int)
    | TimerReadable(now: int)

  function Stamp(now: int): Timespec {
    Timespec(now / NSEC_PER_SEC, now % NSEC_PER_SEC)
  }

  lemma StampNormal(now: int, delayNs: int)
    requires now > 0 && delayNs >= 0
    ensures Normal(Stamp(now)) && Nanos(Stamp(now)) == now && !IsZero(Stamp(now))
    ensures var d := After(Stamp(now), delayNs); Normal(d) && Nanos(d) == now + delayNs && !IsZero(d)
  {
  }

  /** The clock never runs backwards, and the timerfd becomes readable no earlier than its deadline. */
  ghost predicate Possible(l: Loop, e: LoopEvent) {
    && e.now >= l.now > 0
    && match e
       case AddTimer(t, delay, _) => t !in l.used && 0 <= delay < 0x8000_0000 * NSEC_PER_SEC
       case DestroyTimer(t, _) => t in l.q.at
       case TimerReadable(now) => l.q.armed.Some? && Nanos(l.q.armed.value) <= now
  }

  ghost function Moved(l: Loop, e: LoopEvent): Loop
    requires Live(l.q) && l.q.at.Keys <= l.used && Possible(l, e)
  {
    match e
    case AddTimer(t, delay, now) =>
      StampNormal(now, delay);
      l.(q := Added(l.q, t, After(Stamp(now), delay)), now := now, used := l.used + {t})
    case DestroyTimer(t, now) => l.(q := Destroyed(l.q, t), now := now)
    case TimerReadable(now) =>
      l.(q := Dispatched(l.q), now := now,
         fired := if l.q.next.None? then l.fired
                  else l.fired + [Firing(l.q.next.value, Nanos(l.q.at[l.q.next.value]), now)])
  }

  /** Callbacks have run once each, never early, in nondecreasing order of their deadlines; and no
      pending deadline lies before one that has already been served. */
  ghost predicate InOrder(fired: seq<Firing>, at: map<TimerId, Timespec>, now: int, used: set<TimerId>) {
    && (forall i :: 0 <= i < |fired| ==> fired[i].deadline <= fired[i].time <= now)
    && (forall i :: 0 <= i < |fired| ==> fired[i].timer in used && fired[i].timer !in at)
    && (forall i, j :: 0 <= i < j < |fired| ==>
         fired[i].timer != fired[j].timer && fired[i].deadline <= fired[j].deadline)
    && (forall i, t :: 0 <= i < |fired| && t in at ==> fired[i].deadline <= Nanos(at[t]))
  }

  ghost predicate Punctual(l: Loop) {
    && Consistent(l.q) && l.q.at.Keys <= l.used && l.now > 0
    && InOrder(l.fired, l.q.at, l.now, l.used)
  }

  lemma InOrderAdd(fired: seq<Firing>, at: map<TimerId, Timespec>, now: int, used: set<TimerId>,
                   t: TimerId, deadline: Timespec, later: int)
    requires InOrder(fired, at, now, used) && t !in used
    requires now <= later <= Nanos(deadline)
    ensures InOrder(fired, at[t := deadline], later, used + {t})
  {
  }

  lemma InOrderRemove(fired: seq<Firing>, at: map<TimerId, Timespec>, now: int, used: set<TimerId>,
                      t: TimerId, later: int)
    requires InOrder(fired, at, now, used) && now <= later
    ensures InOrder(fired, at - {t}, later, used)
  {
  }

  lemma InOrderFire(fired: seq<Firing>, at: map<TimerId, Timespec>, now: int, used: set<TimerId>,
                    t: TimerId, later: int)
    requires InOrder(fired, at, now, used) && now <= later
    requires t in at && at.Keys <= used && Nanos(at[t]) <= later
    requires forall x :: x in at ==> Nanos(at[t]) <= Nanos(at[x])
    ensures InOrder(fired + [Firing(t, Nanos(at[t]), later)], at - {t}, later, used)
  {
  }

  lemma PunctualStep(l: Loop, e: LoopEvent)
    requires Punctual(l) && Possible(l, e)
    ensures Punctual(Moved(l, e))
  {
    match e
    case AddTimer(t, delay, now) =>
      StampNormal(now, delay);
      AddedConsistent(l.q, t, After(Stamp(now), delay));
      InOrderAdd(l.fired, l.q.at, l.now, l.used, t, After(Stamp(now), delay), now);
    case DestroyTimer(t, now) =>
      DestroyedConsistent(l.q, t);
      InOrderRemove(l.fired, l.q.at, l.now, l.used, t, now);
    case TimerReadable(now) =>
      DispatchedConsistent(l.q);
      if l.q.next.Some? {
        InOrderFire(l.fired, l.q.at, l.now, l.used, l.q.next.value, now);
      }
  }

  ghost predicate LoopRun(ls: seq<Loop>, es: seq<LoopEvent>) {
    && |ls| == |es| + 1
    && (exists fd :: ls[0].q == QueueState(fd, [], map[], None, None)) && ls[0].now > 0
    && ls[0].fired == [] && ls[0].used == {}
    && forall i :: 0 <= i < |es| ==> LoopStep(ls[i], es[i], ls[i + 1])
  }

  ghost predicate LoopStep(l: Loop, e: LoopEvent, m: Loop) {
    Possible(l, e) && (Live(l.q) && l.q.at.Keys <= l.used ==> m == Moved(l, e))
  }

  lemma {:induction false} TimersEveryRun(ls: seq<Loop>, es: seq<LoopEvent>, i: nat)
    requires LoopRun(ls, es) && i <= |es|
    ensures Punctual(ls[i])
  {
    if i > 0 {
      TimersEveryRun(ls, es, i - 1);
      assert LoopStep(ls[i - 1], es[i - 1], ls[i]);
      PunctualStep(ls[i - 1], es[i - 1]);
    }
  }

  /** The timer was added, to expire at that instant: the clock reading plus the delay. */
  ghost predicate AddedFor(es: seq<LoopEvent>, t: TimerId, deadline: int) {
    exists j :: 0 <= j < |es| && es[j].AddTimer? && es[j].timer == t && deadline == es[j].now + es[j].delayNs
  }

  ghost predicate WasAdded(es: seq<LoopEvent>, t: TimerId) {
    exists j :: 0 <= j < |es| && es[j].AddTimer? && es[j].timer == t
  }

  ghost predicate WasDestroyed(es: seq<LoopEvent>, t: TimerId) {
    exists j :: 0 <= j < |es| && es[j].DestroyTimer? && es[j].timer == t
  }

  ghost predicate HasFired(fired: seq<Firing>, t: TimerId) {
    exists k :: 0 <= k < |fired| && fired[k].timer == t
  }

  /** A timer that was ever added is pending, has had its callback or was destroyed, and only one of
      these; and its deadline is the clock when it was added plus its delay. */
  ghost predicate Accounted(l: Loop, es: seq<LoopEvent>, t: TimerId) {
    && (t in l.used <==> WasAdded(es, t))
    && (t in l.q.at <==> t in l.used && !HasFired(l.fired, t) && !WasDestroyed(es, t))
    && !(HasFired(l.fired, t) && WasDestroyed(es, t))
    && (HasFired(l.fired, t) || WasDestroyed(es, t) ==> t in l.used)
    && (t in l.q.at ==> AddedFor(es, t, Nanos(l.q.at[t])))
    && (forall k :: 0 <= k < |l.fired| && l.fired[k].timer == t ==> AddedFor(es, t, l.fired[k].deadline))
  }

  lemma HistorySnoc(es: seq<LoopEvent>, e: LoopEvent, t: TimerId)
    ensures WasAdded(es + [e], t) <==> WasAdded(es, t) || (e.AddTimer? && e.timer == t)
    ensures WasDestroyed(es + [e], t) <==> WasDestroyed(es, t) || (e.DestroyTimer? && e.timer == t)
  {
    var xs := es + [e];
    assert xs[|es|] == e;
    if j :| 0 <= j < |es| && es[j].AddTimer? && es[j].timer == t {
      assert xs[j] == es[j];
    }
    if j :| 0 <= j < |es| && es[j].DestroyTimer? && es[j].timer == t {
      assert xs[j] == es[j];
    }
  }

  lemma AddedForSnoc(es: seq<LoopEvent>, e: LoopEvent, t: TimerId, deadline: int)
    ensures AddedFor(es, t, deadline) ==> AddedFor(es + [e], t, deadline)
    ensures e.AddTimer? && e.timer == t && deadline == e.now + e.delayNs ==> AddedFor(es + [e], t, deadline)
  {
    var xs := es + [e];
    assert xs[|es|] == e;
    if AddedFor(es, t, deadline) {
      var j :| 0 <= j < |es| && es[j].AddTimer? && es[j].timer == t && deadline == es[j].now + es[j].delayNs;
      assert xs[j] == es[j];
    }
  }

  lemma FiredSnoc(fired: seq<Firing>, f: Firing, t: TimerId)
    ensures HasFired(fired + [f], t) <==> HasFired(fired, t) || f.timer == t
  {
    var more := fired + [f];
    assert more[|fired|] == f;
    if k :| 0 <= k < |fired| && fired[k].timer == t {
      assert more[k] == fired[k];
    }
  }

  /** What a step does to the pending timers and the callbacks. */
  lemma MovedAt(l: Loop, e: LoopEvent)
    requires Punctual(l) && Possible(l, e)
    ensures var m := Moved(l, e);
      match e
      case AddTimer(t, delay, now) =>
        m.q.at == l.q.at[t := After(Stamp(now), delay)] && Nanos(After(Stamp(now), delay)) == now + delay &&
        m.used == l.used + {t} && m.fired == l.fired
      case DestroyTimer(t, _) => m.q.at == l.q.at - {t} && m.used == l.used && m.fired == l.fired
      case TimerReadable(now) =>
        m.used == l.used &&
        if l.q.next.None? then m.q.at == l.q.at && m.fired == l.fired
        else l.q.next.value in l.q.at && m.q.at == l.q.at - {l.q.next.value} &&
             m.fired == l.fired + [Firing(l.q.next.value, Nanos(l.q.at[l.q.next.value]), now)]
  {
    match e
    case AddTimer(t, delay, now) =>
      StampNormal(now, delay);
      AddedConsistent(l.q, t, After(Stamp(now), delay));
    case DestroyTimer(t, now) => DestroyedConsistent(l.q, t);
    case TimerReadable(now) => DispatchedConsistent(l.q);
  }

  lemma AccountedAdd(l: Loop, es: seq<LoopEvent>, e: LoopEvent, t: TimerId)
    requires Punctual(l) && Possible(l, e) && Accounted(l, es, t) && !e.TimerReadable?
    ensures Accounted(Moved(l, e), es + [e], t)
  {
    var m := Moved(l, e);
    MovedAt(l, e);
    HistorySnoc(es, e, t);
    if t in m.q.at {
      AddedForSnoc(es, e, t, Nanos(m.q.at[t]));
    }
    forall k | 0 <= k < |m.fired| && m.fired[k].timer == t ensures AddedFor(es + [e], t, m.fired[k].deadline) {
      AddedForSnoc(es, e, t, l.fired[k].deadline);
    }
  }

  lemma AccountedFire(l: Loop, es: seq<LoopEvent>, e: LoopEvent, t: TimerId)
    requires Punctual(l) && Possible(l, e) && Accounted(l, es, t) && e.TimerReadable?
    ensures Accounted(Moved(l, e), es + [e], t)
  {
    var m := Moved(l, e);
    MovedAt(l, e);
    HistorySnoc(es, e, t);
    if l.q.next.Some? {
      FiredSnoc(l.fired, Firing(l.q.next.value, Nanos(l.q.at[l.q.next.value]), e.now), t);
    }
    if t in l.q.at {
      AddedForSnoc(es, e, t, Nanos(l.q.at[t]));
    }
    forall k | 0 <= k < |m.fired| && m.fired[k].timer == t ensures AddedFor(es + [e], t, m.fired[k].deadline) {
      if k < |l.fired| {
        AddedForSnoc(es, e, t, l.fired[k].deadline);
      }
    }
  }

  /** In every run, for every timer. */
  lemma {:induction false} TimersAreAccounted(ls: seq<Loop>, es: seq<LoopEvent>, i: nat, t: TimerId)
    requires LoopRun(ls, es) && i <= |es|
    ensures Accounted(ls[i], es[..i], t)
  {
    if i > 0 {
      var l, e := ls[i - 1], es[i - 1];
      TimersAreAccounted(ls, es, i - 1, t);
      TimersEveryRun(ls, es, i - 1);
      assert LoopStep(l, e, ls[i]);
      assert es[..i] == es[..i - 1] + [e];
      if e.TimerReadable? {
        AccountedFire(l, es[..i - 1], e, t);
      } else {
        AccountedAdd(l, es[..i - 1], e, t);
      }
    }
  }
}
