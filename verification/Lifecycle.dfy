/** Sessions, screencast instances and outputs: who points at whom, reference counts, and the
    mutually recursive destructors. A freed object loses its entry in the maps, so every lookup
    is a proof that nothing dangles. */
module Lifecycle {
  import opened Common
  import WlList

  type SessionId(==, !new)
  type InstanceId = WlList.Link   // an instance is found by its link in the list
  type OutputId(==, !new)
  type TimerId(==, !new)

  /** exec_before and exec_after. */
  datatype Hook = Before | After

  datatype Portal = Portal(
    sessions: seq<SessionId>,                                // xdpw_sessions, head first
    instanceOf: Table<SessionId, Option<InstanceId>>,        // of every live session
    instances: seq<InstanceId>,                              // screencast_instances
    refcount: Table<InstanceId, int>,                        // of every live instance
    target: Table<InstanceId, Option<OutputId>>,             // None for a window
    timers: seq<TimerId>,
    timerData: Table<TimerId, InstanceId>,
    outputs: set<OutputId>,
    hooks: seq<Hook>)

  // ----- what the destructors do, on values -----

  function Keep<T(==)>(s: seq<T>, keep: set<T>): seq<T> {
    if s == [] then [] else (if s[0] in keep then [s[0]] else []) + Keep(s[1..], keep)
  }

  function Restrict<K(==), V>(t: Table<K, V>, keep: set<K>): Table<K, V> {
    Table(map k | k in t.at && k in keep :: t.at[k])
  }

  /** The sessions that do not point at i. */
  function Others(p: Portal, i: InstanceId): set<SessionId> {
    set s | s in p.instanceOf.at && p.instanceOf.at[s] != Some(i)
  }

  function OtherTimers(p: Portal, i: InstanceId): set<TimerId> {
    set t | t in p.timerData.at && p.timerData.at[t] != i
  }

  /** The two loops of xdpw_screencast_instance_destroy: timers and sessions of i go. */
  function Cleared(p: Portal, i: InstanceId): Portal {
    p.(sessions := Keep(p.sessions, Others(p, i)),
       instanceOf := Restrict(p.instanceOf, Others(p, i)),
       timers := Keep(p.timers, OtherTimers(p, i)),
       timerData := Restrict(p.timerData, OtherTimers(p, i)),
       refcount := Table(p.refcount.at[i := 0]))
  }

  /** The rest of it: the hook after the last instance, and the instance itself. */
  function Freed(p: Portal, i: InstanceId): Portal {
    p.(instances := Without(p.instances, i),
       refcount := Table(p.refcount.at - {i}),
       target := Table(p.target.at - {i}),
       hooks := if |p.instances| == 1 then p.hooks + [After] else p.hooks)
  }

  function InstanceGone(p: Portal, i: InstanceId): Portal {
    Freed(Cleared(p, i), i)
  }

  function Unlinked(p: Portal, s: SessionId): Portal {
    p.(sessions := Without(p.sessions, s), instanceOf := Table(p.instanceOf.at - {s}))
  }

  function Dropped(p: Portal, i: InstanceId): Portal
    requires i in p.refcount.at
  {
    p.(refcount := Table(p.refcount.at[i := p.refcount.at[i] - 1]))
  }

  /** xdpw_session_destroy: the last session of an instance takes it along. */
  function SessionGone(p: Portal, s: SessionId): Portal
    requires s in p.instanceOf.at
    requires p.instanceOf.at[s].Some? ==> p.instanceOf.at[s].value in p.refcount.at
  {
    var u := Unlinked(p, s);
    match p.instanceOf.at[s]
    case None => u
    case Some(i) =>
      var d := Dropped(u, i);
      if d.refcount.at[i] < 1 then InstanceGone(d, i) else d
  }

  function SessionCreated(p: Portal, s: SessionId): Portal {
    p.(sessions := [s] + p.sessions, instanceOf := Table(p.instanceOf.at[s := None]))
  }

  /** setup_target: a session without an instance gets a new one. */
  function Selected(p: Portal, s: SessionId, i: InstanceId, output: Option<OutputId>): Portal
    requires s in p.instanceOf.at
  {
    if p.instanceOf.at[s].Some? then p
    else
      p.(instanceOf := Table(p.instanceOf.at[s := Some(i)]),
         instances := [i] + p.instances,
         refcount := Table(p.refcount.at[i := 1]),
         target := Table(p.target.at[i := output]),
         hooks := if p.instances == [] then p.hooks + [Before] else p.hooks)
  }

  function TimerAdded(p: Portal, t: TimerId, i: InstanceId): Portal {
    p.(timers := [t] + p.timers, timerData := Table(p.timerData.at[t := i]))
  }

  function TimerGone(p: Portal, t: TimerId): Portal {
    p.(timers := Without(p.timers, t), timerData := Table(p.timerData.at - {t}))
  }

  /** The instances of a list that capture a given output. */
  function On(list: seq<InstanceId>, target: Table<InstanceId, Option<OutputId>>, o: OutputId): seq<InstanceId> {
    if list == [] then []
    else (if list[0] in target.at && target.at[list[0]] == Some(o) then [list[0]] else []) + On(list[1..], target, o)
  }

  function AllGone(p: Portal, list: seq<InstanceId>): Portal
    decreases |list|
  {
    if list == [] then p else AllGone(InstanceGone(p, list[0]), list[1..])
  }

  function OutputRemoved(p: Portal, o: OutputId): Portal {
    var q := AllGone(p, On(p.instances, p.target, o));
    q.(outputs := q.outputs - {o})
  }

  // ----- the invariant -----

  /** How many sessions of a list point at i. */
  function References(sessions: seq<SessionId>, instanceOf: Table<SessionId, Option<InstanceId>>, i: InstanceId): nat {
    if sessions == [] then 0
    else
      (if sessions[0] in instanceOf.at && instanceOf.at[sessions[0]] == Some(i) then 1 else 0) +
        References(sessions[1..], instanceOf, i)
  }

  /** Lists and live objects agree, and no pointer dangles. */
  ghost predicate Sound(p: Portal) {
    && NoDup(p.sessions) && NoDup(p.instances) && NoDup(p.timers)
    && (forall s :: s in p.sessions <==> s in p.instanceOf.at)
    && (forall i :: i in p.instances <==> i in p.refcount.at)
    && p.target.at.Keys == p.refcount.at.Keys
    && (forall t :: t in p.timers <==> t in p.timerData.at)
    && (forall s :: s in p.instanceOf.at && p.instanceOf.at[s].Some? ==> p.instanceOf.at[s].value in p.refcount.at)
    && (forall t :: t in p.timerData.at ==> p.timerData.at[t] in p.refcount.at)
    && (forall i :: i in p.target.at && p.target.at[i].Some? ==> p.target.at[i].value in p.outputs)
  }

  ghost predicate Counted(p: Portal, i: InstanceId) {
    i in p.refcount.at ==> p.refcount.at[i] == References(p.sessions, p.instanceOf, i)
  }

  /** Hooks alternate, starting with the one before; the last is unanswered while an instance lives. */
  ghost predicate Alternating(p: Portal) {
    && (forall k :: 0 <= k < |p.hooks| ==> p.hooks[k] == if k % 2 == 0 then Before else After)
    && (|p.hooks| % 2 == 1 <==> p.instances != [])
  }

  ghost predicate Consistent(p: Portal) {
    && Sound(p) && Alternating(p)
    && (forall i :: i in p.refcount.at ==> Counted(p, i) && p.refcount.at[i] >= 1)
  }

  // ----- lists and counts -----

  lemma {:induction false} KeepMembers<T>(s: seq<T>, keep: set<T>)
    requires NoDup(s)
    ensures NoDup(Keep(s, keep))
    ensures forall x :: x in Keep(s, keep) <==> x in s && x in keep
  {
    if s != [] {
      assert s == [s[0]] + s[1..];
      assert NoDup(s[1..]) && s[0] !in s[1..];
      KeepMembers(s[1..], keep);
    }
  }

  lemma {:induction false} ReferencesSame(s: seq<SessionId>, t: Table<SessionId, Option<InstanceId>>,
                                          u: Table<SessionId, Option<InstanceId>>, i: InstanceId)
    requires forall x :: x in s ==> (x in t.at && t.at[x] == Some(i) <==> x in u.at && u.at[x] == Some(i))
    ensures References(s, t, i) == References(s, u, i)
  {
    if s != [] {
      assert s[0] in s;
      ReferencesSame(s[1..], t, u, i);
    }
  }

  lemma {:induction false} ReferencesKeep(s: seq<SessionId>, t: Table<SessionId, Option<InstanceId>>,
                                          keep: set<SessionId>, i: InstanceId)
    requires forall x :: x in s && x in t.at && t.at[x] == Some(i) ==> x in keep
    ensures References(Keep(s, keep), t, i) == References(s, t, i)
  {
    if s != [] {
      assert s[0] in s;
      ReferencesKeep(s[1..], t, keep, i);
      if s[0] in keep {
        assert Keep(s, keep)[1..] == Keep(s[1..], keep);
      } else {
        assert Keep(s, keep) == Keep(s[1..], keep);
      }
    }
  }

  lemma {:induction false} ReferencesWithout(s: seq<SessionId>, t: Table<SessionId, Option<InstanceId>>,
                                             x: SessionId, i: InstanceId)
    requires NoDup(s)
    ensures References(Without(s, x), t, i) ==
      References(s, t, i) - if x in s && x in t.at && t.at[x] == Some(i) then 1 else 0
  {
    if s != [] {
      assert s == [s[0]] + s[1..] && NoDup(s[1..]) && s[0] !in s[1..];
      ReferencesWithout(s[1..], t, x, i);
      if s[0] != x {
        assert Without(s, x)[1..] == Without(s[1..], x);
      }
    }
  }

  lemma {:induction false} ReferencesZero(s: seq<SessionId>, t: Table<SessionId, Option<InstanceId>>, i: InstanceId)
    ensures References(s, t, i) == 0 <==> forall x :: x in s && x in t.at ==> t.at[x] != Some(i)
  {
    if s != [] {
      assert s[0] in s;
      ReferencesZero(s[1..], t, i);
      assert s == [s[0]] + s[1..];
    }
  }

  lemma {:induction false} WithoutLength<T>(s: seq<T>, x: T)
    requires NoDup(s)
    ensures |Without(s, x)| == |s| - if x in s then 1 else 0
  {
    if s != [] {
      assert s == [s[0]] + s[1..] && NoDup(s[1..]) && s[0] !in s[1..];
      WithoutLength(s[1..], x);
    }
  }

  // ----- every operation keeps the invariant -----

  /** All but i are counted; i itself may be on its way out. */
  ghost predicate ConsistentBut(p: Portal, i: InstanceId) {
    && Sound(p) && Alternating(p) && i in p.refcount.at
    && (forall j :: j in p.refcount.at && j != i ==> Counted(p, j) && p.refcount.at[j] >= 1)
  }

  lemma InstanceGoneSound(p: Portal, i: InstanceId)
    requires Sound(p) && i in p.refcount.at
    ensures Sound(InstanceGone(p, i))
  {
    KeepMembers(p.sessions, Others(p, i));
    KeepMembers(p.timers, OtherTimers(p, i));
    WithoutMembers(p.instances, i);
  }

  lemma InstanceGoneCounts(p: Portal, i: InstanceId, j: InstanceId)
    requires Sound(p) && j != i && Counted(p, j)
    ensures Counted(InstanceGone(p, i), j)
  {
    var g := InstanceGone(p, i);
    KeepMembers(p.sessions, Others(p, i));
    ReferencesKeep(p.sessions, p.instanceOf, Others(p, i), j);
    ReferencesSame(g.sessions, p.instanceOf, g.instanceOf, j);
  }

  lemma InstanceGoneAlternates(p: Portal, i: InstanceId)
    requires Sound(p) && i in p.refcount.at && Alternating(p)
    ensures Alternating(InstanceGone(p, i))
  {
    WithoutLength(p.instances, i);
  }

  /** Two portals that may differ in their sessions alone. */
  ghost predicate SameBut(p: Portal, c: Portal, sessions: seq<SessionId>,
                          instanceOf: Table<SessionId, Option<InstanceId>>)
  {
    c == Portal(sessions, instanceOf, p.instances, p.refcount, p.target, p.timers, p.timerData, p.outputs, p.hooks)
  }

  /** What is still there is as it was: sessions point where they did, timers and instances keep theirs. */
  ghost predicate Survives(p: Portal, g: Portal) {
    && (forall s :: s in g.instanceOf.at ==> s in p.instanceOf.at && g.instanceOf.at[s] == p.instanceOf.at[s])
    && (forall t :: t in g.timerData.at ==> t in p.timerData.at && g.timerData.at[t] == p.timerData.at[t])
    && (forall i :: i in g.target.at ==> i in p.target.at && g.target.at[i] == p.target.at[i])
  }

  lemma OnlyInstance(p: Portal, i: InstanceId)
    requires Sound(p) && i in p.refcount.at
    ensures |p.instances| == 1 <==> p.instances == [i]
  {
    assert i in p.instances;
  }

  /** Destroying an instance leaves no session or timer that points at it, and all else as it was. */
  lemma InstanceGoneConsistent(p: Portal, i: InstanceId)
    requires ConsistentBut(p, i)
    ensures Consistent(InstanceGone(p, i))
    ensures forall s :: s in InstanceGone(p, i).instanceOf.at <==>
      s in p.instanceOf.at && p.instanceOf.at[s] != Some(i)
    ensures forall t :: t in InstanceGone(p, i).timerData.at <==>
      t in p.timerData.at && p.timerData.at[t] != i
  {
    InstanceGoneSound(p, i);
    InstanceGoneAlternates(p, i);
    forall j | j in InstanceGone(p, i).refcount.at ensures Counted(InstanceGone(p, i), j) {
      InstanceGoneCounts(p, i, j);
    }
  }

  lemma InstanceGoneSpares(p: Portal, i: InstanceId)
    requires Sound(p) && i in p.refcount.at
    ensures var g := InstanceGone(p, i);
      && Survives(p, g) && g.outputs == p.outputs
      && g.refcount.at == p.refcount.at - {i} && g.target.at == p.target.at - {i}
  {
  }

  /** The hook runs after the last instance. */
  lemma InstanceGoneHooks(p: Portal, i: InstanceId)
    requires Sound(p) && i in p.refcount.at
    ensures InstanceGone(p, i).instances == [] <==> p.instances == [i]
    ensures InstanceGone(p, i).hooks == p.hooks + if p.instances == [i] then [After] else []
  {
    WithoutLength(p.instances, i);
    OnlyInstance(p, i);
  }

  lemma UnlinkedSound(p: Portal, s: SessionId)
    requires Sound(p) && s in p.instanceOf.at
    ensures Sound(Unlinked(p, s))
  {
    WithoutMembers(p.sessions, s);
  }

  lemma UnlinkedReferences(p: Portal, s: SessionId, i: InstanceId)
    requires Sound(p) && s in p.instanceOf.at
    ensures References(Unlinked(p, s).sessions, Unlinked(p, s).instanceOf, i) ==
      References(p.sessions, p.instanceOf, i) - if p.instanceOf.at[s] == Some(i) then 1 else 0
  {
    var u := Unlinked(p, s);
    WithoutMembers(p.sessions, s);
    ReferencesWithout(p.sessions, p.instanceOf, s, i);
    ReferencesSame(u.sessions, p.instanceOf, u.instanceOf, i);
  }

  lemma UnlinkedCounts(p: Portal, s: SessionId)
    requires Consistent(p) && s in p.instanceOf.at
    ensures forall j :: j in p.refcount.at && p.instanceOf.at[s] != Some(j) ==> Counted(Unlinked(p, s), j)
    ensures p.instanceOf.at[s].Some? ==>
      Counted(Dropped(Unlinked(p, s), p.instanceOf.at[s].value), p.instanceOf.at[s].value)
  {
    forall j | j in p.refcount.at
      ensures p.refcount.at[j] - (if p.instanceOf.at[s] == Some(j) then 1 else 0) ==
        References(Unlinked(p, s).sessions, Unlinked(p, s).instanceOf, j)
    {
      assert Counted(p, j);
      UnlinkedReferences(p, s, j);
    }
  }

  lemma DroppedConsistentBut(p: Portal, s: SessionId, i: InstanceId)
    requires Consistent(p) && s in p.instanceOf.at && p.instanceOf.at[s] == Some(i)
    ensures ConsistentBut(Dropped(Unlinked(p, s), i), i) && Counted(Dropped(Unlinked(p, s), i), i)
    ensures p.refcount.at[i] > 0
  {
    UnlinkedSound(p, s);
    UnlinkedCounts(p, s);
    assert Counted(p, i);
    var u, d := Unlinked(p, s), Dropped(Unlinked(p, s), i);
    forall j | j in d.refcount.at && j != i ensures Counted(d, j) && d.refcount.at[j] >= 1 {
      assert Counted(p, j) && Counted(u, j);
    }
  }

  /** A session may be destroyed at any time: if it was the last to point at its instance, that
      instance goes too, and the count that triggers this is never already zero. */
  lemma SessionGoneConsistent(p: Portal, s: SessionId)
    requires Consistent(p) && s in p.instanceOf.at
    ensures Consistent(SessionGone(p, s))
    ensures p.instanceOf.at[s].Some? ==> p.refcount.at[p.instanceOf.at[s].value] > 0
  {
    if p.instanceOf.at[s].Some? {
      var i := p.instanceOf.at[s].value;
      DroppedConsistentBut(p, s, i);
      if p.refcount.at[i] - 1 < 1 {
        InstanceGoneConsistent(Dropped(Unlinked(p, s), i), i);
      }
    } else {
      UnlinkedSound(p, s);
      UnlinkedCounts(p, s);
      forall j | j in p.refcount.at ensures p.refcount.at[j] >= 1 {
        assert Counted(p, j);
      }
    }
  }

  /** Exactly what closing a session does: it goes, the others stay and keep their instances; the
      count of its instance drops by one, and if it was 1 that instance goes with its timers, and
      after the last instance the hook runs. */
  lemma SessionGoneExactly(p: Portal, s: SessionId)
    requires Consistent(p) && s in p.instanceOf.at
    ensures var g, cast := SessionGone(p, s), p.instanceOf.at[s];
      && g.instanceOf.at == p.instanceOf.at - {s}
      && (forall i :: i in g.refcount.at <==> i in p.refcount.at && !(cast == Some(i) && p.refcount.at[i] == 1))
      && (forall i :: i in g.refcount.at ==>
            g.refcount.at[i] == p.refcount.at[i] - (if cast == Some(i) then 1 else 0))
      && (forall t :: t in g.timerData.at <==> t in p.timerData.at && p.timerData.at[t] in g.refcount.at)
      && Survives(p, g) && g.outputs == p.outputs
      && g.hooks == p.hooks + if p.instances != [] && g.instances == [] then [After] else []
  {
    SessionGoneConsistent(p, s);
    var g := SessionGone(p, s);
    if p.instanceOf.at[s].Some? {
      var i := p.instanceOf.at[s].value;
      DroppedConsistentBut(p, s, i);
      var d := Dropped(Unlinked(p, s), i);
      assert Counted(p, i);
      if d.refcount.at[i] < 1 {
        InstanceGoneConsistent(d, i);
        NoOtherReference(d, i);
        assert g.instanceOf.at == p.instanceOf.at - {s};
        InstanceGoneSpares(d, i);
        InstanceGoneHooks(d, i);
      } else {
        assert p.hooks + [] == p.hooks;
      }
    } else {
      assert p.hooks + [] == p.hooks;
    }
  }

  lemma NoOtherReference(d: Portal, i: InstanceId)
    requires Sound(d) && i in d.refcount.at && Counted(d, i) && d.refcount.at[i] < 1
    ensures forall x :: x in d.instanceOf.at ==> d.instanceOf.at[x] != Some(i)
  {
    ReferencesZero(d.sessions, d.instanceOf, i);
  }

  lemma SessionCreatedConsistent(p: Portal, s: SessionId)
    requires Consistent(p) && s !in p.instanceOf.at
    ensures Consistent(SessionCreated(p, s))
    ensures var c := SessionCreated(p, s);
      s in c.sessions && c.instanceOf.at == p.instanceOf.at[s := None] && SameBut(p, c, c.sessions, c.instanceOf)
  {
    var c := SessionCreated(p, s);
    forall j | j in p.refcount.at ensures Counted(c, j) {
      assert Counted(p, j);
      assert c.sessions[1..] == p.sessions;
      ReferencesSame(p.sessions, p.instanceOf, c.instanceOf, j);
    }
  }

  lemma SelectedCounts(p: Portal, s: SessionId, i: InstanceId, output: Option<OutputId>, j: InstanceId)
    requires Consistent(p) && s in p.instanceOf.at && p.instanceOf.at[s].None? && i !in p.refcount.at
    requires j == i || j in p.refcount.at
    ensures Counted(Selected(p, s, i, output), j) && Selected(p, s, i, output).refcount.at[j] >= 1
  {
    var c := Selected(p, s, i, output);
    if j != i {
      assert Counted(p, j);
      ReferencesSame(p.sessions, p.instanceOf, c.instanceOf, j);
    } else {
      OneReference(p.sessions, p.instanceOf, c.instanceOf, s, i);
    }
  }

  lemma SelectedConsistent(p: Portal, s: SessionId, i: InstanceId, output: Option<OutputId>)
    requires Consistent(p) && s in p.instanceOf.at && i !in p.refcount.at
    requires output.Some? ==> output.value in p.outputs
    ensures Consistent(Selected(p, s, i, output))
    ensures var c := Selected(p, s, i, output);
      if p.instanceOf.at[s].Some? then c == p
      else
        && c.instanceOf.at == p.instanceOf.at[s := Some(i)] && c.refcount.at == p.refcount.at[i := 1]
        && c.target.at == p.target.at[i := output] && c.instances == [i] + p.instances
        && c.sessions == p.sessions && c.timerData == p.timerData && c.outputs == p.outputs
        && c.hooks == p.hooks + if p.instances == [] then [Before] else []
  {
    var c := Selected(p, s, i, output);
    assert p.hooks + [] == p.hooks;
    if p.instanceOf.at[s].None? {
      assert Sound(c);
      assert Alternating(c);
      forall j | j in c.refcount.at ensures Counted(c, j) && c.refcount.at[j] >= 1 {
        SelectedCounts(p, s, i, output, j);
      }
    }
  }

  lemma OneReference(sessions: seq<SessionId>, t: Table<SessionId, Option<InstanceId>>,
                     u: Table<SessionId, Option<InstanceId>>, s: SessionId, i: InstanceId)
    requires NoDup(sessions) && s in sessions
    requires forall x :: x in t.at ==> t.at[x] != Some(i)
    requires u.at == t.at[s := Some(i)]
    ensures References(sessions, u, i) == 1
  {
    ReferencesWithout(sessions, u, s, i);
    WithoutMembers(sessions, s);
    ReferencesZero(Without(sessions, s), u, i);
  }

  lemma TimerAddedConsistent(p: Portal, t: TimerId, i: InstanceId)
    requires Consistent(p) && t !in p.timerData.at && i in p.refcount.at
    ensures Consistent(TimerAdded(p, t, i)) && TimerAdded(p, t, i).timerData.at == p.timerData.at[t := i]
  {
    assert forall j :: j in p.refcount.at ==> Counted(p, j);
  }

  lemma TimerGoneConsistent(p: Portal, t: TimerId)
    requires Consistent(p) && t in p.timerData.at
    ensures Consistent(TimerGone(p, t)) && TimerGone(p, t).timerData.at == p.timerData.at - {t}
  {
    WithoutMembers(p.timers, t);
    assert forall j :: j in p.refcount.at ==> Counted(p, j);
  }

  // ----- removing an output -----

  lemma {:induction false} OnMembers(list: seq<InstanceId>, target: Table<InstanceId, Option<OutputId>>, o: OutputId)
    requires NoDup(list)
    ensures NoDup(On(list, target, o))
    ensures forall x :: x in On(list, target, o) <==> x in list && x in target.at && target.at[x] == Some(o)
  {
    if list != [] {
      assert list == [list[0]] + list[1..];
      assert NoDup(list[1..]) && list[0] !in list[1..];
      OnMembers(list[1..], target, o);
    }
  }

  lemma {:induction false} AllGoneConsistent(p: Portal, list: seq<InstanceId>)
    requires Consistent(p) && NoDup(list) && forall x :: x in list ==> x in p.refcount.at
    ensures var g := AllGone(p, list);
      && Consistent(g) && g.outputs == p.outputs
      && (forall x :: x in g.refcount.at <==> x in p.refcount.at && x !in list)
      && (forall s :: s in g.instanceOf.at <==>
            s in p.instanceOf.at && (p.instanceOf.at[s].Some? ==> p.instanceOf.at[s].value !in list))
    decreases |list|
  {
    if list != [] {
      assert list == [list[0]] + list[1..];
      assert NoDup(list[1..]) && list[0] !in list[1..];
      assert list[0] in list;
      assert ConsistentBut(p, list[0]);
      InstanceGoneConsistent(p, list[0]);
      AllGoneConsistent(InstanceGone(p, list[0]), list[1..]);
    }
  }

  /** The other instances keep their counts and timers. */
  lemma {:induction false} AllGoneSpares(p: Portal, list: seq<InstanceId>)
    requires Consistent(p) && NoDup(list) && forall x :: x in list ==> x in p.refcount.at
    ensures var g := AllGone(p, list);
      && Survives(p, g)
      && (forall x :: x in g.refcount.at ==> x in p.refcount.at && g.refcount.at[x] == p.refcount.at[x])
      && (forall t :: t in g.timerData.at <==> t in p.timerData.at && p.timerData.at[t] !in list)
    decreases |list|
  {
    if list != [] {
      assert list == [list[0]] + list[1..];
      assert NoDup(list[1..]) && list[0] !in list[1..] && list[0] in list;
      InstanceGoneConsistent(p, list[0]);
      InstanceGoneSpares(p, list[0]);
      AllGoneSpares(InstanceGone(p, list[0]), list[1..]);
    }
  }

  /** And the hook runs once the last one is gone. */
  lemma {:induction false} AllGoneHooks(p: Portal, list: seq<InstanceId>)
    requires Consistent(p) && NoDup(list) && forall x :: x in list ==> x in p.refcount.at
    ensures AllGone(p, list).hooks ==
      p.hooks + if p.instances != [] && AllGone(p, list).instances == [] then [After] else []
    decreases |list|
  {
    assert p.hooks + [] == p.hooks;
    if list != [] {
      assert list == [list[0]] + list[1..];
      assert NoDup(list[1..]) && list[0] !in list[1..] && list[0] in list && list[0] in p.instances;
      InstanceGoneConsistent(p, list[0]);
      InstanceGoneSpares(p, list[0]);
      InstanceGoneHooks(p, list[0]);
      AllGoneHooks(InstanceGone(p, list[0]), list[1..]);
      NothingGone(InstanceGone(p, list[0]), list[1..]);
    }
  }

  lemma NothingGone(q: Portal, list: seq<InstanceId>)
    requires Sound(q) && forall x :: x in list ==> x in q.refcount.at
    ensures q.instances == [] ==> AllGone(q, list).instances == []
  {
    assert |list| > 0 ==> list[0] in list && list[0] in q.instances;
  }

  /** Removing an output destroys exactly the instances that capture it, with their sessions, so
      no instance is left with a target that does not exist. */
  lemma OutputRemovedConsistent(p: Portal, o: OutputId)
    requires Consistent(p)
    ensures var g := OutputRemoved(p, o);
      && Consistent(g) && g.outputs == p.outputs - {o} && Survives(p, g)
      && g.hooks == p.hooks + (if p.instances != [] && g.instances == [] then [After] else [])
      && (forall i :: i in g.refcount.at ==> g.refcount.at[i] == p.refcount.at[i])
      && (forall t :: t in g.timerData.at <==> t in p.timerData.at && p.target.at[p.timerData.at[t]] != Some(o))
      && (forall i :: i in g.refcount.at <==> i in p.refcount.at && p.target.at[i] != Some(o))
      && (forall s :: s in g.instanceOf.at <==>
            s in p.instanceOf.at &&
            (p.instanceOf.at[s].Some? ==> p.target.at[p.instanceOf.at[s].value] != Some(o)))
  {
    OnMembers(p.instances, p.target, o);
    AllGoneConsistent(p, On(p.instances, p.target, o));
    AllGoneSpares(p, On(p.instances, p.target, o));
    AllGoneHooks(p, On(p.instances, p.target, o));
    var q := AllGone(p, On(p.instances, p.target, o));
    var g := OutputRemoved(p, o);
    forall j | j in g.refcount.at ensures Counted(g, j) {
      assert Counted(q, j);
    }
  }

  // ----- the destructors, as the source has them -----

  lemma {:induction false} WithoutAt<T>(s: seq<T>, k: nat)
    requires NoDup(s) && k < |s|
    ensures Without(s, s[k]) == s[..k] + s[k + 1..]
  {
    if k == 0 {
      WithoutAbsent(s[1..], s[0]);
    } else {
      assert NoDup(s[1..]) && s[0] != s[k] && s[1..][k - 1] == s[k];
      WithoutAt(s[1..], k - 1);
      assert [s[0]] + (s[1..][..k - 1] + s[1..][k..]) == s[..k] + s[k + 1..];
    }
  }

  lemma {:induction false} WithoutAbsent<T>(s: seq<T>, x: T)
    requires x !in s
    ensures Without(s, x) == s
  {
    if s != [] {
      assert s[0] in s;
      WithoutAbsent(s[1..], x);
    }
  }

  lemma {:induction false} KeepWithout<T>(s: seq<T>, x: T, keep: set<T>)
    requires x !in keep
    ensures Keep(Without(s, x), keep) == Keep(s, keep)
  {
    if s != [] {
      KeepWithout(s[1..], x, keep);
      if s[0] != x {
        assert Without(s, x)[0] == s[0] && Without(s, x)[1..] == Without(s[1..], x);
      }
    }
  }

  lemma {:induction false} KeepAll<T>(s: seq<T>, keep: set<T>)
    requires forall k :: 0 <= k < |s| ==> s[k] in keep
    ensures Keep(s, keep) == s
  {
    if s != [] {
      KeepAll(s[1..], keep);
    }
  }

  /** Unlinking the k-th element of a list while walking it leaves those before it in place. */
  lemma UnlinkAt<T>(s: seq<T>, k: nat, keep: set<T>)
    requires NoDup(s) && k < |s| && s[k] !in keep
    ensures var w := Without(s, s[k]);
      && NoDup(w) && |w| == |s| - 1 && Keep(w, keep) == Keep(s, keep)
      && (forall m :: 0 <= m < k ==> w[m] == s[m])
      && (forall x :: x in w <==> x in s && x != s[k])
  {
    WithoutAt(s, k);
    WithoutMembers(s, s[k]);
    KeepWithout(s, s[k], keep);
  }

  lemma {:induction false} NoneOn(list: seq<InstanceId>, target: Table<InstanceId, Option<OutputId>>, o: OutputId)
    requires forall m :: 0 <= m < |list| ==> list[m] in target.at ==> target.at[list[m]] != Some(o)
    ensures On(list, target, o) == []
  {
    if list != [] {
      NoneOn(list[1..], target, o);
    }
  }

  lemma {:induction false} OnSkip(list: seq<InstanceId>, k: nat, target: Table<InstanceId, Option<OutputId>>,
                                  o: OutputId)
    requires k <= |list|
    requires forall m :: 0 <= m < k ==> list[m] in target.at ==> target.at[list[m]] != Some(o)
    ensures On(list, target, o) == On(list[k..], target, o)
  {
    if k > 0 {
      OnSkip(list[1..], k - 1, target, o);
      assert list[1..][k - 1..] == list[k..];
    } else {
      assert list[0..] == list;
    }
  }

  lemma {:induction false} OnSame(list: seq<InstanceId>, t: Table<InstanceId, Option<OutputId>>,
                                  u: Table<InstanceId, Option<OutputId>>, o: OutputId)
    requires forall m :: 0 <= m < |list| ==>
      (list[m] in t.at && t.at[list[m]] == Some(o) <==> list[m] in u.at && u.at[list[m]] == Some(o))
    ensures On(list, t, o) == On(list, u, o)
  {
    if list != [] {
      OnSame(list[1..], t, u, o);
    }
  }

  /** Destroying the instance the removal loop stands on leaves the rest of its work unchanged. */
  lemma NextOn(p: Portal, k: nat, o: OutputId)
    requires NoDup(p.instances) && k < |p.instances|
    requires forall m :: 0 <= m < k ==> p.instances[m] in p.target.at ==> p.target.at[p.instances[m]] != Some(o)
    requires p.instances[k] in p.target.at && p.target.at[p.instances[k]] == Some(o)
    ensures var g := InstanceGone(p, p.instances[k]);
      AllGone(p, On(p.instances, p.target, o)) == AllGone(g, On(g.instances, g.target, o))
  {
    var list, x := p.instances, p.instances[k];
    var g := InstanceGone(p, x);
    OnSkip(list, k, p.target, o);
    assert list[k..][0] == x && list[k..][1..] == list[k + 1..];
    WithoutAt(list, k);
    assert g.instances == list[..k] + list[k + 1..];
    OnSkip(g.instances, k, g.target, o);
    assert g.instances[k..] == list[k + 1..];
    OnSame(list[k + 1..], p.target, g.target, o);
    assert On(list, p.target, o) == [x] + On(list[k + 1..], p.target, o);
  }

  /** A destructor's loop over a list and the table behind it: the first k elements stay, and what
      has gone so far was not to be kept. */
  ghost predicate Sweeping<K(!new), V>(list: seq<K>, table: map<K, V>, all: seq<K>, data: map<K, V>,
                                       keep: set<K>, k: nat)
  {
    && k <= |list| && NoDup(list) && Keep(list, keep) == Keep(all, keep)
    && (forall m :: 0 <= m < k ==> list[m] in keep)
    && (forall x :: x in list <==> x in table)
    && (forall x :: x in table ==> x in data && table[x] == data[x])
    && (forall x :: x in data && x !in table ==> x !in keep)
  }

  lemma SweepAt<K(!new), V>(list: seq<K>, table: map<K, V>, all: seq<K>, data: map<K, V>, keep: set<K>, k: nat)
    requires Sweeping(list, table, all, data, keep, k) && k < |list|
    ensures list[k] in table && list[k] in data && table[list[k]] == data[list[k]]
    ensures list[k] in list
  {
    assert list[k] in list;
  }

  lemma SweepUnlink<K(!new), V>(list: seq<K>, table: map<K, V>, all: seq<K>, data: map<K, V>, keep: set<K>, k: nat)
    requires Sweeping(list, table, all, data, keep, k) && k < |list| && list[k] !in keep
    ensures list[k] in table
    ensures Sweeping(Without(list, list[k]), table - {list[k]}, all, data, keep, k)
    ensures |Without(list, list[k])| == |list| - 1 && list[k] !in Without(list, list[k])
  {
    assert list[k] in list;
    UnlinkAt(list, k, keep);
  }

  lemma SweepKeep<K(!new), V>(list: seq<K>, table: map<K, V>, all: seq<K>, data: map<K, V>, keep: set<K>, k: nat)
    requires Sweeping(list, table, all, data, keep, k) && k < |list| && list[k] in keep
    ensures Sweeping(list, table, all, data, keep, k + 1)
  {
  }

  lemma SweepDone<K(!new), V>(list: seq<K>, table: map<K, V>, all: seq<K>, data: map<K, V>, keep: set<K>)
    requires Sweeping(list, table, all, data, keep, |list|)
    ensures list == Keep(all, keep)
    ensures Table(table) == Restrict(Table(data), keep)
  {
    KeepAll(list, keep);
    forall x | x in table ensures x in keep {
      assert x in list;
    }
    assert table == Restrict(Table(data), keep).at;
  }

  /** What the instance's destructor relies on: its loops find every timer and session that points
      at i, and the reference count is the number of the latter. */
  ghost predicate Destructible(p: Portal, i: InstanceId) {
    && NoDup(p.timers) && (forall t :: t in p.timers <==> t in p.timerData.at)
    && NoDup(p.sessions) && (forall s :: s in p.sessions <==> s in p.instanceOf.at)
    && i in p.refcount.at && i in p.instances && Counted(p, i)
  }

  /** What the session's destructor relies on: its assertion on the count holds, and the instance
      it may have to destroy is destructible by then. */
  ghost predicate Closable(p: Portal, s: SessionId) {
    && s in p.instanceOf.at
    && (p.instanceOf.at[s].Some? ==>
         var i := p.instanceOf.at[s].value;
         i in p.refcount.at && p.refcount.at[i] > 0 && Destructible(Dropped(Unlinked(p, s), i), i))
  }

  lemma ConsistentIsClosable(p: Portal, s: SessionId)
    requires Consistent(p) && s in p.instanceOf.at
    ensures Closable(p, s)
  {
    if p.instanceOf.at[s].Some? {
      DroppedConsistentBut(p, s, p.instanceOf.at[s].value);
    }
  }

  /** Whatever is closed, stopped or removed next, the assertions of the destructors hold. */
  ghost predicate AllDestructible(p: Portal) {
    && (forall s :: s in p.instanceOf.at ==> Closable(p, s))
    && (forall i :: i in p.refcount.at ==> Destructible(p, i))
  }

  lemma DestructorsAreSafe(p: Portal)
    requires Consistent(p)
    ensures AllDestructible(p)
  {
    forall s | s in p.instanceOf.at ensures Closable(p, s) {
      ConsistentIsClosable(p, s);
    }
  }

  /** The removal loop at position k of the list, having started from p: no earlier instance is on
      the output, and what remains to be done is what is left of the whole job. */
  ghost predicate Removing(p: Portal, now: Portal, k: nat, o: OutputId) {
    && Consistent(now) && k <= |now.instances|
    && (forall m :: 0 <= m < k ==> now.instances[m] in now.target.at ==> now.target.at[now.instances[m]] != Some(o))
    && AllGone(now, On(now.instances, now.target, o)) == AllGone(p, On(p.instances, p.target, o))
  }

  lemma RemovingHit(p: Portal, now: Portal, k: nat, o: OutputId)
    requires Removing(p, now, k, o) && k < |now.instances|
    ensures now.instances[k] in now.target.at
    ensures now.target.at[now.instances[k]] == Some(o) ==>
      && Destructible(now, now.instances[k])
      && Removing(p, InstanceGone(now, now.instances[k]), k, o)
      && |InstanceGone(now, now.instances[k]).instances| == |now.instances| - 1
  {
    var x := now.instances[k];
    assert x in now.instances;
    if now.target.at[x] == Some(o) {
      assert Counted(now, x) && ConsistentBut(now, x);
      NextOn(now, k, o);
      InstanceGoneConsistent(now, x);
      WithoutAt(now.instances, k);
    }
  }

  lemma RemovingMiss(p: Portal, now: Portal, k: nat, o: OutputId)
    requires Removing(p, now, k, o) && k < |now.instances|
    requires now.instances[k] in now.target.at && now.target.at[now.instances[k]] != Some(o)
    ensures Removing(p, now, k + 1, o)
  {
  }

  lemma RemovingDone(p: Portal, now: Portal, o: OutputId)
    requires Removing(p, now, |now.instances|, o)
    ensures now == AllGone(p, On(p.instances, p.target, o))
  {
    NoneOn(now.instances, now.target, o);
  }

  lemma ReferencesAfterCut(sessions: seq<SessionId>, instanceOf: map<SessionId, Option<InstanceId>>,
                           s: SessionId, i: InstanceId)
    requires NoDup(sessions) && s in sessions && s in instanceOf && instanceOf[s] == Some(i)
    ensures References(Without(sessions, s), Table(instanceOf - {s}), i) ==
      References(sessions, Table(instanceOf), i) - 1
  {
    WithoutMembers(sessions, s);
    ReferencesWithout(sessions, Table(instanceOf), s, i);
    ReferencesSame(Without(sessions, s), Table(instanceOf), Table(instanceOf - {s}), i);
  }

  lemma NoReferencesLeft(list: seq<SessionId>, table: map<SessionId, Option<InstanceId>>, all: seq<SessionId>,
                         data: map<SessionId, Option<InstanceId>>, keep: set<SessionId>, i: InstanceId)
    requires Sweeping(list, table, all, data, keep, |list|)
    requires forall s :: s in data ==> (s in keep <==> data[s] != Some(i))
    ensures References(list, Table(table), i) == 0
  {
    ReferencesZero(list, Table(table), i);
    forall x | x in list ensures x in keep {
    }
  }

  class PortalState {
    var sessions: seq<SessionId>
    var instanceOf: map<SessionId, Option<InstanceId>>
    ghost var instances: seq<InstanceId>       // the members of the list whose links are in memory
    const memory: WlList.ListMemory
    const head: InstanceId                     // the list head; not an instance
    var refcount: map<InstanceId, int>
    var target: map<InstanceId, Option<OutputId>>
    var timers: seq<TimerId>
    var timerData: map<TimerId, InstanceId>
    var outputs: set<OutputId>
    var hooks: seq<Hook>

    ghost function View(): Portal
      reads this
    {
      Portal(sessions, Table(instanceOf), instances, Table(refcount), Table(target), timers, Table(timerData),
             outputs, hooks)
    }

    /** The links in memory are those of the instances. */
    ghost predicate Listed()
      reads `instances, memory
    {
      WlList.IsList(memory, head, instances)
    }

    constructor (listHead: InstanceId)
      ensures View() == Portal([], Table(map[]), [], Table(map[]), Table(map[]), [], Table(map[]), {}, [])
      ensures head == listHead && Listed() && fresh(memory)
    {
      sessions, instanceOf, instances, refcount, target := [], map[], [], map[], map[];
      timers, timerData, outputs, hooks := [], map[], {}, [];
      memory := new WlList.ListMemory();
      head := listHead;
      new;
      memory.Init(head);
      assert [head] + instances == [head];
    }

    method DestroyTimer(t: TimerId)
      modifies `timers, `timerData
      ensures timers == Without(old(timers), t) && timerData == old(timerData) - {t}
    {
      timers := Without(timers, t);
      timerData := timerData - {t};
    }

    /** The first loop of the instance's destructor; keep are the timers of other instances. */
    method DestroyTimersOf(i: InstanceId, ghost keep: set<TimerId>)
      requires NoDup(timers) && forall t :: t in timers <==> t in timerData
      requires forall t :: t in timerData ==> (t in keep <==> timerData[t] != i)
      modifies `timers, `timerData
      ensures timers == Keep(old(timers), keep)
      ensures Table(timerData) == Restrict(Table(old(timerData)), keep)
    {
      ghost var all, data := timers, timerData;
      var k := 0;
      while k < |timers|
        invariant Sweeping(timers, timerData, all, data, keep, k)
        decreases |timers| - k
      {
        var t := timers[k];
        SweepAt(timers, timerData, all, data, keep, k);
        if timerData[t] == i {
          SweepUnlink(timers, timerData, all, data, keep, k);
          DestroyTimer(t);
        } else {
          SweepKeep(timers, timerData, all, data, keep, k);
          k := k + 1;
        }
      }
      SweepDone(timers, timerData, all, data, keep);
    }

    /** One turn of the second loop: the session is unlinked, cut loose and destroyed. */
    method CutLoose(s: SessionId, i: InstanceId)
      requires s !in Without(sessions, s) && s in instanceOf && i in refcount && Listed()
      modifies `sessions, `instanceOf, `refcount
      ensures sessions == Without(old(sessions), s)
      ensures instanceOf == old(instanceOf) - {s}
      ensures refcount == old(refcount)[i := old(refcount)[i] - 1]
      decreases 1, 0
    {
      sessions := Without(sessions, s);
      WithoutAbsent(sessions, s);
      instanceOf := instanceOf[s := None];
      refcount := refcount[i := refcount[i] - 1];
      SessionDestroy(s);
    }

    /** The second loop's body at position k; it returns the position to go on from. */
    method VisitSession(k: nat, i: InstanceId, ghost all: seq<SessionId>,
                        ghost data: map<SessionId, Option<InstanceId>>, ghost keep: set<SessionId>)
      returns (next: nat)
      requires k < |sessions| && Sweeping(sessions, instanceOf, all, data, keep, k)
      requires forall s :: s in data ==> (s in keep <==> data[s] != Some(i))
      requires i in refcount && refcount[i] == References(sessions, Table(instanceOf), i) && Listed()
      modifies `sessions, `instanceOf, `refcount
      ensures Sweeping(sessions, instanceOf, all, data, keep, next)
      ensures refcount == old(refcount)[i := References(sessions, Table(instanceOf), i)]
      ensures |sessions| - next < |old(sessions)| - k
      decreases 1, 1
    {
      var s := sessions[k];
      SweepAt(sessions, instanceOf, all, data, keep, k);
      if instanceOf[s] == Some(i) {
        SweepUnlink(sessions, instanceOf, all, data, keep, k);
        ReferencesAfterCut(sessions, instanceOf, s, i);
        CutLoose(s, i);
        next := k;
      } else {
        SweepKeep(sessions, instanceOf, all, data, keep, k);
        next := k + 1;
      }
    }

    /** The second loop of the instance's destructor; keep are the sessions of other instances. */
    method DestroySessionsOf(i: InstanceId, ghost keep: set<SessionId>)
      requires NoDup(sessions) && (forall s :: s in sessions <==> s in instanceOf) && i in refcount
      requires forall s :: s in instanceOf ==> (s in keep <==> instanceOf[s] != Some(i))
      requires refcount[i] == References(sessions, Table(instanceOf), i) && Listed()
      modifies `sessions, `instanceOf, `refcount
      ensures sessions == Keep(old(sessions), keep)
      ensures Table(instanceOf) == Restrict(Table(old(instanceOf)), keep)
      ensures refcount == old(refcount)[i := 0]
      decreases 1, 2
    {
      ghost var all, data := sessions, instanceOf;
      var k: nat := 0;
      while k < |sessions|
        invariant Sweeping(sessions, instanceOf, all, data, keep, k)
        invariant refcount == old(refcount)[i := References(sessions, Table(instanceOf), i)]
        decreases |sessions| - k
      {
        k := VisitSession(k, i, all, data, keep);
      }
      SweepDone(sessions, instanceOf, all, data, keep);
      NoReferencesLeft(sessions, instanceOf, all, data, keep, i);
    }

    method Clear(i: InstanceId)
      requires Destructible(View(), i) && Listed()
      modifies `timers, `timerData, `sessions, `instanceOf, `refcount
      ensures View() == Cleared(old(View()), i)
      decreases 1, 3
    {
      ghost var p := View();
      DestroyTimersOf(i, OtherTimers(p, i));
      DestroySessionsOf(i, Others(p, i));
    }

    method Free(i: InstanceId)
      requires Listed() && i in instances
      modifies `instances, `refcount, `target, `hooks, memory
      ensures View() == Freed(old(View()), i) && Listed()
    {
      ghost var k :| 0 <= k < |instances| && instances[k] == i;
      WlList.NextLink(memory, head, instances, k);
      var length := WlList.LengthFromMember(memory, i, head, instances, k);
      if length == 1 {
        hooks := hooks + [After];
      }
      WlList.RemoveMember(memory, i, head, instances, k);
      WithoutAt(instances, k);
      instances := Without(instances, i);
      refcount := refcount - {i};
      target := target - {i};
    }

    method InstanceDestroy(i: InstanceId)
      requires Destructible(View(), i) && Listed()
      modifies this, memory
      ensures View() == InstanceGone(old(View()), i) && Listed()
      decreases 1, 4
    {
      Clear(i);
      assert refcount[i] == 0;
      Free(i);
    }

    method SessionDestroy(s: SessionId)
      requires Closable(View(), s) && Listed()
      modifies `sessions, `instanceOf, if instanceOf[s].Some? then {this, memory} else {}
      ensures View() == SessionGone(old(View()), s) && Listed()
      decreases if instanceOf[s].Some? then 2 else 0, 0
    {
      ghost var p := View();
      sessions := Without(sessions, s);
      var cast := instanceOf[s];
      instanceOf := instanceOf - {s};
      if cast.Some? {
        assert refcount[cast.value] > 0;
        refcount := refcount[cast.value := refcount[cast.value] - 1];
        assert View() == Dropped(Unlinked(p, s), cast.value);
        if refcount[cast.value] < 1 {
          InstanceDestroy(cast.value);
        }
      }
    }

    method SessionCreate(s: SessionId)
      requires Consistent(View()) && s !in instanceOf
      modifies `sessions, `instanceOf
      ensures View() == SessionCreated(old(View()), s) && Consistent(View())
      ensures sessions == [s] + old(sessions) && instanceOf == old(instanceOf)[s := None]
    {
      SessionCreatedConsistent(View(), s);
      sessions := [s] + sessions;
      instanceOf := instanceOf[s := None];
    }

    /** xdpw_screencast_instance_init. */
    method InstanceInit(i: InstanceId, output: Option<OutputId>)
      requires Listed() && i != head && i !in instances
      modifies `instances, `refcount, `target, `hooks, memory
      ensures Listed() && instances == [i] + old(instances)
      ensures refcount == old(refcount)[i := 1] && target == old(target)[i := output]
      ensures hooks == if old(instances) == [] then old(hooks) + [Before] else old(hooks)
    {
      var empty := memory.Empty(head, [head] + instances);
      if empty {
        hooks := hooks + [Before];
      }
      refcount := refcount[i := 1];
      target := target[i := output];
      WlList.InsertMember(memory, head, i, instances);
      instances := [i] + instances;
    }

    method SetupTarget(s: SessionId, i: InstanceId, output: Option<OutputId>)
      requires Consistent(View()) && Listed() && s in instanceOf && i !in refcount && i != head
      requires output.Some? ==> output.value in outputs
      modifies this, memory
      ensures View() == Selected(old(View()), s, i, output) && Consistent(View()) && Listed()
    {
      SelectedConsistent(View(), s, i, output);
      if instanceOf[s].None? {
        instanceOf := instanceOf[s := Some(i)];
        InstanceInit(i, output);
      }
    }

    /** The removal loop's body for the instance at position k; next is where the loop goes on from. */
    method VisitInstance(cast: InstanceId, o: OutputId, ghost k: nat, ghost p: Portal) returns (ghost next: nat)
      requires k < |instances| && instances[k] == cast && Removing(p, View(), k, o) && Listed()
      modifies this, memory
      ensures Removing(p, View(), next, o) && Listed()
      ensures |instances| - next < |old(instances)| - k
      ensures WlList.LinkAt(head, instances, next) == WlList.LinkAt(head, old(instances), k + 1)
    {
      RemovingHit(p, View(), k, o);
      if target[cast] == Some(o) {
        next := k;
        WithoutAt(instances, k);
        InstanceDestroy(cast);
      } else {
        RemovingMiss(p, View(), k, o);
        next := k + 1;
      }
    }

    /** The registry's removal handler: each successor is read before the instance is visited. */
    method HandleOutputRemoved(o: OutputId)
      requires Consistent(View()) && Listed()
      modifies this, memory
      ensures View() == OutputRemoved(old(View()), o) && Listed()
    {
      ghost var p := View();
      WlList.NextLink(memory, head, instances, 0);
      var pos := memory.next[head];
      ghost var k: nat := 0;
      while pos != head
        invariant Removing(p, View(), k, o) && Listed()
        invariant pos == WlList.LinkAt(head, instances, k)
        decreases |instances| - k
      {
        WlList.NextLink(memory, head, instances, k);
        var following := memory.next[pos];
        k := VisitInstance(pos, o, k, p);
        pos := following;
      }
      WlList.NextLink(memory, head, instances, k);
      assert k == |instances|;
      RemovingDone(p, View(), o);
      outputs := outputs - {o};
    }
  }

  // ----- every run -----

  datatype PortalEvent =
    | CreateSession(session: SessionId)
    | SelectSources(session: SessionId, instance: InstanceId, monitor: Option<OutputId>)
    | CloseSession(session: SessionId)
    | StopInstance(instance: InstanceId)   // stopped or failed capture, unusable buffer
    | DelayCapture(timer: TimerId, instance: InstanceId)
    | TimerFired(timer: TimerId)
    | OutputAdded(output: OutputId)
    | OutputGone(output: OutputId)

  /** New objects are new, and requests name objects that exist. */
  predicate Possible(p: Portal, e: PortalEvent) {
    match e
    case CreateSession(s) => s !in p.instanceOf.at
    case SelectSources(s, i, output) =>
      s in p.instanceOf.at && i !in p.refcount.at && (output.Some? ==> output.value in p.outputs)
    case CloseSession(s) => s in p.instanceOf.at
    case StopInstance(i) => i in p.refcount.at
    case DelayCapture(t, i) => t !in p.timerData.at && i in p.refcount.at
    case TimerFired(t) => t in p.timerData.at
    case OutputAdded(o) => o !in p.outputs
    case OutputGone(o) => true
  }

  function Handled(p: Portal, e: PortalEvent): Portal
    requires Possible(p, e)
    requires e.CloseSession? && p.instanceOf.at[e.session].Some? ==> p.instanceOf.at[e.session].value in p.refcount.at
  {
    match e
    case CreateSession(s) => SessionCreated(p, s)
    case SelectSources(s, i, output) => Selected(p, s, i, output)
    case CloseSession(s) => SessionGone(p, s)
    case StopInstance(i) => InstanceGone(p, i)
    case DelayCapture(t, i) => TimerAdded(p, t, i)
    case TimerFired(t) => TimerGone(p, t)
    case OutputAdded(o) => p.(outputs := p.outputs + {o})
    case OutputGone(o) => OutputRemoved(p, o)
  }

  lemma OutputAddedConsistent(p: Portal, o: OutputId)
    requires Consistent(p)
    ensures Consistent(p.(outputs := p.outputs + {o}))
  {
    assert forall j :: j in p.refcount.at ==> Counted(p, j);
  }

  lemma HandledConsistent(p: Portal, e: PortalEvent)
    requires Consistent(p) && Possible(p, e)
    ensures Consistent(Handled(p, e))
  {
    match e
    case CreateSession(s) => SessionCreatedConsistent(p, s);
    case SelectSources(s, i, output) => SelectedConsistent(p, s, i, output);
    case CloseSession(s) => SessionGoneConsistent(p, s);
    case StopInstance(i) => InstanceGoneConsistent(p, i);
    case DelayCapture(t, i) => TimerAddedConsistent(p, t, i);
    case TimerFired(t) => TimerGoneConsistent(p, t);
    case OutputAdded(o) => OutputAddedConsistent(p, o);
    case OutputGone(o) => OutputRemovedConsistent(p, o);
  }

  /** A step that would follow a dangling pointer may end anywhere. */
  ghost predicate StepTo(p: Portal, e: PortalEvent, q: Portal) {
    && Possible(p, e)
    && ((e.CloseSession? && p.instanceOf.at[e.session].Some? ==> p.instanceOf.at[e.session].value in p.refcount.at)
        ==> q == Handled(p, e))
  }

  ghost predicate PortalRun(ps: seq<Portal>, es: seq<PortalEvent>) {
    && |ps| == |es| + 1
    && ps[0] == Portal([], Table(map[]), [], Table(map[]), Table(map[]), [], Table(map[]), {}, [])
    && forall k :: 0 <= k < |es| ==> StepTo(ps[k], es[k], ps[k + 1])
  }

  function Times(hooks: seq<Hook>, h: Hook): nat {
    if hooks == [] then 0 else Times(hooks[..|hooks| - 1], h) + if hooks[|hooks| - 1] == h then 1 else 0
  }

  lemma {:induction false} TimesAlternate(hooks: seq<Hook>)
    requires forall k :: 0 <= k < |hooks| ==> hooks[k] == if k % 2 == 0 then Before else After
    ensures Times(hooks, Before) - Times(hooks, After) == |hooks| % 2
  {
    if hooks != [] {
      TimesAlternate(hooks[..|hooks| - 1]);
    }
  }

  /** Through any interleaving of requests, closures, output changes and failures: each reference
      count is positive and equals the number of sessions that point at the instance, nothing
      points at a destroyed object, and the hooks alternate, with one more before than after
      exactly while an instance is live. At every moment each destructor may be called and its
      assertions hold. */
  lemma {:induction false} PortalEveryRun(ps: seq<Portal>, es: seq<PortalEvent>, k: nat)
    requires PortalRun(ps, es) && k <= |es|
    ensures Consistent(ps[k])
    ensures AllDestructible(ps[k])
    ensures Times(ps[k].hooks, Before) - Times(ps[k].hooks, After) == if ps[k].instances != [] then 1 else 0
  {
    if k > 0 {
      PortalEveryRun(ps, es, k - 1);
      assert StepTo(ps[k - 1], es[k - 1], ps[k]);
      HandledConsistent(ps[k - 1], es[k - 1]);
    }
    DestructorsAreSafe(ps[k]);
    TimesAlternate(ps[k].hooks);
  }
}
