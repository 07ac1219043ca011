/** libwayland's circular intrusive lists, as the portal uses them: a ring of links through the
    list head and its members. libwayland itself is not part of this model; its four operations
    are written out here because the portal takes lengths from members and removes links twice. */
module WlList {
  import opened Common

  type Link(==, !new)

  function Succ(i: nat, n: nat): nat {
    if i + 1 == n then 0 else i + 1
  }

  /** The i-th link of the ring and the one after it point to each other. */
  ghost predicate Linked(next: map<Link, Link>, prev: map<Link, Link>, ring: seq<Link>, i: nat)
    requires i < |ring|
  {
    var a, b := ring[i], ring[Succ(i, |ring|)];
    a in next && next[a] == b && b in prev && prev[b] == a
  }

  /** ring is a cycle of distinct links, in next order, with prev its inverse. */
  ghost predicate IsRing(next: map<Link, Link>, prev: map<Link, Link>, ring: seq<Link>) {
    && ring != [] && NoDup(ring)
    && forall i :: 0 <= i < |ring| ==> Linked(next, prev, ring, i)
  }

  function Turned(i: nat, k: nat, n: nat): nat {
    if i + k < n then i + k else i + k - n
  }

  /** A ring can be entered at any of its links. */
  lemma RingFrom(next: map<Link, Link>, prev: map<Link, Link>, ring: seq<Link>, k: nat)
    requires IsRing(next, prev, ring) && k < |ring|
    ensures IsRing(next, prev, ring[k..] + ring[..k])
  {
    var n := |ring|;
    var r := ring[k..] + ring[..k];
    forall i | 0 <= i < n ensures Linked(next, prev, r, i) {
      var j := Turned(i, k, n);
      assert Linked(next, prev, ring, j);
      assert r[i] == ring[j] && r[Succ(i, n)] == ring[Succ(j, n)];
    }
    forall i, j | 0 <= i < j < n ensures r[i] != r[j] {
      assert r[i] == ring[Turned(i, k, n)] && r[j] == ring[Turned(j, k, n)];
    }
  }

  class ListMemory {
    var next: map<Link, Link>
    var prev: map<Link, Link>

    constructor ()
      ensures next == map[] && prev == map[]
    {
      next, prev := map[], map[];
    }

    method Init(list: Link)
      modifies this
      ensures next == old(next)[list := list] && prev == old(prev)[list := list]
      ensures IsRing(next, prev, [list])
    {
      next, prev := next[list := list], prev[list := list];
    }

    method Empty(list: Link, ghost ring: seq<Link>) returns (empty: bool)
      requires IsRing(next, prev, ring) && ring[0] == list
      ensures empty <==> ring == [list]
    {
      assert Linked(next, prev, ring, 0);
      empty := next[list] == list;
    }

    /** Follows the links from list until it is back, counting the others on the way. */
    method Length(list: Link, ghost ring: seq<Link>) returns (count: nat)
      requires IsRing(next, prev, ring) && ring[0] == list
      ensures count == |ring| - 1
    {
      count := 0;
      assert Linked(next, prev, ring, 0);
      var e := next[list];
      while e != list
        invariant count < |ring| && e == ring[Succ(count, |ring|)]
        decreases |ring| - count
      {
        assert Linked(next, prev, ring, count + 1);
        e := next[e];
        count := count + 1;
      }
    }

    method Insert(list: Link, elm: Link, ghost ring: seq<Link>)
      requires IsRing(next, prev, ring) && ring[0] == list && elm !in ring
      modifies this
      ensures IsRing(next, prev, [list, elm] + ring[1..])
      ensures forall x :: x !in ring && x != elm && x in old(next) ==> x in next && next[x] == old(next)[x]
      ensures forall x :: x !in ring && x != elm && x in old(prev) ==> x in prev && prev[x] == old(prev)[x]
    {
      assert Linked(next, prev, ring, 0);
      var after := next[list];
      prev := prev[elm := list];
      next := next[elm := after];
      next := next[list := elm];
      prev := prev[after := elm];
      InsertedRing(old(next), old(prev), ring, elm);
    }

    /** With the ring seen from the removed link: the others close up around it. On a link that is
        alone in its ring, removal changes no other link: removing again after Init is harmless. */
    method Remove(elm: Link, ghost ring: seq<Link>)
      requires IsRing(next, prev, ring) && ring[0] == elm
      modifies this
      ensures |ring| > 1 ==> IsRing(next, prev, ring[1..])
      ensures elm !in next && elm !in prev
      ensures forall x :: x !in ring && x in old(next) ==> x in next && next[x] == old(next)[x]
      ensures forall x :: x !in ring && x in old(prev) ==> x in prev && prev[x] == old(prev)[x]
      ensures |ring| == 1 ==> next == old(next) - {elm} && prev == old(prev) - {elm}
    {
      var n := |ring|;
      assert Linked(next, prev, ring, 0) && Linked(next, prev, ring, n - 1);
      var before, after := prev[elm], next[elm];
      next := next[before := after];
      prev := prev[after := before];
      next, prev := next - {elm}, prev - {elm};
      if n > 1 {
        RemovedRing(old(next), old(prev), ring);
      }
    }
  }

  lemma InsertedRing(next: map<Link, Link>, prev: map<Link, Link>, ring: seq<Link>, elm: Link)
    requires IsRing(next, prev, ring) && elm !in ring
    ensures IsRing(next[elm := ring[Succ(0, |ring|)]][ring[0] := elm],
                   prev[elm := ring[0]][ring[Succ(0, |ring|)] := elm], [ring[0], elm] + ring[1..])
  {
    var n := |ring|;
    var r := [ring[0], elm] + ring[1..];
    var next' := next[elm := ring[Succ(0, n)]][ring[0] := elm];
    var prev' := prev[elm := ring[0]][ring[Succ(0, n)] := elm];
    forall i | 0 <= i < n + 1 ensures Linked(next', prev', r, i) {
      if i >= 2 {
        assert Linked(next, prev, ring, i - 1);
        assert r[i] == ring[i - 1] && r[Succ(i, n + 1)] == ring[Succ(i - 1, n)];
      }
    }
  }

  lemma RemovedRing(next: map<Link, Link>, prev: map<Link, Link>, ring: seq<Link>)
    requires IsRing(next, prev, ring) && |ring| > 1
    ensures IsRing(next[ring[|ring| - 1] := ring[1]] - {ring[0]},
                   prev[ring[1] := ring[|ring| - 1]] - {ring[0]}, ring[1..])
  {
    var n := |ring|;
    var r := ring[1..];
    var next' := next[ring[n - 1] := ring[1]] - {ring[0]};
    var prev' := prev[ring[1] := ring[n - 1]] - {ring[0]};
    forall i | 0 <= i < n - 1 ensures Linked(next', prev', r, i) {
      assert Linked(next, prev, ring, i + 1);
    }
  }

  // ----- a list: its head and its members -----

  ghost predicate IsList(memory: ListMemory, head: Link, members: seq<Link>)
    reads memory
  {
    IsRing(memory.next, memory.prev, [head] + members)
  }

  /** The member at a position, and past the last one the head: where a traversal stops. */
  function LinkAt(head: Link, members: seq<Link>, k: nat): Link {
    if k < |members| then members[k] else head
  }

  /** One step of a traversal. */
  lemma NextLink(memory: ListMemory, head: Link, members: seq<Link>, k: nat)
    requires IsList(memory, head, members) && k <= |members|
    ensures head !in members && NoDup(members)
    ensures head in memory.next && memory.next[head] == LinkAt(head, members, 0)
    ensures k < |members| ==> members[k] in memory.next && memory.next[members[k]] == LinkAt(head, members, k + 1)
  {
    var ring := [head] + members;
    assert Linked(memory.next, memory.prev, ring, 0);
    assert Linked(memory.next, memory.prev, ring, k);
    assert ring[k] == if k == 0 then head else members[k - 1];
    forall i | 0 <= i < |members| ensures members[i] != head {
      assert ring[i + 1] == members[i] && ring[0] == head;
    }
    forall i, j | 0 <= i < j < |members| ensures members[i] != members[j] {
      assert ring[i + 1] == members[i] && ring[j + 1] == members[j];
    }
    if k < |members| {
      assert Linked(memory.next, memory.prev, ring, k + 1) && ring[k + 1] == members[k];
    }
  }

  /** Taken from a member, the length counts the head and the other members: it is the number of
      members, and 1 exactly for the only one. */
  method LengthFromMember(memory: ListMemory, member: Link, ghost head: Link, ghost members: seq<Link>, ghost k: nat)
    returns (count: nat)
    requires IsList(memory, head, members) && k < |members| && members[k] == member
    ensures count == |members|
    ensures count == 1 <==> members == [member]
  {
    ghost var ring := [head] + members;
    RingFrom(memory.next, memory.prev, ring, k + 1);
    count := memory.Length(member, ring[k + 1..] + ring[..k + 1]);
  }

  /** Removing a member leaves the list without it, wherever in the list it was. */
  method RemoveMember(memory: ListMemory, member: Link, ghost head: Link, ghost members: seq<Link>, ghost k: nat)
    requires IsList(memory, head, members) && k < |members| && members[k] == member
    modifies memory
    ensures IsList(memory, head, members[..k] + members[k + 1..])
  {
    ghost var ring := [head] + members;
    RingFrom(memory.next, memory.prev, ring, k + 1);
    ghost var turned := ring[k + 1..] + ring[..k + 1];
    memory.Remove(member, turned);
    ghost var rest := turned[1..];
    RingFrom(memory.next, memory.prev, rest, |members| - k - 1);
    assert rest[|members| - k - 1..] + rest[..|members| - k - 1] == [head] + (members[..k] + members[k + 1..]);
  }

  method InsertMember(memory: ListMemory, head: Link, elm: Link, ghost members: seq<Link>)
    requires IsList(memory, head, members) && elm != head && elm !in members
    modifies memory
    ensures IsList(memory, head, [elm] + members)
  {
    memory.Insert(head, elm, [head] + members);
    assert [head, elm] + ([head] + members)[1..] == [head] + ([elm] + members);
  }
}
