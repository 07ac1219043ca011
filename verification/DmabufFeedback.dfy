/** Collecting format and modifier pairs from linux-dmabuf-unstable-v1,
    interface zwp_linux_dmabuf_feedback_v1. */
module DmabufFeedback {
  import opened Common
  import Constraints

  type Pair = Constraints.Pair

  datatype FeedbackEvent =
    | FormatTable(mapped: Option<seq<Pair>>)   // the table, or None if it could not be mapped
    | TargetDevice(found: bool, used: bool)    // used: it is the renderer's, or a new one was opened
    | TrancheFormats(indices: seq<nat>)
    | TrancheDone
    | FeedbackDone

  datatype FeedbackState = FeedbackState(pairs: seq<Pair>, deviceUsed: bool, table: Option<seq<Pair>>)

  /** The table entries named by those indices that lie inside the table. */
  function Select(table: seq<Pair>, indices: seq<nat>): seq<Pair> {
    if indices == [] then []
    else (if indices[0] < |table| then [table[indices[0]]] else []) + Select(table, indices[1..])
  }

  function Handled(s: FeedbackState, e: FeedbackEvent): FeedbackState {
    match e
    case FormatTable(mapped) => s.(pairs := [], table := mapped)
    case TargetDevice(found, used) => if found then s.(deviceUsed := used) else s
    case TrancheFormats(indices) =>
      if !s.deviceUsed || s.table.None? then s
      else s.(pairs := AddAbsent(s.pairs, Select(s.table.value, indices)))
    case TrancheDone => s.(deviceUsed := false)
    case FeedbackDone => s.(table := None)
  }

  class FeedbackContext {
    var formatModifierPairs: seq<Pair>
    var deviceUsed: bool
    var formatTable: Option<seq<Pair>>

    ghost function View(): FeedbackState
      reads this
    {
      FeedbackState(formatModifierPairs, deviceUsed, formatTable)
    }

    constructor ()
      ensures View() == FeedbackState([], false, None)
    {
      formatModifierPairs, deviceUsed, formatTable := [], false, None;
    }

    /** wlr_format_modifier_pair_add. */
    method PairAdd(pair: Pair)
      modifies `formatModifierPairs
      ensures formatModifierPairs == AddAbsent(old(formatModifierPairs), [pair])
    {
      for i := 0 to |formatModifierPairs|
        invariant formatModifierPairs == old(formatModifierPairs)
        invariant forall j :: 0 <= j < i ==> formatModifierPairs[j] != pair
      {
        if formatModifierPairs[i].fourcc == pair.fourcc && formatModifierPairs[i].modifier == pair.modifier {
          return;
        }
      }
      formatModifierPairs := formatModifierPairs + [pair];
    }

    method HandleTrancheFormats(indices: seq<nat>)
      modifies `formatModifierPairs
      ensures View() == Handled(old(View()), TrancheFormats(indices))
    {
      if !deviceUsed || formatTable.None? {
        return;
      }
      var table := formatTable.value;
      assert indices[0..] == indices;
      for i := 0 to |indices|
        invariant AddAbsent(formatModifierPairs, Select(table, indices[i..])) ==
          AddAbsent(old(formatModifierPairs), Select(table, indices))
      {
        assert indices[i..][0] == indices[i] && indices[i..][1..] == indices[i + 1..];
        if indices[i] < |table| {
          assert Select(table, indices[i..])[1..] == Select(table, indices[i + 1..]);
          PairAdd(table[indices[i]]);
        } else {
          assert Select(table, indices[i..]) == Select(table, indices[i + 1..]);
        }
      }
    }

    method HandleFormatTable(mapped: Option<seq<Pair>>)
      modifies this
      ensures View() == Handled(old(View()), FormatTable(mapped))
    {
      formatModifierPairs := [];
      formatTable := mapped;
    }

    method HandleTargetDevice(found: bool, used: bool)
      modifies `deviceUsed
      ensures View() == Handled(old(View()), TargetDevice(found, used))
    {
      if !found {
        return;
      }
      deviceUsed := used;
    }

    method HandleTrancheDone()
      modifies `deviceUsed
      ensures View() == Handled(old(View()), TrancheDone)
    {
      deviceUsed := false;
    }

    method HandleDone()
      modifies `formatTable
      ensures View() == Handled(old(View()), FeedbackDone)
    {
      formatTable := None;
    }
  }

  // ----- whole event streams -----

  function After(es: seq<FeedbackEvent>): FeedbackState {
    if es == [] then FeedbackState([], false, None)
    else Handled(After(es[..|es| - 1]), es[|es| - 1])
  }

  /** Before event k, the table in force is the one announced by event j. */
  ghost predicate TableInForce(es: seq<FeedbackEvent>, k: nat, j: nat) {
    && j < k <= |es| && es[j].FormatTable? && es[j].mapped.Some?
    && forall m :: j < m < k ==> !es[m].FormatTable? && !es[m].FeedbackDone?
  }

  /** Before event k, event j has put the tranche on the used device. */
  ghost predicate DeviceInUse(es: seq<FeedbackEvent>, k: nat, j: nat) {
    && j < k <= |es| && es[j] == TargetDevice(true, true)
    && forall m :: j < m < k ==> !es[m].TrancheDone? && !(es[m].TargetDevice? && es[m].found)
  }

  lemma {:induction false} TableIsInForce(es: seq<FeedbackEvent>)
    ensures forall j: nat :: TableInForce(es, |es|, j) ==> After(es).table == es[j].mapped
    ensures After(es).table.Some? ==> exists j: nat :: TableInForce(es, |es|, j)
  {
    if es != [] {
      var n := |es| - 1;
      var before := es[..n];
      TableIsInForce(before);
      if After(es).table.Some? {
        if es[n].FormatTable? {
          assert TableInForce(es, |es|, n);
        } else {
          var j: nat :| TableInForce(before, n, j);
          assert TableInForce(es, |es|, j);
        }
      }
      forall j: nat | TableInForce(es, |es|, j) ensures After(es).table == es[j].mapped {
        assert j < n ==> TableInForce(before, n, j);
      }
    }
  }

  lemma {:induction false} DeviceIsInUse(es: seq<FeedbackEvent>)
    ensures After(es).deviceUsed <==> exists j: nat :: DeviceInUse(es, |es|, j)
  {
    if es != [] {
      var n := |es| - 1;
      var before := es[..n];
      DeviceIsInUse(before);
      if After(es).deviceUsed {
        if es[n].TargetDevice? && es[n].found {
          assert DeviceInUse(es, |es|, n);
        } else {
          var j: nat :| DeviceInUse(before, n, j);
          assert DeviceInUse(es, |es|, j);
        }
      }
      if j: nat :| DeviceInUse(es, |es|, j) {
        assert j < n ==> DeviceInUse(before, n, j);
      }
    }
  }

  /** What event k adds: the entries its in-range indices name, if its tranche counts. */
  function NamedBy(es: seq<FeedbackEvent>, k: nat): seq<Pair>
    requires k < |es|
  {
    var s := After(es[..k]);
    if es[k].TrancheFormats? && s.deviceUsed && s.table.Some? then Select(s.table.value, es[k].indices) else []
  }

  /** The concatenation of the parts from the last reset before n on. */
  function Since(parts: seq<seq<Pair>>, resets: seq<bool>, n: nat): seq<Pair>
    requires n <= |parts| == |resets|
  {
    if n == 0 || resets[n - 1] then [] else Since(parts, resets, n - 1) + parts[n - 1]
  }

  function Parts(es: seq<FeedbackEvent>): seq<seq<Pair>> {
    seq(|es|, k requires 0 <= k < |es| => NamedBy(es, k))
  }

  function Tables(es: seq<FeedbackEvent>): seq<bool> {
    seq(|es|, k requires 0 <= k < |es| => es[k].FormatTable?)
  }

  /** All entries named since the last format table, in order. */
  function NamedSince(es: seq<FeedbackEvent>, n: nat): seq<Pair>
    requires n <= |es|
  {
    Since(Parts(es), Tables(es), n)
  }

  /** The pair list is duplicate-free and lists, in first-occurrence order, the table entries named
      since the last format table. */
  lemma {:induction false} PairsAreNamed(es: seq<FeedbackEvent>, k: nat)
    requires k <= |es|
    ensures After(es[..k]).pairs == Dedup(NamedSince(es, k))
    ensures NoDup(After(es[..k]).pairs)
  {
    DedupMembers(NamedSince(es, k));
    if k > 0 {
      assert es[..k][..k - 1] == es[..k - 1];
      PairsAreNamed(es, k - 1);
      if es[k - 1].TrancheFormats? {
        AddAbsentDedup(NamedSince(es, k - 1), NamedBy(es, k - 1));
      } else {
        assert NamedSince(es, k - 1) + [] == NamedSince(es, k - 1);
      }
      assert NamedSince(es, k - 1) + [] == NamedSince(es, k - 1);
    }
  }

  /** Of two listed pairs, the one listed first is the one that was named first. */
  lemma PairsInOrder(es: seq<FeedbackEvent>, k: nat, i: nat, j: nat, a: nat, b: nat)
    requires k <= |es| && i < j < |After(es[..k]).pairs|
    requires FirstAt(NamedSince(es, k), a, After(es[..k]).pairs[i])
    requires FirstAt(NamedSince(es, k), b, After(es[..k]).pairs[j])
    ensures a < b
  {
    PairsAreNamed(es, k);
    DedupOrder(NamedSince(es, k), a, b, i, j);
  }

  lemma {:induction false} SelectMembers(table: seq<Pair>, indices: seq<nat>, p: Pair)
    ensures p in Select(table, indices) <==>
      exists i :: 0 <= i < |indices| && indices[i] < |table| && table[indices[i]] == p
  {
    if indices != [] {
      SelectMembers(table, indices[1..], p);
      if i :| 0 <= i < |indices| && indices[i] < |table| && table[indices[i]] == p {
        assert i > 0 ==> indices[1..][i - 1] == indices[i];
      }
      if i :| 0 <= i < |indices[1..]| && indices[1..][i] < |table| && table[indices[1..][i]] == p {
        assert indices[i + 1] == indices[1..][i];
      }
    }
  }

  /** The entries are selected in the order of the indices; those outside the table add nothing. */
  lemma {:induction false} SelectInOrder(table: seq<Pair>, indices: seq<nat>, i: nat)
    requires i < |indices|
    ensures Select(table, indices[..0]) == []
    ensures Select(table, indices[..i + 1]) ==
      Select(table, indices[..i]) + if indices[i] < |table| then [table[indices[i]]] else []
  {
    var a, b := indices[..i + 1], indices[..i];
    if i > 0 {
      SelectInOrder(table, indices[1..], i - 1);
      assert a[1..] == indices[1..][..i] && b[1..] == indices[1..][..i - 1];
      assert a[0] == b[0] == indices[0] && indices[1..][i - 1] == indices[i];
    } else {
      assert a[1..] == [] && b == [];
    }
  }

  lemma {:induction false} SinceSound(parts: seq<seq<Pair>>, resets: seq<bool>, n: nat, p: Pair) returns (k: nat)
    requires n <= |parts| == |resets| && p in Since(parts, resets, n)
    ensures k < n && p in parts[k] && forall m :: k <= m < n ==> !resets[m]
  {
    if p in parts[n - 1] {
      k := n - 1;
    } else {
      k := SinceSound(parts, resets, n - 1, p);
    }
  }

  lemma {:induction false} SinceComplete(parts: seq<seq<Pair>>, resets: seq<bool>, n: nat, p: Pair, k: nat)
    requires k < n <= |parts| == |resets| && p in parts[k] && forall m :: k <= m < n ==> !resets[m]
    ensures p in Since(parts, resets, n)
  {
    if k < n - 1 {
      SinceComplete(parts, resets, n - 1, p, k);
    }
  }

  /** No format table has arrived from event k on. */
  ghost predicate NoTableFrom(es: seq<FeedbackEvent>, k: nat) {
    k < |es| && forall m :: k <= m < |es| ==> !es[m].FormatTable?
  }

  /** Event k names p: a tranche on the used device, while the table of event t is in force. */
  ghost predicate Names(es: seq<FeedbackEvent>, k: nat, p: Pair) {
    && k < |es| && es[k].TrancheFormats?
    && (exists d: nat :: DeviceInUse(es, k, d))
    && exists t: nat, i ::
         && TableInForce(es, k, t)
         && 0 <= i < |es[k].indices| && es[k].indices[i] < |es[t].mapped.value|
         && es[t].mapped.value[es[k].indices[i]] == p
  }

  lemma NamedByIffNames(es: seq<FeedbackEvent>, k: nat, p: Pair)
    requires k < |es|
    ensures p in NamedBy(es, k) <==> Names(es, k, p)
  {
    var before := es[..k];
    TableIsInForce(before);
    DeviceIsInUse(before);
    forall j: nat ensures TableInForce(before, k, j) <==> TableInForce(es, k, j) {
    }
    forall j: nat ensures DeviceInUse(before, k, j) <==> DeviceInUse(es, k, j) {
    }
    var s := After(before);
    if es[k].TrancheFormats? && s.table.Some? {
      SelectMembers(s.table.value, es[k].indices, p);
      if s.deviceUsed {
        var t: nat :| TableInForce(before, k, t);
        assert TableInForce(es, k, t) && es[t].mapped == s.table;
      }
    }
  }

  /** Exactly the entries named since the last format table are known, for every event stream. */
  lemma PairIffNamed(es: seq<FeedbackEvent>, p: Pair)
    ensures p in After(es).pairs <==> exists k: nat :: Names(es, k, p) && NoTableFrom(es, k)
  {
    assert es[..|es|] == es;
    PairsAreNamed(es, |es|);
    DedupMembers(NamedSince(es, |es|));
    if p in After(es).pairs {
      var k := SinceSound(Parts(es), Tables(es), |es|, p);
      assert forall m :: k <= m < |es| ==> Tables(es)[m] == es[m].FormatTable?;
      NamedByIffNames(es, k, p);
      assert NoTableFrom(es, k);
    }
    if k: nat :| Names(es, k, p) && NoTableFrom(es, k) {
      NamedByIffNames(es, k, p);
      SinceComplete(Parts(es), Tables(es), |es|, p, k);
    }
  }
}
