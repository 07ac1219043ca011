/** Damage rectangles: merging two, and squeezing a frame's list of them into the
    fixed number of regions a PipeWire buffer's metadata has room for. */
module Damage {

  const LIMIT := 0x1_0000_0000

  datatype Box = Box(x: nat, y: nat, width: nat, height: nat)

  /** A rectangle whose right and bottom edges are 32-bit values, so that the
      unsigned sums of the source do not wrap. */
  type Rect = b: Box | b.x + b.width < LIMIT && b.y + b.height < LIMIT
    witness Box(0, 0, 0, 0)

  const NOTHING: Rect := Box(0, 0, 0, 0)

  datatype Pixel = Pixel(x: int, y: int)

  predicate Inside(r: Box, p: Pixel) {
    r.x <= p.x < r.x + r.width && r.y <= p.y < r.y + r.height
  }

  predicate NonEmpty(r: Box) {
    r.width > 0 && r.height > 0
  }

  predicate Covered(rs: seq<Rect>, p: Pixel) {
    exists i :: 0 <= i < |rs| && Inside(rs[i], p)
  }

  ghost predicate Covers(big: seq<Rect>, small: seq<Rect>) {
    forall p :: Covered(small, p) ==> Covered(big, p)
  }

  function Min(a: nat, b: nat): nat { if a < b then a else b }

  function Max(a: nat, b: nat): nat { if a < b then b else a }

  /** AsWritten is the shipped merge_damage, which compares damage1->x with damage2->y;
      Intended takes the minimum of the two left edges, as the next line does for y. */
  datatype MergeRule = AsWritten | Intended

  function LeftEdge(rule: MergeRule, a: Rect, b: Rect): nat {
    match rule
    case AsWritten => if a.x < b.y then a.x else b.x
    case Intended => if a.x < b.x then a.x else b.x
  }

  function Merge(rule: MergeRule, a: Rect, b: Rect): Rect {
    var x := LeftEdge(rule, a, b);
    var y := if a.y < b.y then a.y else b.y;
    var x0 := if a.x + a.width < b.x + b.width then b.x + b.width else a.x + a.width;
    var y0 := if a.y + a.height < b.y + b.height then b.y + b.height else a.y + a.height;
    Box(x, y, x0 - x, y0 - y)
  }

  ghost predicate MergeCovers(rule: MergeRule, a: Rect, b: Rect) {
    forall p :: Inside(a, p) || Inside(b, p) ==> Inside(Merge(rule, a, b), p)
  }

  /** The intended merge is the bounding box: it covers both rectangles, and every
      rectangle spanning both spans it. */
  lemma IntendedIsBoundingBox(a: Rect, b: Rect)
    ensures MergeCovers(Intended, a, b)
    ensures forall r: Rect ::
      r.x <= Min(a.x, b.x) && r.y <= Min(a.y, b.y) &&
      r.x + r.width >= Max(a.x + a.width, b.x + b.width) &&
      r.y + r.height >= Max(a.y + a.height, b.y + b.height)
      ==> forall p :: Inside(Merge(Intended, a, b), p) ==> Inside(r, p)
  {
  }

  /** The branch taken by the shipped comparison throws away columns of a non-empty rectangle. */
  predicate DropsColumns(a: Rect, b: Rect) {
    if a.x < b.y then b.x < a.x && NonEmpty(b) else a.x < b.x && NonEmpty(a)
  }

  /** The shipped merge covers both rectangles exactly when its branch drops no column. */
  lemma AsWrittenCoversIff(a: Rect, b: Rect)
    ensures MergeCovers(AsWritten, a, b) <==> !DropsColumns(a, b)
  {
    if DropsColumns(a, b) {
      var lost := if a.x < b.y then b else a;
      var p := Pixel(lost.x, lost.y);
      assert Inside(lost, p) && !Inside(Merge(AsWritten, a, b), p);
    }
  }

  /** A single pixel far left and low, merged into one further right and higher, is lost. */
  lemma AsWrittenLosesDamage()
    ensures !MergeCovers(AsWritten, Box(5, 0, 1, 1), Box(0, 10, 1, 1))
    ensures MergeCovers(Intended, Box(5, 0, 1, 1), Box(0, 10, 1, 1))
  {
    AsWrittenCoversIff(Box(5, 0, 1, 1), Box(0, 10, 1, 1));
    IntendedIsBoundingBox(Box(5, 0, 1, 1), Box(0, 10, 1, 1));
  }

  function FoldMerge(rule: MergeRule, acc: Rect, rest: seq<Rect>): Rect
    decreases |rest|
  {
    if rest == [] then acc else FoldMerge(rule, Merge(rule, acc, rest[0]), rest[1..])
  }

  /** The left edge a chain of merges ends with, from the comparisons of edges alone. */
  function FinalEdge(rule: MergeRule, edge: nat, rest: seq<Rect>): nat
    decreases |rest|
  {
    if rest == [] then edge
    else
      var d := rest[0];
      FinalEdge(rule, match rule
        case AsWritten => if edge < d.y then edge else d.x
        case Intended => if edge < d.x then edge else d.x, rest[1..])
  }

  /** Whichever comparison is used, all but the left edge of a chain of merges lie outside each of its
      rectangles, and the left edge is what the comparisons leave. */
  lemma {:induction false} FoldMergeBounds(rule: MergeRule, acc: Rect, rest: seq<Rect>)
    ensures var r := FoldMerge(rule, acc, rest);
      && r.x == FinalEdge(rule, acc.x, rest)
      && r.y <= acc.y && acc.y + acc.height <= r.y + r.height
      && acc.x + acc.width <= r.x + r.width
      && forall i :: 0 <= i < |rest| ==>
           r.y <= rest[i].y && rest[i].y + rest[i].height <= r.y + r.height &&
           rest[i].x + rest[i].width <= r.x + r.width
    decreases |rest|
  {
    if rest != [] {
      FoldMergeBounds(rule, Merge(rule, acc, rest[0]), rest[1..]);
      var r := FoldMerge(rule, acc, rest);
      forall i | 0 <= i < |rest|
        ensures r.y <= rest[i].y && rest[i].y + rest[i].height <= r.y + r.height
        ensures rest[i].x + rest[i].width <= r.x + r.width
      {
        assert i > 0 ==> rest[i] == rest[1..][i - 1];
      }
    }
  }

  predicate Spans(r: Box, b: Box) {
    && r.x <= b.x && b.x + b.width <= r.x + r.width
    && r.y <= b.y && b.y + b.height <= r.y + r.height
  }

  /** With the intended minimum a chain of merges is the least rectangle around all it merges. */
  lemma {:induction false} IntendedFoldIsLeast(acc: Rect, rest: seq<Rect>, r: Box)
    requires Spans(r, acc) && forall i :: 0 <= i < |rest| ==> Spans(r, rest[i])
    ensures Spans(r, FoldMerge(Intended, acc, rest))
    decreases |rest|
  {
    if rest != [] {
      IntendedFoldIsLeast(Merge(Intended, acc, rest[0]), rest[1..], r);
    }
  }

  datatype Side = Left | Top | Right | Bottom

  function Edge(side: Side, b: Box): nat {
    match side
    case Left => b.x
    case Top => b.y
    case Right => b.x + b.width
    case Bottom => b.y + b.height
  }

  /** With either comparison each edge of a chain of merges is an edge of a rectangle it merges. */
  lemma {:induction false} FoldMergeEdges(rule: MergeRule, acc: Rect, rest: seq<Rect>, side: Side)
    ensures exists b :: b in [acc] + rest && Edge(side, b) == Edge(side, FoldMerge(rule, acc, rest))
    decreases |rest|
  {
    assert acc in [acc] + rest;
    if rest != [] {
      var next := Merge(rule, acc, rest[0]);
      FoldMergeEdges(rule, next, rest[1..], side);
      var b :| b in [next] + rest[1..] && Edge(side, b) == Edge(side, FoldMerge(rule, next, rest[1..]));
      assert rest[0] in [acc] + rest;
      if b != next {
        assert b in rest[1..] && b in rest;
      }
    }
  }

  /** No non-empty rectangle of the chain starts left of where its merges end up. */
  predicate KeepsColumns(rule: MergeRule, acc: Rect, rest: seq<Rect>) {
    forall r | r in [acc] + rest :: NonEmpty(r) ==> FinalEdge(rule, acc.x, rest) <= r.x
  }

  /** A chain of merges covers all its rectangles exactly when the left edge its
      comparisons end with lies at or left of every non-empty one. */
  lemma FoldCoversIff(rule: MergeRule, acc: Rect, rest: seq<Rect>)
    ensures Covers([FoldMerge(rule, acc, rest)], [acc] + rest) <==> KeepsColumns(rule, acc, rest)
  {
    var all := [acc] + rest;
    var m := FoldMerge(rule, acc, rest);
    FoldMergeBounds(rule, acc, rest);
    if KeepsColumns(rule, acc, rest) {
      forall p | Covered(all, p) ensures Covered([m], p) {
        var i :| 0 <= i < |all| && Inside(all[i], p);
        assert NonEmpty(all[i]) && all[i] in all;
        assert i > 0 ==> all[i] == rest[i - 1];
        assert Inside([m][0], p);
      }
    } else {
      var r :| r in all && NonEmpty(r) && r.x < m.x;
      var i :| 0 <= i < |all| && all[i] == r;
      var p := Pixel(r.x, r.y);
      assert Inside(all[i], p);
      assert Covered(all, p) && !Covered([m], p);
    }
  }

  lemma {:induction false} IntendedEdge(edge: nat, rest: seq<Rect>)
    ensures FinalEdge(Intended, edge, rest) <= edge
    ensures forall r :: r in rest ==> FinalEdge(Intended, edge, rest) <= r.x
  {
    if rest != [] {
      IntendedEdge(if edge < rest[0].x then edge else rest[0].x, rest[1..]);
      assert rest == [rest[0]] + rest[1..];
    }
  }

  /** What the metadata's n regions hold after a frame with the given damage is queued. */
  function Pack(rule: MergeRule, damage: seq<Rect>, n: nat): (regions: seq<Rect>)
    requires n >= 1
    ensures |regions| == n
  {
    if |damage| <= n then damage + seq(n - |damage|, _ => NOTHING)
    else damage[..n - 1] + [FoldMerge(rule, damage[n - 1], damage[n..])]
  }

  /** Damage that fits is reported exactly, pixel for pixel. */
  lemma PackExactWhenItFits(rule: MergeRule, damage: seq<Rect>, n: nat)
    requires n >= 1 && |damage| <= n
    ensures damage <= Pack(rule, damage, n)
    ensures forall i :: |damage| <= i < n ==> Pack(rule, damage, n)[i] == NOTHING
    ensures forall p :: Covered(Pack(rule, damage, n), p) <==> Covered(damage, p)
  {
    var regions := Pack(rule, damage, n);
    forall p ensures Covered(regions, p) <==> Covered(damage, p) {
      if i :| 0 <= i < |regions| && Inside(regions[i], p) {
        assert damage[i] == regions[i];
      }
      if i :| 0 <= i < |damage| && Inside(damage[i], p) {
        assert regions[i] == damage[i];
      }
    }
  }

  /** Damage that does not fit: all but the last region are reported as they are, and with the
      intended merge the last one shows no more than it must. */
  lemma PackOverflow(rule: MergeRule, damage: seq<Rect>, n: nat, r: Box)
    requires 1 <= n < |damage|
    ensures Pack(rule, damage, n)[..n - 1] == damage[..n - 1]
    ensures (forall i :: n - 1 <= i < |damage| ==> Spans(r, damage[i])) ==> Spans(r, Pack(Intended, damage, n)[n - 1])
  {
    if forall i :: n - 1 <= i < |damage| ==> Spans(r, damage[i]) {
      forall i | 0 <= i < |damage[n..]| ensures Spans(r, damage[n..][i]) {
        assert damage[n..][i] == damage[n + i];
      }
      IntendedFoldIsLeast(damage[n - 1], damage[n..], r);
    }
  }

  /** The overflow that is folded into the last region keeps all its columns. */
  predicate OverflowKept(rule: MergeRule, damage: seq<Rect>, n: nat)
    requires n >= 1
  {
    |damage| <= n || KeepsColumns(rule, damage[n - 1], damage[n..])
  }

  lemma PackCovers(rule: MergeRule, damage: seq<Rect>, n: nat)
    requires n >= 1 && OverflowKept(rule, damage, n)
    ensures Covers(Pack(rule, damage, n), damage)
  {
    var regions := Pack(rule, damage, n);
    if |damage| <= n {
      PackExactWhenItFits(rule, damage, n);
    } else {
      FoldCoversIff(rule, damage[n - 1], damage[n..]);
      var tail := [damage[n - 1]] + damage[n..];
      var folded := [FoldMerge(rule, damage[n - 1], damage[n..])];
      assert Covers(folded, tail);
      forall p | Covered(damage, p) ensures Covered(regions, p) {
        var i :| 0 <= i < |damage| && Inside(damage[i], p);
        if i < n - 1 {
          assert regions[i] == damage[i];
        } else {
          assert Inside(tail[i - (n - 1)], p);
          assert Covered(folded, p);
          assert regions[n - 1] == folded[0];
        }
      }
    }
  }

  /** With the intended minimum, no damage is ever lost, however few regions there are. */
  lemma IntendedPackCovers(damage: seq<Rect>, n: nat)
    requires n >= 1
    ensures OverflowKept(Intended, damage, n)
    ensures Covers(Pack(Intended, damage, n), damage)
  {
    if |damage| > n {
      IntendedEdge(damage[n - 1].x, damage[n..]);
    }
    PackCovers(Intended, damage, n);
  }

  /** With one region, the shipped comparison loses damage exactly when the overflow test fails. */
  lemma OneRegionCoversIff(rule: MergeRule, damage: seq<Rect>)
    ensures Covers(Pack(rule, damage, 1), damage) <==> OverflowKept(rule, damage, 1)
  {
    if |damage| > 1 {
      assert damage == [damage[0]] + damage[1..];
      assert Pack(rule, damage, 1) == [FoldMerge(rule, damage[0], damage[1..])];
      FoldCoversIff(rule, damage[0], damage[1..]);
    } else {
      PackCovers(rule, damage, 1);
    }
  }

  /** The part of a rectangle that lies left of an edge. */
  function LeftOf(r: Rect, edge: nat): Rect {
    Box(r.x, r.y, if edge <= r.x then 0 else Min(edge - r.x, r.width), r.height)
  }

  /** Of each rectangle in the chain, a fold loses exactly the part left of its final edge. */
  lemma FoldLosesLeftOfEdge(rule: MergeRule, acc: Rect, rest: seq<Rect>, r: Rect, p: Pixel)
    requires r in [acc] + rest && Inside(r, p)
    ensures Inside(FoldMerge(rule, acc, rest), p) <==> !Inside(LeftOf(r, FinalEdge(rule, acc.x, rest)), p)
  {
    FoldMergeBounds(rule, acc, rest);
    var i :| 0 <= i < |[acc] + rest| && ([acc] + rest)[i] == r;
    assert i > 0 ==> r == rest[i - 1];
  }

  /** What the last region loses of the overflow is reported by the regions before it. */
  ghost predicate LossReportedElsewhere(rule: MergeRule, damage: seq<Rect>, n: nat)
    requires n >= 1
  {
    |damage| <= n ||
    forall i :: n - 1 <= i < |damage| ==>
      Covers(damage[..n - 1], [LeftOf(damage[i], FinalEdge(rule, damage[n - 1].x, damage[n..]))])
  }

  /** The exact condition for any number of regions: all damage is reported if and only if
      everything left of the folded region's edge lies in an earlier region too. */
  lemma PackCoversIff(rule: MergeRule, damage: seq<Rect>, n: nat)
    requires n >= 1
    ensures Covers(Pack(rule, damage, n), damage) <==> LossReportedElsewhere(rule, damage, n)
  {
    if |damage| <= n {
      PackExactWhenItFits(rule, damage, n);
    } else if Covers(Pack(rule, damage, n), damage) {
      forall i | n - 1 <= i < |damage|
        ensures Covers(damage[..n - 1], [LeftOf(damage[i], FinalEdge(rule, damage[n - 1].x, damage[n..]))])
      {
        OverflowLossReported(rule, damage, n, i);
      }
    } else if LossReportedElsewhere(rule, damage, n) {
      ReportedLossCovers(rule, damage, n);
      assert false;
    }
  }

  lemma OverflowLossReported(rule: MergeRule, damage: seq<Rect>, n: nat, i: nat)
    requires 1 <= n && n - 1 <= i < |damage| && n < |damage|
    requires Covers(Pack(rule, damage, n), damage)
    ensures Covers(damage[..n - 1], [LeftOf(damage[i], FinalEdge(rule, damage[n - 1].x, damage[n..]))])
  {
    var regions := Pack(rule, damage, n);
    var strip := LeftOf(damage[i], FinalEdge(rule, damage[n - 1].x, damage[n..]));
    assert damage[n - 1..] == [damage[n - 1]] + damage[n..];
    assert damage[i] == damage[n - 1..][i - (n - 1)];
    forall p | Covered([strip], p) ensures Covered(damage[..n - 1], p) {
      assert Inside(strip, p) && Inside(damage[i], p);
      assert Covered(damage, p);
      FoldLosesLeftOfEdge(rule, damage[n - 1], damage[n..], damage[i], p);
      var k :| 0 <= k < |regions| && Inside(regions[k], p);
      assert Inside(damage[..n - 1][k], p);
    }
  }

  lemma ReportedLossCovers(rule: MergeRule, damage: seq<Rect>, n: nat)
    requires 1 <= n < |damage| && LossReportedElsewhere(rule, damage, n)
    ensures Covers(Pack(rule, damage, n), damage)
  {
    var regions := Pack(rule, damage, n);
    var kept := damage[..n - 1];
    assert damage[n - 1..] == [damage[n - 1]] + damage[n..];
    forall p | Covered(damage, p) ensures Covered(regions, p) {
      var i :| 0 <= i < |damage| && Inside(damage[i], p);
      if i < n - 1 {
        assert Inside(regions[i], p);
      } else {
        assert damage[i] == damage[n - 1..][i - (n - 1)];
        var strip := LeftOf(damage[i], FinalEdge(rule, damage[n - 1].x, damage[n..]));
        FoldLosesLeftOfEdge(rule, damage[n - 1], damage[n..], damage[i], p);
        if Inside(strip, p) {
          assert Inside([strip][0], p);
          assert Covers(kept, [strip]) && Covered([strip], p);
          var k :| 0 <= k < |kept| && Inside(kept[k], p);
          assert Inside(regions[k], p);
        } else {
          assert Inside(regions[n - 1], p);
        }
      }
    }
  }

  /** The damage loop of xdpw_pwr_enqueue_buffer: slots is the metadata's memory. */
  method WriteDamage(rule: MergeRule, damage: seq<Rect>, slots: array<Rect>)
    requires slots.Length >= 1
    modifies slots
    ensures slots[..] == Pack(rule, damage, slots.Length)
  {
    var n := slots.Length;
    var region := 0;
    var damageCounter := 0;
    var stoppedForSpa := false;
    while damageCounter < |damage| && !stoppedForSpa
      invariant 0 <= damageCounter <= |damage| && damageCounter <= n
      invariant stoppedForSpa <==> damageCounter == n
      invariant region == if stoppedForSpa then n - 1 else damageCounter
      invariant slots[..damageCounter] == damage[..damageCounter]
    {
      slots[region] := damage[damageCounter];
      damageCounter := damageCounter + 1;
      if region + 1 >= n {
        stoppedForSpa := true;
      } else {
        region := region + 1;
      }
    }
    if stoppedForSpa {
      var merged := slots[region];
      var combined := 0;
      while combined < |damage|
        invariant n <= |damage| && combined <= |damage| && region == n - 1
        invariant slots[..] == damage[..n]
        invariant combined <= n ==> merged == damage[n - 1]
        invariant combined >= n ==>
          FoldMerge(rule, damage[n - 1], damage[n..]) == FoldMerge(rule, merged, damage[combined..])
      {
        if combined >= damageCounter {
          merged := Merge(rule, merged, damage[combined]);
          assert damage[combined..][1..] == damage[combined + 1..];
        }
        combined := combined + 1;
      }
      slots[region] := merged;
      assert slots[..] == damage[..n - 1] + [merged];
    } else {
      while region < n
        invariant damageCounter == |damage| <= region <= n
        invariant slots[..|damage|] == damage
        invariant forall i :: |damage| <= i < region ==> slots[i] == NOTHING
      {
        slots[region] := NOTHING;
        region := region + 1;
      }
      assert slots[..] == slots[..|damage|] + slots[|damage|..];
    }
  }
}
