/** The formats offered to PipeWire, built from the committed constraints. */
module Offers {
  import opened Common
  import opened Formats
  import opened Constraints

  const MOD_INVALID := 0x00ff_ffff_ffff_ffff
  const MOD_LINEAR := 0

  /** One EnumFormat parameter. Without modifiers the format is also offered without its alpha
      channel; with several to choose from the choice is left open (DONT_FIXATE). */
  datatype Offer = Offer(format: PwFormat, withoutAlpha: PwFormat, modifiers: seq<int>, open: bool,
                         width: int, height: int, maxFramerate: int)

  /** importable are the pairs for which GBM reports a positive plane count. */
  predicate Usable(p: Pair, fourcc: int, importable: set<Pair>) {
    p.fourcc == fourcc && (p.modifier == MOD_INVALID || p in importable)
  }

  function UsableModifiers(pairs: seq<Pair>, fourcc: int, importable: set<Pair>): seq<int> {
    if pairs == [] then []
    else (if Usable(pairs[0], fourcc, importable) then [pairs[0].modifier] else []) +
         UsableModifiers(pairs[1..], fourcc, importable)
  }

  function OfferOf(c: ConstraintSet, format: PwFormat, modifiers: seq<int>, framerate: int): Offer {
    Offer(format, if modifiers != [] then PwUnknown else StripAlpha(format), modifiers, modifiers != [],
          c.width, c.height, framerate)
  }

  /** The loop over the pairs, from a given pair on. */
  function DmabufOffers(c: ConstraintSet, rest: seq<Pair>, last: int, framerate: int, importable: set<Pair>): seq<Offer>
    decreases |rest|
  {
    if rest == [] then []
    else
      var f := rest[0].fourcc;
      if last == f || !Known(f) then DmabufOffers(c, rest[1..], last, framerate, importable)
      else
        var modifiers := UsableModifiers(c.pairs, f, importable);
        (if modifiers != [] then [OfferOf(c, PwFromDrm(f), modifiers, framerate)] else []) +
          DmabufOffers(c, rest[1..], f, framerate, importable)
  }

  /** The shm array as 32-bit words: each entry is a fourcc followed by a stride. */
  function Words(shm: seq<ShmFormat>): seq<int> {
    if shm == [] then [] else [shm[0].fourcc, shm[0].stride] + Words(shm[1..])
  }

  function ShmOffers(c: ConstraintSet, words: seq<int>, framerate: int): seq<Offer> {
    if words == [] then []
    else (if Known(words[0]) then [OfferOf(c, PwFromDrm(words[0]), [], framerate)] else []) +
         ShmOffers(c, words[1..], framerate)
  }

  function Offered(c: ConstraintSet, avoidDmabufs: bool, framerate: int, importable: set<Pair>): seq<Offer> {
    (if avoidDmabufs then [] else DmabufOffers(c, c.pairs, INVALID, framerate, importable)) +
      ShmOffers(c, Words(c.shm), framerate)
  }

  // ----- the loops -----

  lemma Associates<T>(a: seq<T>, b: seq<T>, c: seq<T>)
    ensures a + (b + c) == a + b + c
  {
  }

  lemma {:induction false} UsableModifiersSplit(a: seq<Pair>, b: seq<Pair>, fourcc: int, importable: set<Pair>)
    ensures UsableModifiers(a + b, fourcc, importable) ==
      UsableModifiers(a, fourcc, importable) + UsableModifiers(b, fourcc, importable)
    decreases |a|
  {
    if a == [] {
      assert a + b == b;
    } else {
      var first := if Usable(a[0], fourcc, importable) then [a[0].modifier] else [];
      assert (a + b)[0] == a[0] && (a + b)[1..] == a[1..] + b;
      UsableModifiersSplit(a[1..], b, fourcc, importable);
      Associates(first, UsableModifiers(a[1..], fourcc, importable), UsableModifiers(b, fourcc, importable));
    }
  }

  lemma UsablePrefix(pairs: seq<Pair>, i: nat, fourcc: int, importable: set<Pair>)
    requires i < |pairs|
    ensures UsableModifiers(pairs[..i + 1], fourcc, importable) ==
      UsableModifiers(pairs[..i], fourcc, importable) +
        if Usable(pairs[i], fourcc, importable) then [pairs[i].modifier] else []
    ensures |UsableModifiers(pairs[..i], fourcc, importable)| <= |UsableModifiers(pairs, fourcc, importable)|
    ensures Usable(pairs[i], fourcc, importable) ==>
      |UsableModifiers(pairs[..i], fourcc, importable)| < |UsableModifiers(pairs, fourcc, importable)|
  {
    assert pairs[..i + 1] == pairs[..i] + [pairs[i]];
    UsableModifiersSplit(pairs[..i], [pairs[i]], fourcc, importable);
    assert pairs == pairs[..i + 1] + pairs[i + 1..];
    UsableModifiersSplit(pairs[..i + 1], pairs[i + 1..], fourcc, importable);
  }

  method CountModifiers(pairs: seq<Pair>, fourcc: int, importable: set<Pair>) returns (modifiers: nat)
    ensures modifiers == |UsableModifiers(pairs, fourcc, importable)|
  {
    modifiers := 0;
    for i := 0 to |pairs|
      invariant modifiers == |UsableModifiers(pairs[..i], fourcc, importable)|
    {
      UsablePrefix(pairs, i, fourcc, importable);
      if pairs[i].fourcc == fourcc && (pairs[i].modifier == MOD_INVALID || pairs[i] in importable) {
        modifiers := modifiers + 1;
      }
    }
    assert pairs[..|pairs|] == pairs;
  }

  /** The array is as long as the counting pass said; every write stays inside it. */
  method QueryModifiers(pairs: seq<Pair>, fourcc: int, importable: set<Pair>, modifiers: array<int>)
    requires modifiers.Length == |UsableModifiers(pairs, fourcc, importable)|
    modifies modifiers
    ensures modifiers[..] == UsableModifiers(pairs, fourcc, importable)
  {
    var idx := 0;
    for i := 0 to |pairs|
      invariant idx == |UsableModifiers(pairs[..i], fourcc, importable)| <= modifiers.Length
      invariant modifiers[..idx] == UsableModifiers(pairs[..i], fourcc, importable)
    {
      UsablePrefix(pairs, i, fourcc, importable);
      if pairs[i].fourcc == fourcc && (pairs[i].modifier == MOD_INVALID || pairs[i] in importable) {
        assert idx < modifiers.Length;
        modifiers[idx] := pairs[i].modifier;
        assert modifiers[..idx + 1] == modifiers[..idx] + [pairs[i].modifier];
        idx := idx + 1;
      }
    }
    assert pairs[..|pairs|] == pairs;
    assert modifiers[..] == modifiers[..idx];
  }

  method BuildModifierList(pairs: seq<Pair>, fourcc: int, importable: set<Pair>) returns (list: seq<int>)
    ensures list == UsableModifiers(pairs, fourcc, importable)
  {
    var count := CountModifiers(pairs, fourcc, importable);
    if count == 0 {
      return [];
    }
    var modifiers := new int[count];
    QueryModifiers(pairs, fourcc, importable, modifiers);
    list := modifiers[..];
  }

  method AddDmabufFormats(c: ConstraintSet, framerate: int, importable: set<Pair>) returns (params: seq<Offer>)
    ensures params == DmabufOffers(c, c.pairs, INVALID, framerate, importable)
  {
    params := [];
    var lastFormat := INVALID;
    assert c.pairs[0..] == c.pairs;
    for i := 0 to |c.pairs|
      invariant params + DmabufOffers(c, c.pairs[i..], lastFormat, framerate, importable) ==
        DmabufOffers(c, c.pairs, INVALID, framerate, importable)
    {
      var fourcc := c.pairs[i].fourcc;
      assert c.pairs[i..][0] == c.pairs[i] && c.pairs[i..][1..] == c.pairs[i + 1..];
      if lastFormat == fourcc {
        continue;
      }
      var format := PwFromDrm(fourcc);
      if format == PwUnknown {
        continue;
      }
      lastFormat := fourcc;
      var modifiers := BuildModifierList(c.pairs, fourcc, importable);
      if |modifiers| > 0 {
        var offer := OfferOf(c, format, modifiers, framerate);
        assert params + ([offer] + DmabufOffers(c, c.pairs[i + 1..], fourcc, framerate, importable)) ==
          params + [offer] + DmabufOffers(c, c.pairs[i + 1..], fourcc, framerate, importable);
        params := params + [offer];
      } else {
        assert [] + DmabufOffers(c, c.pairs[i + 1..], fourcc, framerate, importable) ==
          DmabufOffers(c, c.pairs[i + 1..], fourcc, framerate, importable);
      }
    }
  }

  method AddShmFormats(c: ConstraintSet, framerate: int) returns (params: seq<Offer>)
    ensures params == ShmOffers(c, Words(c.shm), framerate)
  {
    params := [];
    var words := Words(c.shm);
    assert words[0..] == words;
    for i := 0 to |words|
      invariant params + ShmOffers(c, words[i..], framerate) == ShmOffers(c, words, framerate)
    {
      var before := params;
      var format := PwFromDrm(words[i]);
      if format != PwUnknown {
        params := params + [OfferOf(c, format, [], framerate)];
      }
      ShmOffersStep(c, before, params, words[i..], framerate);
      assert words[i..][1..] == words[i + 1..];
    }
  }

  lemma ShmOffersStep(c: ConstraintSet, before: seq<Offer>, after: seq<Offer>, words: seq<int>, framerate: int)
    requires words != []
    requires after == if Known(words[0]) then before + [OfferOf(c, PwFromDrm(words[0]), [], framerate)] else before
    ensures after + ShmOffers(c, words[1..], framerate) == before + ShmOffers(c, words, framerate)
  {
  }

  method BuildFormats(c: ConstraintSet, avoidDmabufs: bool, framerate: int, importable: set<Pair>)
    returns (params: seq<Offer>)
    ensures params == Offered(c, avoidDmabufs, framerate, importable)
  {
    params := [];
    if !avoidDmabufs {
      params := AddDmabufFormats(c, framerate, importable);
    }
    var shm := AddShmFormats(c, framerate);
    params := params + shm;
  }

  /** A usable modifier of a format: implicit, or of a pair that can be imported. */
  lemma {:induction false} UsableModifierIff(pairs: seq<Pair>, f: int, importable: set<Pair>, m: int)
    ensures m in UsableModifiers(pairs, f, importable) <==>
      Pair(f, m) in pairs && (m == 0x00ff_ffff_ffff_ffff || Pair(f, m) in importable)
  {
    if pairs != [] {
      UsableModifierIff(pairs[1..], f, importable, m);
      assert pairs == [pairs[0]] + pairs[1..];
    }
  }

  /** They are listed in the order of the pairs, one for each pair that has one. */
  lemma UsableModifiersInOrder(pairs: seq<Pair>, i: nat, f: int, importable: set<Pair>)
    requires i < |pairs|
    ensures UsableModifiers([], f, importable) == []
    ensures UsableModifiers(pairs[..i + 1], f, importable) == UsableModifiers(pairs[..i], f, importable) +
      if pairs[i].fourcc == f && (pairs[i].modifier == 0x00ff_ffff_ffff_ffff || pairs[i] in importable)
      then [pairs[i].modifier] else []
  {
    UsablePrefix(pairs, i, f, importable);
  }

  /** An offer for a format carries the constraints' width and height, in that order, and is left open
      exactly if it has modifiers; without them the format is also offered without alpha. */
  ghost predicate ShapedBy(c: ConstraintSet, framerate: int, o: Offer) {
    && o.width == c.width && o.height == c.height && o.maxFramerate == framerate
    && (o.open <==> o.modifiers != [])
    && o.withoutAlpha == if o.modifiers == [] then StripAlpha(o.format) else PwUnknown
  }

  lemma {:induction false} DmabufOffersShaped(c: ConstraintSet, rest: seq<Pair>, last: int, framerate: int,
                                              importable: set<Pair>)
    ensures forall o :: o in DmabufOffers(c, rest, last, framerate, importable) ==>
      ShapedBy(c, framerate, o) && o.modifiers != []
    decreases |rest|
  {
    if rest != [] {
      var g := rest[0].fourcc;
      DmabufOffersShaped(c, rest[1..], if last == g || !Known(g) then last else g, framerate, importable);
    }
  }

  lemma {:induction false} ShmOffersShaped(c: ConstraintSet, words: seq<int>, framerate: int)
    ensures forall o :: o in ShmOffers(c, words, framerate) ==> ShapedBy(c, framerate, o) && o.modifiers == []
  {
    if words != [] {
      ShmOffersShaped(c, words[1..], framerate);
    }
  }

  /** Every offer has that shape, and those with modifiers come first. */
  lemma OffersAreShaped(c: ConstraintSet, avoidDmabufs: bool, framerate: int, importable: set<Pair>)
    ensures var offers := Offered(c, avoidDmabufs, framerate, importable);
      && (forall o :: o in offers ==> ShapedBy(c, framerate, o))
      && forall i, j :: 0 <= i < j < |offers| && offers[j].modifiers != [] ==> offers[i].modifiers != []
  {
    DmabufOffersShaped(c, c.pairs, INVALID, framerate, importable);
    ShmOffersShaped(c, Words(c.shm), framerate);
    var dmabuf := if avoidDmabufs then [] else DmabufOffers(c, c.pairs, INVALID, framerate, importable);
    var shm := ShmOffers(c, Words(c.shm), framerate);
    var offers := Offered(c, avoidDmabufs, framerate, importable);
    assert offers == dmabuf + shm;
    forall i, j | 0 <= i < j < |offers| && offers[j].modifiers != [] ensures offers[i].modifiers != [] {
      assert offers[j] in offers;
      if j >= |dmabuf| {
        assert false;
      }
      assert offers[i] == dmabuf[i];
    }
  }

  // ----- what is offered over dmabuf -----

  /** How many of the offers are for a given format with modifiers. */
  function TimesOffered(offers: seq<Offer>, format: PwFormat): nat {
    if offers == [] then 0
    else (if offers[0].format == format && offers[0].modifiers != [] then 1 else 0) +
         TimesOffered(offers[1..], format)
  }

  lemma {:induction false} TimesOfferedAppend(a: seq<Offer>, b: seq<Offer>, format: PwFormat)
    ensures TimesOffered(a + b, format) == TimesOffered(a, format) + TimesOffered(b, format)
    decreases |a|
  {
    if a == [] {
      assert a + b == b;
    } else {
      assert (a + b)[1..] == a[1..] + b;
      TimesOfferedAppend(a[1..], b, format);
    }
  }

  /** A pair of another known format at position j interrupts. */
  predicate Interrupts(pairs: seq<Pair>, j: int, f: int)
    requires 0 <= j < |pairs|
  {
    Known(pairs[j].fourcc) && pairs[j].fourcc != f
  }

  /** After an interruption, f comes back. */
  predicate Returns(pairs: seq<Pair>, f: int) {
    exists j, k :: 0 <= j < k < |pairs| && Interrupts(pairs, j, f) && pairs[k].fourcc == f
  }

  /** The pairs of f are not contiguous, unknown formats aside. */
  predicate Scattered(pairs: seq<Pair>, f: int) {
    exists i, j, k :: 0 <= i < j < k < |pairs| &&
      pairs[i].fourcc == f && Interrupts(pairs, j, f) && pairs[k].fourcc == f
  }

  predicate Listed(pairs: seq<Pair>, f: int) {
    exists i :: 0 <= i < |pairs| && pairs[i].fourcc == f
  }

  lemma {:induction false} ListedTail(pairs: seq<Pair>, f: int)
    requires pairs != []
    ensures Listed(pairs, f) <==> pairs[0].fourcc == f || Listed(pairs[1..], f)
  {
    if i :| 0 <= i < |pairs| && pairs[i].fourcc == f {
      assert i > 0 ==> pairs[1..][i - 1] == pairs[i];
    }
    if i :| 0 <= i < |pairs[1..]| && pairs[1..][i].fourcc == f {
      assert pairs[i + 1] == pairs[1..][i];
    }
  }

  lemma {:induction false} ReturnsTail(pairs: seq<Pair>, f: int)
    requires pairs != []
    ensures Returns(pairs, f) <==>
      (Interrupts(pairs, 0, f) && Listed(pairs[1..], f)) || Returns(pairs[1..], f)
  {
    var t := pairs[1..];
    if j, k :| 0 <= j < k < |pairs| && Interrupts(pairs, j, f) && pairs[k].fourcc == f {
      assert t[k - 1].fourcc == f;
      assert j > 0 ==> Interrupts(t, j - 1, f);
    }
    if j, k :| 0 <= j < k < |t| && Interrupts(t, j, f) && t[k].fourcc == f {
      assert Interrupts(pairs, j + 1, f) && pairs[k + 1].fourcc == f;
    }
    if Interrupts(pairs, 0, f) && Listed(t, f) {
      var i :| 0 <= i < |t| && t[i].fourcc == f;
      assert pairs[i + 1].fourcc == f;
    }
  }

  lemma {:induction false} ScatteredTail(pairs: seq<Pair>, f: int)
    requires pairs != []
    ensures Scattered(pairs, f) <==> (pairs[0].fourcc == f && Returns(pairs[1..], f)) || Scattered(pairs[1..], f)
  {
    var t := pairs[1..];
    if i, j, k :| 0 <= i < j < k < |pairs| && pairs[i].fourcc == f && Interrupts(pairs, j, f) && pairs[k].fourcc == f {
      assert Interrupts(t, j - 1, f) && t[k - 1].fourcc == f;
      assert i > 0 ==> t[i - 1].fourcc == f;
    }
    if i, j, k :| 0 <= i < j < k < |t| && t[i].fourcc == f && Interrupts(t, j, f) && t[k].fourcc == f {
      assert pairs[i + 1].fourcc == f && Interrupts(pairs, j + 1, f) && pairs[k + 1].fourcc == f;
    }
    if pairs[0].fourcc == f && Returns(t, f) {
      var j, k :| 0 <= j < k < |t| && Interrupts(t, j, f) && t[k].fourcc == f;
      assert Interrupts(pairs, j + 1, f) && pairs[k + 1].fourcc == f;
    }
  }

  /** Counting the offers of f while the loop is at rest, with f being or not being the last format. */
  lemma {:induction false} TimesFromHere(c: ConstraintSet, rest: seq<Pair>, last: int, framerate: int,
                                         importable: set<Pair>, f: int)
    requires Known(f) && UsableModifiers(c.pairs, f, importable) != []
    ensures var n := TimesOffered(DmabufOffers(c, rest, last, framerate, importable), PwFromDrm(f));
      if last == f then n == 0 <==> !Returns(rest, f)
      else (n == 0 <==> !Listed(rest, f)) && (n <= 1 <==> !Scattered(rest, f))
    decreases |rest|
  {
    if rest != [] {
      var g := rest[0].fourcc;
      ListedTail(rest, f);
      ReturnsTail(rest, f);
      ScatteredTail(rest, f);
      if last == g || !Known(g) {
        TimesFromHere(c, rest[1..], last, framerate, importable, f);
      } else {
        TimesFromHere(c, rest[1..], g, framerate, importable, f);
        PwRoundTrip(f, PwUnknown);
        PwRoundTrip(g, PwUnknown);
        var modifiers := UsableModifiers(c.pairs, g, importable);
        var first := if modifiers != [] then [OfferOf(c, PwFromDrm(g), modifiers, framerate)] else [];
        TimesOfferedAppend(first, DmabufOffers(c, rest[1..], g, framerate, importable), PwFromDrm(f));
      }
    }
  }

  lemma {:induction false} DmabufOffersExact(c: ConstraintSet, rest: seq<Pair>, last: int, framerate: int,
                                             importable: set<Pair>)
    ensures forall o :: o in DmabufOffers(c, rest, last, framerate, importable) ==>
      && Known(DrmFromPw(o.format)) && Listed(rest, DrmFromPw(o.format))
      && o.modifiers == UsableModifiers(c.pairs, DrmFromPw(o.format), importable) != []
    decreases |rest|
  {
    if rest != [] {
      var g := rest[0].fourcc;
      DmabufOffersExact(c, rest[1..], if last == g || !Known(g) then last else g, framerate, importable);
      PwRoundTrip(g, PwUnknown);
      forall o | o in DmabufOffers(c, rest, last, framerate, importable)
        ensures Listed(rest, DrmFromPw(o.format))
      {
        ListedTail(rest, DrmFromPw(o.format));
      }
    }
  }

  lemma {:induction false} UsableAreListed(pairs: seq<Pair>, f: int, importable: set<Pair>)
    requires UsableModifiers(pairs, f, importable) != []
    ensures Listed(pairs, f)
  {
    ListedTail(pairs, f);
    if !Usable(pairs[0], f, importable) {
      UsableAreListed(pairs[1..], f, importable);
    }
  }

  /** A known format with a usable modifier is offered, every time with exactly its usable
      modifiers in order; and it is offered once exactly when its pairs are contiguous. */
  lemma OfferedOnceIffContiguous(c: ConstraintSet, framerate: int, importable: set<Pair>, f: int)
    requires Known(f) && UsableModifiers(c.pairs, f, importable) != []
    ensures var offers := DmabufOffers(c, c.pairs, INVALID, framerate, importable);
      && TimesOffered(offers, PwFromDrm(f)) >= 1
      && (TimesOffered(offers, PwFromDrm(f)) == 1 <==> !Scattered(c.pairs, f))
      && forall o :: o in offers && o.format == PwFromDrm(f) ==>
           o.modifiers == UsableModifiers(c.pairs, f, importable)
  {
    Codes();
    TimesFromHere(c, c.pairs, INVALID, framerate, importable, f);
    UsableAreListed(c.pairs, f, importable);
    DmabufOffersExact(c, c.pairs, INVALID, framerate, importable);
    PwRoundTrip(f, PwUnknown);
  }

  /** Offers follow the order of the pairs: each is made at a pair of its format, one after the other. */
  ghost predicate MadeAt(offers: seq<Offer>, rest: seq<Pair>, at: seq<nat>) {
    && |at| == |offers|
    && (forall k :: 0 <= k < |at| ==> at[k] < |rest| && rest[at[k]].fourcc == DrmFromPw(offers[k].format))
    && (forall i, k :: 0 <= i < k < |at| ==> at[i] < at[k])
  }

  lemma MadeLater(first: seq<Offer>, offers: seq<Offer>, rest: seq<Pair>, later: seq<nat>) returns (at: seq<nat>)
    requires rest != [] && MadeAt(offers, rest[1..], later)
    requires first == [] || (|first| == 1 && rest[0].fourcc == DrmFromPw(first[0].format))
    ensures MadeAt(first + offers, rest, at)
  {
    var shifted := seq(|later|, k requires 0 <= k < |later| => later[k] + 1);
    at := (if first == [] then [] else [0]) + shifted;
    var all := first + offers;
    forall k | 0 <= k < |at| ensures at[k] < |rest| && rest[at[k]].fourcc == DrmFromPw(all[k].format) {
      if k >= |first| {
        assert at[k] == later[k - |first|] + 1 && all[k] == offers[k - |first|];
        assert rest[1..][later[k - |first|]] == rest[at[k]];
      }
    }
  }

  lemma {:induction false} DmabufOffersInOrder(c: ConstraintSet, rest: seq<Pair>, last: int, framerate: int,
                                               importable: set<Pair>) returns (at: seq<nat>)
    ensures MadeAt(DmabufOffers(c, rest, last, framerate, importable), rest, at)
    decreases |rest|
  {
    at := [];
    if rest != [] {
      var g := rest[0].fourcc;
      PwRoundTrip(g, PwUnknown);
      var skipped := last == g || !Known(g);
      var next := if skipped then last else g;
      var modifiers := UsableModifiers(c.pairs, g, importable);
      var first := if !skipped && modifiers != [] then [OfferOf(c, PwFromDrm(g), modifiers, framerate)] else [];
      var tail := DmabufOffers(c, rest[1..], next, framerate, importable);
      at := DmabufOffersInOrder(c, rest[1..], next, framerate, importable);
      at := MadeLater(first, tail, rest, at);
      assert DmabufOffers(c, rest, last, framerate, importable) == first + tail;
    }
  }

  /** Nothing else is offered over dmabuf: no unknown format, none without a usable modifier. */
  lemma NothingElseOffered(c: ConstraintSet, framerate: int, importable: set<Pair>, o: Offer)
    requires o in DmabufOffers(c, c.pairs, INVALID, framerate, importable)
    ensures Known(DrmFromPw(o.format)) && Listed(c.pairs, DrmFromPw(o.format))
    ensures o.modifiers == UsableModifiers(c.pairs, DrmFromPw(o.format), importable) != []
  {
    DmabufOffersExact(c, c.pairs, INVALID, framerate, importable);
  }

  // ----- what is offered over shared memory -----

  function KnownFormats(fourccs: seq<int>): seq<PwFormat> {
    if fourccs == [] then []
    else (if Known(fourccs[0]) then [PwFromDrm(fourccs[0])] else []) + KnownFormats(fourccs[1..])
  }

  function FormatsOf(offers: seq<Offer>): seq<PwFormat> {
    if offers == [] then [] else [offers[0].format] + FormatsOf(offers[1..])
  }

  lemma {:induction false} ShmOffersFormats(c: ConstraintSet, words: seq<int>, framerate: int)
    ensures FormatsOf(ShmOffers(c, words, framerate)) == KnownFormats(words)
  {
    if words != [] {
      ShmOffersFormats(c, words[1..], framerate);
      var rest := ShmOffers(c, words[1..], framerate);
      if Known(words[0]) {
        assert ShmOffers(c, words, framerate)[1..] == rest;
      } else {
        assert ShmOffers(c, words, framerate) == rest;
      }
    }
  }

  predicate StrideLooksLikeFormat(shm: seq<ShmFormat>) {
    exists i :: 0 <= i < |shm| && Known(shm[i].stride)
  }

  lemma StrideLooksLikeFormatTail(shm: seq<ShmFormat>)
    requires shm != []
    ensures StrideLooksLikeFormat(shm) <==> Known(shm[0].stride) || StrideLooksLikeFormat(shm[1..])
  {
    if i :| 0 <= i < |shm| && Known(shm[i].stride) {
      assert i > 0 ==> shm[1..][i - 1] == shm[i];
    }
    if i :| 0 <= i < |shm[1..]| && Known(shm[1..][i].stride) {
      assert shm[i + 1] == shm[1..][i];
    }
  }

  lemma WalkStep(shm: seq<ShmFormat>)
    requires shm != []
    ensures KnownFormats(Words(shm)) ==
      (if Known(shm[0].fourcc) then [PwFromDrm(shm[0].fourcc)] else []) +
      ((if Known(shm[0].stride) then [PwFromDrm(shm[0].stride)] else []) + KnownFormats(Words(shm[1..])))
    ensures KnownFormats(Fourccs(shm)) ==
      (if Known(shm[0].fourcc) then [PwFromDrm(shm[0].fourcc)] else []) + KnownFormats(Fourccs(shm[1..]))
  {
    WordsCons(shm);
    KnownFormatsCons(shm[0].fourcc, [shm[0].stride] + Words(shm[1..]));
    KnownFormatsCons(shm[0].stride, Words(shm[1..]));
    KnownFormatsCons(shm[0].fourcc, Fourccs(shm[1..]));
  }

  lemma WordsCons(shm: seq<ShmFormat>)
    requires shm != []
    ensures Words(shm) == [shm[0].fourcc] + ([shm[0].stride] + Words(shm[1..]))
    ensures Fourccs(shm) == [shm[0].fourcc] + Fourccs(shm[1..])
  {
    assert [shm[0].fourcc, shm[0].stride] == [shm[0].fourcc] + [shm[0].stride];
    Associates([shm[0].fourcc], [shm[0].stride], Words(shm[1..]));
  }

  lemma KnownFormatsCons(f: int, rest: seq<int>)
    ensures KnownFormats([f] + rest) == (if Known(f) then [PwFromDrm(f)] else []) + KnownFormats(rest)
  {
    assert ([f] + rest)[1..] == rest;
  }

  lemma {:induction false} WalkLength(shm: seq<ShmFormat>)
    ensures |KnownFormats(Words(shm))| >= |KnownFormats(Fourccs(shm))|
    ensures StrideLooksLikeFormat(shm) ==> |KnownFormats(Words(shm))| > |KnownFormats(Fourccs(shm))|
    ensures !StrideLooksLikeFormat(shm) ==> KnownFormats(Words(shm)) == KnownFormats(Fourccs(shm))
  {
    if shm != [] {
      WalkLength(shm[1..]);
      WalkStep(shm);
      StrideLooksLikeFormatTail(shm);
    }
  }

  /** The word-by-word walk offers exactly the known shm formats, in order, if and only if no stride
      happens to be a known code; strides below 0x30000000 never are. */
  lemma ShmWalkExactIff(c: ConstraintSet, framerate: int)
    ensures FormatsOf(ShmOffers(c, Words(c.shm), framerate)) == KnownFormats(Fourccs(c.shm))
      <==> !StrideLooksLikeFormat(c.shm)
    ensures (forall i :: 0 <= i < |c.shm| ==> c.shm[i].stride < 0x3000_0000) ==> !StrideLooksLikeFormat(c.shm)
  {
    ShmOffersFormats(c, Words(c.shm), framerate);
    WalkLength(c.shm);
    forall i | 0 <= i < |c.shm| ensures Known(c.shm[i].stride) ==> c.shm[i].stride >= 0x3000_0000 {
      KnownCodesAreLarge(c.shm[i].stride);
    }
  }
}
