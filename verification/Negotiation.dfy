/** Format negotiation between one cast and a consumer that picks from the latest offer. */
module Negotiation {
  import opened Common
  import opened Formats
  import Constraints
  import opened Offers

  type ConstraintSet = Constraints.ConstraintSet
  type Pair = Constraints.Pair

  datatype BufferType = WlShm | Dmabuf

  /** What the consumer sends back. An unfixated modifier property lists candidates. */
  datatype ModifierProp = ModifierProp(values: seq<int>, dontFixate: bool)

  datatype Pick = Pick(format: PwFormat, modifier: Option<ModifierProp>, rateNum: int, rateDenom: int)

  datatype NegState = NegState(
    constraints: ConstraintSet, avoidDmabufs: bool, framerate: int, bufferType: BufferType,
    offers: seq<Offer>)

  /** What GBM answers: the modifier of a buffer allocated from the whole candidate list, and for
      each candidate that of a buffer allocated for it alone through the old interface. */
  datatype Gbm = Gbm(together: Option<int>, alone: seq<Option<int>>)

  function Rate(p: Pick): int {
    if p.rateDenom > 0 then p.rateNum / p.rateDenom else 0
  }

  lemma RateIsQuotient(p: Pick)
    ensures if p.rateDenom > 0 then Rate(p) * p.rateDenom <= p.rateNum < (Rate(p) + 1) * p.rateDenom else Rate(p) == 0
  {
  }

  function Fixated(c: ConstraintSet, format: PwFormat, modifier: int, framerate: int): Offer {
    Offer(format, PwUnknown, [modifier], false, c.width, c.height, framerate)
  }

  predicate TriedAlone(modifier: int) {
    modifier == MOD_INVALID || modifier == MOD_LINEAR
  }

  /** The modifier of the first candidate the old interface can allocate. */
  function FirstAlone(values: seq<int>, alone: seq<Option<int>>): Option<int>
    requires |alone| == |values|
    decreases |values|
  {
    if values == [] then None
    else if TriedAlone(values[0]) && alone[0].Some? then alone[0]
    else FirstAlone(values[1..], alone[1..])
  }

  function Allocated(values: seq<int>, gbm: Gbm): Option<int>
    requires |gbm.alone| == |values|
  {
    if gbm.together.Some? then gbm.together else FirstAlone(values, gbm.alone)
  }

  predicate HasDrmFourcc(s: NegState, fourcc: int) {
    fourcc != INVALID && !s.avoidDmabufs && Listed(s.constraints.pairs, fourcc)
  }

  function Reoffer(s: NegState, importable: set<Pair>): NegState {
    s.(offers := Offered(s.constraints, s.avoidDmabufs, s.framerate, importable))
  }

  function ConstraintsChanged(s: NegState, c: ConstraintSet, importable: set<Pair>): NegState {
    Reoffer(s.(constraints := c), importable)
  }

  function ParamChanged(s: NegState, p: Pick, gbm: Gbm, importable: set<Pair>): NegState
    requires p.modifier.Some? ==> |gbm.alone| == |p.modifier.value.values|
  {
    var t := s.(framerate := Rate(p));
    if p.modifier.None? then t.(bufferType := WlShm)
    else
      var u := t.(bufferType := Dmabuf);
      if !p.modifier.value.dontFixate then u
      else
        var modifier := Allocated(p.modifier.value.values, gbm);
        if modifier.None? then Reoffer(u.(avoidDmabufs := true), importable)
        else
          var r := Reoffer(u, importable);
          r.(offers := [Fixated(s.constraints, p.format, modifier.value, t.framerate)] + r.offers)
  }

  /** An entry of the shm array, the first one of its format. */
  predicate FirstShm(shm: seq<Constraints.ShmFormat>, i: int, f: Constraints.ShmFormat) {
    0 <= i < |shm| && shm[i] == f && f.fourcc !in Constraints.Fourccs(shm)[..i]
  }

  class NegotiatingCast {
    var constraints: ConstraintSet
    var avoidDmabufs: bool
    var framerate: int
    var bufferType: BufferType
    var offers: seq<Offer>

    ghost function View(): NegState
      reads this
    {
      NegState(constraints, avoidDmabufs, framerate, bufferType, offers)
    }

    constructor (maxFps: real, outputFramerate: nat)
      ensures View() == NegState(Constraints.EMPTY, false, MaxFramerate(maxFps, outputFramerate), WlShm, [])
    {
      var maxFramerate := 0;
      if maxFps > 0.0 {
        maxFramerate :=
          if outputFramerate == 0 || maxFps < outputFramerate as real then maxFps.Floor else outputFramerate;
      } else {
        maxFramerate := outputFramerate;
      }
      constraints, avoidDmabufs, framerate := Constraints.EMPTY, false, maxFramerate;
      bufferType, offers := WlShm, [];
    }

    method HasFourcc(format: int) returns (found: bool)
      ensures found == HasDrmFourcc(View(), format)
      ensures found <==>
        && format != 0 && !avoidDmabufs
        && exists i :: 0 <= i < |constraints.pairs| && constraints.pairs[i].fourcc == format
    {
      if format == INVALID {
        return false;
      }
      if !avoidDmabufs {
        for i := 0 to |constraints.pairs|
          invariant forall j :: 0 <= j < i ==> constraints.pairs[j].fourcc != format
        {
          if constraints.pairs[i].fourcc == format {
            return true;
          }
        }
      }
      return false;
    }

    /** The search of xdpw_buffer_create: the first shm entry of the picked format. */
    method FindShmFormat(format: PwFormat) returns (found: Option<Constraints.ShmFormat>)
      ensures found.Some? <==> HasShmFormat(constraints, format)
      ensures found.Some? ==> found.value.fourcc == DrmFromPw(format)
      ensures found.Some? ==> exists i :: FirstShm(constraints.shm, i, found.value)
    {
      var fourcc := DrmFromPw(format);
      var fourccs := Constraints.Fourccs(constraints.shm);
      for i := 0 to |constraints.shm|
        invariant fourcc !in fourccs[..i]
      {
        assert fourccs[i] == constraints.shm[i].fourcc;
        if constraints.shm[i].fourcc == fourcc {
          assert FirstShm(constraints.shm, i, constraints.shm[i]);
          return Some(constraints.shm[i]);
        }
        assert fourccs[..i + 1] == fourccs[..i] + [fourccs[i]];
      }
      assert fourccs[..|constraints.shm|] == fourccs;
      return None;
    }

    method UpdateStreamParam(importable: set<Pair>)
      modifies `offers
      ensures View() == Reoffer(old(View()), importable)
      ensures offers == Offered(constraints, avoidDmabufs, framerate, importable)
    {
      offers := BuildFormats(constraints, avoidDmabufs, framerate, importable);
    }

    method SetConstraints(c: ConstraintSet, importable: set<Pair>)
      modifies `constraints, `offers
      ensures View() == ConstraintsChanged(old(View()), c, importable)
      ensures constraints == c && offers == Offered(c, avoidDmabufs, framerate, importable)
    {
      constraints := c;
      UpdateStreamParam(importable);
    }

    /** The precondition on the fourcc is the source's assertion. */
    method HandleParamChanged(p: Pick, gbm: Gbm, importable: set<Pair>)
      requires p.modifier.Some? ==>
        |gbm.alone| == |p.modifier.value.values| && HasDrmFourcc(View(), DrmFromPw(p.format))
      modifies this
      ensures View() == ParamChanged(old(View()), p, gbm, importable)
      ensures constraints == old(constraints) && bufferType == if p.modifier.Some? then Dmabuf else WlShm
      ensures if p.rateDenom > 0 then framerate * p.rateDenom <= p.rateNum < (framerate + 1) * p.rateDenom
        else framerate == 0
    {
      framerate := if p.rateDenom > 0 then p.rateNum / p.rateDenom else 0;
      RateIsQuotient(p);
      if p.modifier.None? {
        bufferType := WlShm;
        return;
      }
      bufferType := Dmabuf;
      var fourcc := DrmFromPw(p.format);
      var present := HasFourcc(fourcc);
      assert present;
      if !p.modifier.value.dontFixate {
        return;
      }
      var values := p.modifier.value.values;
      var modifier := gbm.together;
      var i := 0;
      assert values[0..] == values && gbm.alone[0..] == gbm.alone;
      while modifier.None? && i < |values|
        invariant 0 <= i <= |values|
        invariant Allocated(values, gbm) == if modifier.Some? then modifier else FirstAlone(values[i..], gbm.alone[i..])
        decreases |values| - i, modifier.None?
      {
        assert values[i..][1..] == values[i + 1..] && gbm.alone[i..][1..] == gbm.alone[i + 1..];
        if values[i] == MOD_INVALID || values[i] == MOD_LINEAR {
          modifier := gbm.alone[i];
        }
        i := i + 1;
      }
      if modifier.None? {
        avoidDmabufs := true;
        UpdateStreamParam(importable);
        return;
      }
      UpdateStreamParam(importable);
      offers := [Fixated(constraints, p.format, modifier.value, framerate)] + offers;
    }
  }

  // ----- runs -----

  /** The ext backend offers anew whenever constraints are committed. The wlr backend commits at each
      buffer_done and offers anew only if the held buffer no longer fits. */
  datatype NegEvent =
    | StreamCreated(importable: set<Pair>)
    | NewConstraints(constraints: ConstraintSet, importable: set<Pair>)  // with a new offer
    | Replaced(constraints: ConstraintSet)                               // without one
    | Picked(pick: Pick, gbm: Gbm, importable: set<Pair>)

  /** The consumer answers one offer: its format, or the same without alpha where that is offered;
      some of its modifiers, left open only where the offer is; a rate inside its range, or any rate
      of its own, or none, where the offer has no limit. */
  predicate Answers(o: Offer, p: Pick) {
    && (if o.modifiers != [] then
          && p.format == o.format && p.modifier.Some? && p.modifier.value.values != []
          && (forall m :: m in p.modifier.value.values ==> m in o.modifiers)
          && (p.modifier.value.dontFixate ==> o.open)
        else
          p.modifier.None? && (p.format == o.format || (o.withoutAlpha != PwUnknown && p.format == o.withoutAlpha)))
    && (if o.maxFramerate > 0 then p.rateDenom > 0 && p.rateDenom <= p.rateNum <= o.maxFramerate * p.rateDenom
        else p.rateNum >= 0 && p.rateDenom >= 0)
  }

  ghost predicate PicksFrom(offers: seq<Offer>, p: Pick) {
    exists o :: o in offers && Answers(o, p)
  }

  ghost predicate Legal(s: NegState, e: NegEvent) {
    e.Picked? ==>
      && PicksFrom(s.offers, e.pick)
      && (e.pick.modifier.Some? ==> |e.gbm.alone| == |e.pick.modifier.value.values|)
  }

  function Stepped(s: NegState, e: NegEvent): NegState
    requires e.Picked? && e.pick.modifier.Some? ==> |e.gbm.alone| == |e.pick.modifier.value.values|
  {
    match e
    case StreamCreated(importable) => Reoffer(s, importable)
    case NewConstraints(c, importable) => ConstraintsChanged(s, c, importable)
    case Replaced(c) => s.(constraints := c)
    case Picked(p, gbm, importable) => ParamChanged(s, p, gbm, importable)
  }

  ghost predicate NegRun(maxFramerate: nat, ss: seq<NegState>, es: seq<NegEvent>) {
    && |ss| == |es| + 1
    && ss[0] == NegState(Constraints.EMPTY, false, maxFramerate, WlShm, [])
    && forall i :: 0 <= i < |es| ==> Legal(ss[i], es[i]) && ss[i + 1] == Stepped(ss[i], es[i])
  }

  /** Modifiers are offered only while dmabufs are not avoided, and only for formats with a fourcc. */
  ghost predicate Plausible(s: NegState, o: Offer) {
    && (o.modifiers != [] ==> !s.avoidDmabufs && DrmFromPw(o.format) != INVALID)
    && o.maxFramerate >= 0
  }

  ghost predicate AllPlausible(s: NegState) {
    s.framerate >= 0 && forall o :: o in s.offers ==> Plausible(s, o)
  }

  /** Each fourcc that is offered with modifiers is one of the current constraints'. */
  ghost predicate StillListed(offers: seq<Offer>, c: ConstraintSet) {
    forall o :: o in offers && o.modifiers != [] ==> Listed(c.pairs, DrmFromPw(o.format))
  }

  lemma {:induction false} ShmOffersPlain(c: ConstraintSet, words: seq<int>, framerate: int)
    ensures forall o :: o in ShmOffers(c, words, framerate) ==> o.modifiers == [] && o.maxFramerate == framerate
  {
    if words != [] {
      ShmOffersPlain(c, words[1..], framerate);
    }
  }

  lemma {:induction false} DmabufOffersRate(c: ConstraintSet, rest: seq<Pair>, last: int, framerate: int,
                                            importable: set<Pair>)
    ensures forall o :: o in DmabufOffers(c, rest, last, framerate, importable) ==> o.maxFramerate == framerate
    decreases |rest|
  {
    if rest != [] {
      var g := rest[0].fourcc;
      DmabufOffersRate(c, rest[1..], if last == g || !Known(g) then last else g, framerate, importable);
    }
  }

  lemma ReofferPlausible(s: NegState, importable: set<Pair>)
    requires s.framerate >= 0
    ensures AllPlausible(Reoffer(s, importable)) && StillListed(Reoffer(s, importable).offers, s.constraints)
    ensures forall o :: o in Reoffer(s, importable).offers ==> o.maxFramerate == s.framerate
  {
    ShmOffersPlain(s.constraints, Words(s.constraints.shm), s.framerate);
    DmabufOffersRate(s.constraints, s.constraints.pairs, INVALID, s.framerate, importable);
    var r := Reoffer(s, importable);
    forall o | o in r.offers
      ensures Plausible(r, o)
      ensures o.modifiers != [] ==> Listed(s.constraints.pairs, DrmFromPw(o.format))
    {
      if !s.avoidDmabufs && o in DmabufOffers(s.constraints, s.constraints.pairs, INVALID, s.framerate, importable) {
        NothingElseOffered(s.constraints, s.framerate, importable, o);
        PwRoundTrip(0, o.format);
        Codes();
      }
    }
  }

  lemma RateNonNegative(s: NegState, p: Pick)
    requires AllPlausible(s) && PicksFrom(s.offers, p)
    ensures Rate(p) >= 0
  {
    var o :| o in s.offers && Answers(o, p);
  }

  lemma PlausibleStep(s: NegState, e: NegEvent)
    requires AllPlausible(s) && Legal(s, e)
    ensures AllPlausible(Stepped(s, e))
    ensures s.avoidDmabufs ==> Stepped(s, e).avoidDmabufs
  {
    match e
    case StreamCreated(importable) => ReofferPlausible(s, importable);
    case NewConstraints(c, importable) => ReofferPlausible(s.(constraints := c), importable);
    case Replaced(c) =>
      forall o | o in s.offers ensures Plausible(s.(constraints := c), o) {
        assert Plausible(s, o);
      }
    case Picked(p, gbm, importable) =>
      RateNonNegative(s, p);
      var o :| o in s.offers && Answers(o, p);
      assert Plausible(s, o);
      var u := s.(framerate := Rate(p), bufferType := Dmabuf);
      ReofferPlausible(u, importable);
      ReofferPlausible(u.(avoidDmabufs := true), importable);
      var v := Stepped(s, e);
      forall x | x in v.offers ensures Plausible(v, x) {
        assert x in s.offers ==> Plausible(s, x);
      }
  }

  lemma {:induction false} PlausibleEveryRun(maxFramerate: nat, ss: seq<NegState>, es: seq<NegEvent>, i: nat)
    requires NegRun(maxFramerate, ss, es) && i <= |es|
    ensures AllPlausible(ss[i])
  {
    if i > 0 {
      PlausibleEveryRun(maxFramerate, ss, es, i - 1);
      PlausibleStep(ss[i - 1], es[i - 1]);
    }
  }

  lemma {:induction false} AvoidStays(maxFramerate: nat, ss: seq<NegState>, es: seq<NegEvent>, i: nat, j: nat)
    requires NegRun(maxFramerate, ss, es) && i <= j <= |es| && ss[i].avoidDmabufs
    ensures ss[j].avoidDmabufs
  {
    if i < j {
      AvoidStays(maxFramerate, ss, es, i, j - 1);
      PlausibleEveryRun(maxFramerate, ss, es, j - 1);
      PlausibleStep(ss[j - 1], es[j - 1]);
    }
  }

  /** Once dmabufs are avoided, in every run of either backend, no offer carries a modifier and no
      pick ever enters the dmabuf branch again. */
  lemma FallbackIsFinal(maxFramerate: nat, ss: seq<NegState>, es: seq<NegEvent>, i: nat, j: nat)
    requires NegRun(maxFramerate, ss, es) && i <= j <= |es| && ss[i].avoidDmabufs
    ensures forall o :: o in ss[j].offers ==> o.modifiers == []
    ensures j < |es| && es[j].Picked? ==> es[j].pick.modifier.None?
  {
    AvoidStays(maxFramerate, ss, es, i, j);
    PlausibleEveryRun(maxFramerate, ss, es, j);
    forall o | o in ss[j].offers ensures o.modifiers == [] {
      assert Plausible(ss[j], o);
    }
    if j < |es| && es[j].Picked? {
      var o :| o in ss[j].offers && Answers(o, es[j].pick);
    }
  }

  /** At any moment the fourcc assertion survives every pick from the latest offers exactly when each
      fourcc they carry modifiers for is listed in the current constraints. */
  lemma AssertionHoldsIff(s: NegState)
    requires AllPlausible(s)
    ensures (forall p :: PicksFrom(s.offers, p) && p.modifier.Some? ==> HasDrmFourcc(s, DrmFromPw(p.format)))
      <==> StillListed(s.offers, s.constraints)
  {
    if forall p :: PicksFrom(s.offers, p) && p.modifier.Some? ==> HasDrmFourcc(s, DrmFromPw(p.format)) {
      forall o | o in s.offers && o.modifiers != [] ensures Listed(s.constraints.pairs, DrmFromPw(o.format)) {
        var p := Pick(o.format, Some(ModifierProp([o.modifiers[0]], false)), o.maxFramerate, 1);
        assert Plausible(s, o) && Answers(o, p);
        assert PicksFrom(s.offers, p);
      }
    }
    if StillListed(s.offers, s.constraints) {
      forall p | PicksFrom(s.offers, p) && p.modifier.Some? ensures HasDrmFourcc(s, DrmFromPw(p.format)) {
        var o :| o in s.offers && Answers(o, p);
        assert Plausible(s, o);
      }
    }
  }

  /** Constraints replaced without a new offer keep every fourcc on offer. The ext backend never
      replaces them so. */
  ghost predicate KeepsOffered(s: NegState, e: NegEvent) {
    e.Replaced? ==> StillListed(s.offers, e.constraints)
  }

  lemma ListedStep(s: NegState, e: NegEvent)
    requires AllPlausible(s) && Legal(s, e) && KeepsOffered(s, e) && StillListed(s.offers, s.constraints)
    ensures StillListed(Stepped(s, e).offers, Stepped(s, e).constraints)
  {
    match e
    case StreamCreated(importable) => ReofferPlausible(s, importable);
    case NewConstraints(c, importable) => ReofferPlausible(s.(constraints := c), importable);
    case Replaced(c) =>
    case Picked(p, gbm, importable) =>
      RateNonNegative(s, p);
      var o :| o in s.offers && Answers(o, p);
      var u := s.(framerate := Rate(p), bufferType := Dmabuf);
      ReofferPlausible(u, importable);
      ReofferPlausible(u.(avoidDmabufs := true), importable);
  }

  lemma {:induction false} ListedEveryRun(maxFramerate: nat, ss: seq<NegState>, es: seq<NegEvent>, i: nat)
    requires NegRun(maxFramerate, ss, es) && i <= |es|
    requires forall k :: 0 <= k < i ==> KeepsOffered(ss[k], es[k])
    ensures AllPlausible(ss[i]) && StillListed(ss[i].offers, ss[i].constraints)
  {
    PlausibleEveryRun(maxFramerate, ss, es, i);
    if i > 0 {
      ListedEveryRun(maxFramerate, ss, es, i - 1);
      ListedStep(ss[i - 1], es[i - 1]);
    }
  }

  /** Negotiation settles: up to any moment of a run in which no replacement dropped a fourcc on
      offer, the assertion has held at every pick, and no pick after the fallback to shared memory
      entered the dmabuf branch again. */
  lemma NegotiationSettles(maxFramerate: nat, ss: seq<NegState>, es: seq<NegEvent>, i: nat, j: nat)
    requires NegRun(maxFramerate, ss, es) && i <= j < |es|
    requires forall k :: 0 <= k < j ==> KeepsOffered(ss[k], es[k])
    ensures es[j].Picked? && es[j].pick.modifier.Some? ==>
      HasDrmFourcc(ss[j], DrmFromPw(es[j].pick.format)) && !ss[i].avoidDmabufs
    ensures ss[i].avoidDmabufs ==> forall o :: o in ss[j].offers ==> o.modifiers == []
  {
    ListedEveryRun(maxFramerate, ss, es, j);
    AssertionHoldsIff(ss[j]);
    if ss[i].avoidDmabufs {
      FallbackIsFinal(maxFramerate, ss, es, i, j);
    }
  }

  /** In every run, a replacement without a new offer leaves the assertion safe for whatever is picked
      next exactly when it drops no fourcc on offer. */
  lemma SilentReplacementSafeIff(maxFramerate: nat, ss: seq<NegState>, es: seq<NegEvent>, i: nat)
    requires NegRun(maxFramerate, ss, es) && i < |es| && es[i].Replaced?
    ensures (forall p :: PicksFrom(ss[i + 1].offers, p) && p.modifier.Some? ==>
        HasDrmFourcc(ss[i + 1], DrmFromPw(p.format)))
      <==> KeepsOffered(ss[i], es[i])
  {
    PlausibleEveryRun(maxFramerate, ss, es, i + 1);
    AssertionHoldsIff(ss[i + 1]);
  }

  // ----- buffers for what was picked -----

  predicate HasShmFormat(c: ConstraintSet, format: PwFormat) {
    DrmFromPw(format) in Constraints.Fourccs(c.shm)
  }

  /** Each format of an shm offer, without alpha included, is in the current constraints. */
  ghost predicate ShmOffersServed(offers: seq<Offer>, c: ConstraintSet) {
    forall o :: o in offers && o.modifiers == [] ==>
      HasShmFormat(c, o.format) && (o.withoutAlpha != PwUnknown ==> HasShmFormat(c, o.withoutAlpha))
  }

  /** Every shm pick from the latest offers can be given a buffer exactly under that condition;
      otherwise a buffer cannot be created and the instance is destroyed. */
  lemma ShmPicksServedIff(s: NegState)
    requires AllPlausible(s)
    ensures (forall p :: PicksFrom(s.offers, p) && p.modifier.None? ==> HasShmFormat(s.constraints, p.format))
      <==> ShmOffersServed(s.offers, s.constraints)
  {
    if forall p :: PicksFrom(s.offers, p) && p.modifier.None? ==> HasShmFormat(s.constraints, p.format) {
      forall o | o in s.offers && o.modifiers == []
        ensures HasShmFormat(s.constraints, o.format)
        ensures o.withoutAlpha != PwUnknown ==> HasShmFormat(s.constraints, o.withoutAlpha)
      {
        assert Plausible(s, o);
        var p, q := Pick(o.format, None, o.maxFramerate, 1), Pick(o.withoutAlpha, None, o.maxFramerate, 1);
        assert Answers(o, p) && PicksFrom(s.offers, p);
        assert o.withoutAlpha != PwUnknown ==> Answers(o, q) && PicksFrom(s.offers, q);
      }
    }
    if ShmOffersServed(s.offers, s.constraints) {
      forall p | PicksFrom(s.offers, p) && p.modifier.None? ensures HasShmFormat(s.constraints, p.format) {
        var o :| o in s.offers && Answers(o, p);
      }
    }
  }

  lemma {:induction false} ShmOffersMembers(c: ConstraintSet, words: seq<int>, framerate: int, o: Offer)
    ensures o in ShmOffers(c, words, framerate) <==>
      exists i :: 0 <= i < |words| && Known(words[i]) && o == OfferOf(c, PwFromDrm(words[i]), [], framerate)
  {
    if words != [] {
      ShmOffersMembers(c, words[1..], framerate, o);
      if i :| 0 <= i < |words| && Known(words[i]) && o == OfferOf(c, PwFromDrm(words[i]), [], framerate) {
        assert i > 0 ==> words[1..][i - 1] == words[i];
      }
      var t := words[1..];
      if i :| 0 <= i < |t| && Known(t[i]) && o == OfferOf(c, PwFromDrm(t[i]), [], framerate) {
        assert words[i + 1] == t[i];
      }
    }
  }

  /** A known word of the shm array, and its format without alpha, are listed. */
  predicate WordServed(c: ConstraintSet, w: int) {
    Known(w) ==>
      && w in Constraints.Fourccs(c.shm)
      && (StripAlpha(PwFromDrm(w)) != PwUnknown ==> HasShmFormat(c, StripAlpha(PwFromDrm(w))))
  }

  /** No stride is taken for a format the constraints lack, and each format with an alpha channel is
      listed together with its twin without one. */
  predicate WordsServed(c: ConstraintSet) {
    forall i :: 0 <= i < |Words(c.shm)| ==> WordServed(c, Words(c.shm)[i])
  }

  lemma OfferedServedIff(c: ConstraintSet, avoid: bool, framerate: int, importable: set<Pair>)
    ensures ShmOffersServed(Offered(c, avoid, framerate, importable), c) <==> WordsServed(c)
  {
    var offers := Offered(c, avoid, framerate, importable);
    var words := Words(c.shm);
    if ShmOffersServed(offers, c) {
      forall i | 0 <= i < |words| ensures WordServed(c, words[i]) {
        var o := OfferOf(c, PwFromDrm(words[i]), [], framerate);
        ShmOffersMembers(c, words, framerate, o);
        PwRoundTrip(words[i], PwUnknown);
        assert Known(words[i]) ==> o in offers;
      }
    }
    if WordsServed(c) {
      forall o | o in offers && o.modifiers == []
        ensures HasShmFormat(c, o.format) && (o.withoutAlpha != PwUnknown ==> HasShmFormat(c, o.withoutAlpha))
      {
        ShmOffersMembers(c, words, framerate, o);
        if o in DmabufOffers(c, c.pairs, INVALID, framerate, importable) {
          NothingElseOffered(c, framerate, importable, o);
        }
        var i :| 0 <= i < |words| && Known(words[i]) && o == OfferOf(c, PwFromDrm(words[i]), [], framerate);
        PwRoundTrip(words[i], PwUnknown);
        assert WordServed(c, words[i]);
      }
    }
  }

  /** Right after offering anew every shm pick can be given a buffer exactly if that is so. */
  lemma FreshShmPicksServedIff(s: NegState, importable: set<Pair>)
    requires s.framerate >= 0
    ensures (forall p :: PicksFrom(Reoffer(s, importable).offers, p) && p.modifier.None? ==>
        HasShmFormat(s.constraints, p.format))
      <==> WordsServed(s.constraints)
  {
    ReofferPlausible(s, importable);
    ShmPicksServedIff(Reoffer(s, importable));
    OfferedServedIff(s.constraints, s.avoidDmabufs, s.framerate, importable);
  }

  /** DRM_FORMAT_MOD_INVALID, which stands for an implicit modifier, and DRM_FORMAT_MOD_LINEAR. */
  predicate ImplicitOrLinear(modifier: int) {
    modifier == 0x00ff_ffff_ffff_ffff || modifier == 0
  }

  /** The fallback takes the first implicit or linear candidate the old interface can allocate; there
      is none exactly if it can allocate none of them. */
  lemma {:induction false} FirstAloneMeaning(values: seq<int>, alone: seq<Option<int>>)
    requires |alone| == |values|
    ensures FirstAlone(values, alone).None? <==>
      forall i :: 0 <= i < |values| && ImplicitOrLinear(values[i]) ==> alone[i].None?
    ensures FirstAlone(values, alone).Some? ==>
      exists i :: 0 <= i < |values| && ImplicitOrLinear(values[i]) && alone[i] == FirstAlone(values, alone) &&
        forall j :: 0 <= j < i && ImplicitOrLinear(values[j]) ==> alone[j].None?
    decreases |values|
  {
    if values != [] {
      var v, a := values[1..], alone[1..];
      FirstAloneMeaning(v, a);
      if !(TriedAlone(values[0]) && alone[0].Some?) {
        if FirstAlone(v, a).Some? {
          var i :| 0 <= i < |v| && ImplicitOrLinear(v[i]) && a[i] == FirstAlone(v, a) &&
            forall j :: 0 <= j < i && ImplicitOrLinear(v[j]) ==> a[j].None?;
          assert values[i + 1] == v[i] && alone[i + 1] == a[i];
          forall j | 0 <= j < i + 1 && ImplicitOrLinear(values[j]) ensures alone[j].None? {
            assert j > 0 ==> v[j - 1] == values[j] && a[j - 1] == alone[j];
          }
        } else {
          forall i | 0 <= i < |values| && ImplicitOrLinear(values[i]) ensures alone[i].None? {
            assert i > 0 ==> v[i - 1] == values[i] && a[i - 1] == alone[i];
          }
        }
      }
    }
  }

  /** The closed offer for a modifier, in the format that was picked. */
  ghost predicate FixatedFor(o: Offer, s: NegState, p: Pick, modifier: int) {
    && o.format == p.format && o.modifiers == [modifier] && !o.open && o.withoutAlpha == PwUnknown
    && o.width == s.constraints.width && o.height == s.constraints.height && o.maxFramerate == Rate(p)
  }

  /** The modifier to fixate: that of a buffer allocated with the whole list, or else of the first
      implicit or linear candidate that can be allocated alone. */
  ghost predicate Chosen(values: seq<int>, gbm: Gbm, modifier: int)
    requires |gbm.alone| == |values|
  {
    if gbm.together.Some? then modifier == gbm.together.value
    else
      exists i :: 0 <= i < |values| && ImplicitOrLinear(values[i]) && gbm.alone[i] == Some(modifier) &&
        forall j :: 0 <= j < i && ImplicitOrLinear(values[j]) ==> gbm.alone[j].None?
  }

  /** A pick that leaves the modifier open is answered by one closed offer for it, put before all the
      others, or, if nothing can be allocated, by shared memory only; every other pick ends the round,
      and so does picking that closed offer. */
  lemma RoundOutcome(s: NegState, p: Pick, gbm: Gbm, importable: set<Pair>)
    requires AllPlausible(s) && PicksFrom(s.offers, p)
    requires p.modifier.Some? ==> |gbm.alone| == |p.modifier.value.values|
    ensures var v := ParamChanged(s, p, gbm, importable);
      if p.modifier.Some? && p.modifier.value.dontFixate then
        if v.avoidDmabufs then
          && gbm.together.None?
          && (forall i :: 0 <= i < |gbm.alone| && ImplicitOrLinear(p.modifier.value.values[i]) ==> gbm.alone[i].None?)
          && v.offers == Offered(s.constraints, true, Rate(p), importable)
          && forall o :: o in v.offers ==> o.modifiers == []
        else
          && v.offers != [] && v.offers[1..] == Offered(s.constraints, false, Rate(p), importable)
          && |v.offers[0].modifiers| == 1 && FixatedFor(v.offers[0], s, p, v.offers[0].modifiers[0])
          && Chosen(p.modifier.value.values, gbm, v.offers[0].modifiers[0])
          && (forall q :: Answers(v.offers[0], q) ==> !q.modifier.value.dontFixate)
      else v.offers == s.offers && v.avoidDmabufs == s.avoidDmabufs
    ensures var v := ParamChanged(s, p, gbm, importable);
      v.constraints == s.constraints && v.framerate == Rate(p) && (v.bufferType == Dmabuf <==> p.modifier.Some?)
  {
    var v := ParamChanged(s, p, gbm, importable);
    if p.modifier.Some? && p.modifier.value.dontFixate {
      var u := s.(framerate := Rate(p), bufferType := Dmabuf);
      RateNonNegative(s, p);
      var o :| o in s.offers && Answers(o, p);
      assert Plausible(s, o);
      ReofferPlausible(u.(avoidDmabufs := true), importable);
      FirstAloneMeaning(p.modifier.value.values, gbm.alone);
      if v.avoidDmabufs {
        forall x | x in v.offers ensures x.modifiers == [] {
          assert Plausible(v, x);
        }
      }
    }
  }

  // ----- the frame rate -----

  /** max_fps is the configured limit (0 for none), outputFramerate the output's (0 if unknown). */
  function MaxFramerate(maxFps: real, outputFramerate: nat): int {
    if maxFps > 0.0 then
      if outputFramerate == 0 || maxFps < outputFramerate as real then maxFps.Floor else outputFramerate
    else outputFramerate
  }

  /** The limit is never above either bound, and reaches one of them but for rounding down; and it is
      switched off (0) exactly when there is no bound at all, or when the configured one is below one
      frame per second. */
  lemma MaxFramerateBounds(maxFps: real, outputFramerate: nat)
    ensures MaxFramerate(maxFps, outputFramerate) >= 0
    ensures maxFps > 0.0 ==> MaxFramerate(maxFps, outputFramerate) as real <= maxFps
    ensures outputFramerate > 0 ==> MaxFramerate(maxFps, outputFramerate) <= outputFramerate
    ensures MaxFramerate(maxFps, outputFramerate) == 0 <==>
      (maxFps <= 0.0 && outputFramerate == 0) || 0.0 < maxFps < 1.0
    ensures var m := MaxFramerate(maxFps, outputFramerate);
      || (maxFps > 0.0 && maxFps < (m + 1) as real) || (outputFramerate > 0 && m == outputFramerate)
      || (maxFps <= 0.0 && outputFramerate == 0)
  {
  }

  /** All current offers carry the same rate, 0 for none; a rate on offer bounds the current one, and
      then that is not 0. */
  ghost predicate Rated(s: NegState, rate: int) {
    && s.framerate >= 0 && rate >= 0
    && (rate > 0 ==> 0 < s.framerate <= rate)
    && forall o :: o in s.offers ==> o.maxFramerate == rate
  }

  /** A limit at most as high, where 0 means no limit at all. */
  predicate NoHigher(a: int, b: int) {
    b == 0 || 0 < a <= b
  }

  lemma QuotientInRange(num: int, denom: int, max: int)
    requires denom > 0 && denom <= num <= max * denom
    ensures 1 <= num / denom <= max
  {
    var q := num / denom;
    assert q * denom <= num && num < (q + 1) * denom;
    MulCancels(q, max + 1, denom);
    MulCancels(0, q, denom);
  }

  lemma PickedRate(s: NegState, p: Pick, rate: int)
    requires Rated(s, rate) && PicksFrom(s.offers, p)
    ensures Rate(p) >= 0 && NoHigher(Rate(p), rate)
  {
    var o :| o in s.offers && Answers(o, p);
    if rate > 0 {
      QuotientInRange(p.rateNum, p.rateDenom, rate);
    }
  }

  /** After each step the offers carry a rate no higher than before. */
  lemma RatedStep(s: NegState, e: NegEvent, rate: int) returns (after: int)
    requires Rated(s, rate) && Legal(s, e)
    ensures Rated(Stepped(s, e), after) && NoHigher(after, rate)
  {
    var v := Stepped(s, e);
    match e
    case StreamCreated(importable) =>
      ReofferPlausible(s, importable);
      after := s.framerate;
    case NewConstraints(c, importable) =>
      ReofferPlausible(s.(constraints := c), importable);
      after := s.framerate;
    case Replaced(_) => after := rate;
    case Picked(p, gbm, importable) =>
      PickedRate(s, p, rate);
      if p.modifier.Some? && p.modifier.value.dontFixate {
        var u := s.(framerate := Rate(p), bufferType := Dmabuf);
        ReofferPlausible(u, importable);
        ReofferPlausible(u.(avoidDmabufs := true), importable);
        after := Rate(p);
      } else {
        after := rate;
      }
  }

  /** Over every run the rate on offer never rises: what is offered at one moment bounds what is
      offered at every later one. */
  lemma {:induction false} OfferedRateNeverRises(maxFramerate: nat, ss: seq<NegState>, es: seq<NegEvent>,
                                                 i: nat, j: nat, rate: int)
    returns (after: int)
    requires NegRun(maxFramerate, ss, es) && i <= j <= |es| && Rated(ss[i], rate)
    ensures Rated(ss[j], after) && NoHigher(after, rate)
  {
    after := rate;
    if i < j {
      after := OfferedRateNeverRises(maxFramerate, ss, es, i, j - 1, rate);
      after := RatedStep(ss[j - 1], es[j - 1], after);
    }
  }

  /** In every run of a cast with a limit the framerate stays within it and above 0: the limiter
      cannot be switched off. And at any moment of any run one rate is on offer. */
  lemma FramerateEveryRun(maxFramerate: nat, ss: seq<NegState>, es: seq<NegEvent>, i: nat) returns (rate: int)
    requires NegRun(maxFramerate, ss, es) && i <= |es|
    ensures Rated(ss[i], rate) && NoHigher(rate, maxFramerate)
    ensures maxFramerate > 0 ==> 0 < ss[i].framerate <= maxFramerate
  {
    rate := OfferedRateNeverRises(maxFramerate, ss, es, 0, i, maxFramerate);
  }

  function PickOf(o: Offer, num: int, denom: int): Pick {
    Pick(o.format, if o.modifiers == [] then None else Some(ModifierProp([o.modifiers[0]], false)), num, denom)
  }

  /** The framerate itself can rise again, up to the rate on offer, which a finished negotiation
      does not renew: it cannot exactly when there is one and it equals the current rate. */
  lemma FramerateCannotRiseIff(s: NegState, rate: int)
    requires Rated(s, rate) && s.offers != []
    ensures (forall p :: PicksFrom(s.offers, p) ==> Rate(p) <= s.framerate) <==> rate > 0 && rate == s.framerate
  {
    var o := s.offers[0];
    var p := PickOf(o, if rate > 0 then rate else s.framerate + 1, 1);
    assert o in s.offers && Answers(o, p);
    assert PicksFrom(s.offers, p) && Rate(p) == p.rateNum;
    if rate == s.framerate && rate > 0 {
      forall q | PicksFrom(s.offers, q) ensures Rate(q) <= s.framerate {
        PickedRate(s, q, rate);
      }
    }
  }

  /** The next pick cannot switch the limiter off exactly when a rate is on offer: a cast without a
      limit takes whatever rate the consumer brings, none included. */
  lemma LimiterStaysOnIff(s: NegState, rate: int)
    requires Rated(s, rate) && s.offers != []
    ensures (forall p :: PicksFrom(s.offers, p) ==> Rate(p) > 0) <==> rate > 0
  {
    var o := s.offers[0];
    if rate == 0 {
      var p := PickOf(o, 0, 0);
      assert o in s.offers && Answers(o, p);
      assert PicksFrom(s.offers, p) && Rate(p) == 0;
    } else {
      forall p | PicksFrom(s.offers, p) ensures Rate(p) > 0 {
        PickedRate(s, p, rate);
      }
    }
  }
}
