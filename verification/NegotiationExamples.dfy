/** Inputs on which offers and negotiation fail, each with the events by which a backend comes to
    commit the constraints they need. */
module NegotiationExamples {
  import opened Common
  import opened Formats
  import opened Constraints
  import opened Offers
  import opened Negotiation
  import Wlr = WlrScreencopy

  // ----- constraint sets of the ext backend -----

  lemma AfterSnoc(es: seq<SessionEvent>, e: SessionEvent)
    ensures Constraints.After(es + [e]) ==
      Session(Constraints.Handled(Constraints.After(es).pending, e),
              Committed(Constraints.After(es).current, Constraints.After(es).pending, e))
  {
    assert (es + [e])[..|es|] == es;
  }

  /** A session that announces one shm format. */
  function OneShmStream(width: int, height: int, format: int): seq<SessionEvent> {
    [BufferSize(width, height), ShmFormatEvent(format), Done]
  }

  lemma OneShmCommitted(width: int, height: int, format: int)
    requires Supported(DrmFromShm(format))
    ensures Constraints.After(OneShmStream(width, height, format)).current ==
      ConstraintSet([], [ShmFormat(DrmFromShm(format), Stride(DrmFromShm(format), width))], width, height, 0, true)
  {
    var e0, e1 := BufferSize(width, height), ShmFormatEvent(format);
    AfterSnoc([], e0);
    assert [] + [e0] == [e0] && [e0] + [e1] == [e0, e1];
    AfterSnoc([e0], e1);
    assert [e0, e1] + [Done] == OneShmStream(width, height, format);
    AfterSnoc([e0, e1], Done);
    var f := ShmFormat(DrmFromShm(format), 0);
    assert [] + [f] == [f];
    assert WithStrides([f], width) == [ShmFormat(DrmFromShm(format), Stride(DrmFromShm(format), width))];
  }

  // ----- a stride that looks like a format -----

  /** At this width a row of ARGB8888 takes as many bytes as the code of XRGB8888 says. */
  const ODD_WIDTH := 0x0d0c_9496

  /** The stride is offered as a second format, which the constraints do not have. */
  lemma StrideIsOffered()
    ensures var c := Constraints.After(OneShmStream(ODD_WIDTH, 1, WL_SHM_ARGB8888)).current;
      && c.shm == [ShmFormat(ARGB8888, XRGB8888)]
      && FormatsOf(ShmOffers(c, Words(c.shm), 60)) == [PwBGRA, PwBGRx]
      && KnownFormats(Fourccs(c.shm)) == [PwBGRA]
  {
    Codes();
    OneShmCommitted(ODD_WIDTH, 1, WL_SHM_ARGB8888);
    var c := Constraints.After(OneShmStream(ODD_WIDTH, 1, WL_SHM_ARGB8888)).current;
    assert Stride(ARGB8888, ODD_WIDTH) == XRGB8888;
    assert c.shm[1..] == [];
    assert Words(c.shm) == [ARGB8888, XRGB8888] && Fourccs(c.shm) == [ARGB8888];
    assert [ARGB8888, XRGB8888][1..] == [XRGB8888] && [ARGB8888][1..] == [] && [XRGB8888][1..] == [];
    assert KnownFormats([XRGB8888]) == [PwBGRx];
    ShmOffersFormats(c, Words(c.shm), 60);
  }

  // ----- a format whose pairs are scattered -----

  const FIRST_X := Pair(XRGB8888, MOD_INVALID)
  const ONLY_A := Pair(ARGB8888, MOD_INVALID)
  const LAST_X := Pair(XRGB8888, MOD_LINEAR)

  function ScatteredStream(): seq<SessionEvent> {
    [BufferSize(1, 1), DmabufFormat(XRGB8888, [MOD_INVALID]), DmabufFormat(ARGB8888, [MOD_INVALID]),
     DmabufFormat(XRGB8888, [MOD_LINEAR]), Done]
  }

  function Scattered3(): ConstraintSet {
    ConstraintSet([FIRST_X, ONLY_A, LAST_X], [], 1, 1, 0, true)
  }

  lemma PairAdded(c: ConstraintSet, fourcc: int, modifier: int)
    requires Pair(fourcc, modifier) !in c.pairs
    ensures Constraints.Handled(c, DmabufFormat(fourcc, [modifier])) ==
      c.(pairs := c.pairs + [Pair(fourcc, modifier)], dirty := true)
  {
    assert PairsOf(fourcc, [modifier]) == [Pair(fourcc, modifier)];
    assert [Pair(fourcc, modifier)][1..] == [];
    assert AddAbsent(c.pairs + [Pair(fourcc, modifier)], []) == c.pairs + [Pair(fourcc, modifier)];
  }

  lemma ScatteredCommitted()
    ensures Constraints.After(ScatteredStream()).current == Scattered3()
  {
    Codes();
    var es := ScatteredStream();
    assert es[..1] == [] + [es[0]] && es[..2] == es[..1] + [es[1]] && es[..3] == es[..2] + [es[2]];
    assert es[..4] == es[..3] + [es[3]] && es == es[..4] + [es[4]];
    AfterSnoc([], es[0]);
    var c1 := ConstraintSet([], [], 1, 1, 0, true);
    assert Constraints.After(es[..1]) == Session(c1, EMPTY);
    AfterSnoc(es[..1], es[1]);
    PairAdded(c1, XRGB8888, MOD_INVALID);
    var c2 := c1.(pairs := [FIRST_X]);
    assert [] + [FIRST_X] == [FIRST_X];
    assert Constraints.After(es[..2]) == Session(c2, EMPTY);
    AfterSnoc(es[..2], es[2]);
    PairAdded(c2, ARGB8888, MOD_INVALID);
    var c3 := c1.(pairs := [FIRST_X, ONLY_A]);
    assert [FIRST_X] + [ONLY_A] == [FIRST_X, ONLY_A];
    assert Constraints.After(es[..3]) == Session(c3, EMPTY);
    AfterSnoc(es[..3], es[3]);
    PairAdded(c3, XRGB8888, MOD_LINEAR);
    assert [FIRST_X, ONLY_A] + [LAST_X] == [FIRST_X, ONLY_A, LAST_X];
    assert Constraints.After(es[..4]) == Session(Scattered3(), EMPTY);
    AfterSnoc(es[..4], es[4]);
    assert WithStrides([], 1) == [];
  }

  lemma UsableCons(p: Pair, rest: seq<Pair>, f: int, importable: set<Pair>)
    ensures UsableModifiers([p] + rest, f, importable) ==
      (if Usable(p, f, importable) then [p.modifier] else []) + UsableModifiers(rest, f, importable)
  {
    assert ([p] + rest)[1..] == rest;
  }

  lemma DmabufOffersCons(c: ConstraintSet, p: Pair, rest: seq<Pair>, last: int, importable: set<Pair>,
                         modifiers: seq<int>)
    requires last != p.fourcc && Known(p.fourcc)
    requires UsableModifiers(c.pairs, p.fourcc, importable) == modifiers != []
    ensures DmabufOffers(c, [p] + rest, last, 60, importable) ==
      [OfferOf(c, PwFromDrm(p.fourcc), modifiers, 60)] + DmabufOffers(c, rest, p.fourcc, 60, importable)
  {
    assert ([p] + rest)[1..] == rest;
  }

  lemma ScatteredUsable()
    ensures UsableModifiers(Scattered3().pairs, XRGB8888, {LAST_X}) == [MOD_INVALID, MOD_LINEAR]
    ensures UsableModifiers(Scattered3().pairs, ARGB8888, {LAST_X}) == [MOD_INVALID]
  {
    Codes();
    assert Scattered3().pairs == [FIRST_X] + ([ONLY_A] + ([LAST_X] + []));
    forall f ensures UsableModifiers(Scattered3().pairs, f, {LAST_X}) ==
      (if f == XRGB8888 then [MOD_INVALID] else []) + ((if f == ARGB8888 then [MOD_INVALID] else []) +
        ((if f == XRGB8888 then [MOD_LINEAR] else []) + UsableModifiers([], f, {LAST_X})))
    {
      UsableCons(LAST_X, [], f, {LAST_X});
      UsableCons(ONLY_A, [LAST_X] + [], f, {LAST_X});
      UsableCons(FIRST_X, [ONLY_A] + ([LAST_X] + []), f, {LAST_X});
    }
  }

  /** A session announces two modifiers of one format with another format in between: the format is
      offered twice, the same both times. */
  lemma ScatteredOfferedTwice()
    ensures var c := Constraints.After(ScatteredStream()).current;
      var offers := DmabufOffers(c, c.pairs, INVALID, 60, {LAST_X});
      && |offers| == 3 && offers[0] == offers[2] && offers[0].format == PwBGRx != offers[1].format
      && TimesOffered(offers, PwBGRx) == 2
  {
    Codes();
    ScatteredCommitted();
    ScatteredUsable();
    var c := Scattered3();
    assert c.pairs == [FIRST_X] + ([ONLY_A] + ([LAST_X] + []));
    var both := [MOD_INVALID, MOD_LINEAR];
    DmabufOffersCons(c, LAST_X, [], ARGB8888, {LAST_X}, both);
    DmabufOffersCons(c, ONLY_A, [LAST_X] + [], XRGB8888, {LAST_X}, [MOD_INVALID]);
    DmabufOffersCons(c, FIRST_X, [ONLY_A] + ([LAST_X] + []), INVALID, {LAST_X}, both);
    var x, a := OfferOf(c, PwBGRx, both, 60), OfferOf(c, PwBGRA, [MOD_INVALID], 60);
    assert DmabufOffers(c, c.pairs, INVALID, 60, {LAST_X}) == [x, a, x];
    TimesOfferedAppend([x], [a, x], PwBGRx);
    TimesOfferedAppend([a], [x], PwBGRx);
    assert [x, a, x] == [x] + [a, x] && [a, x] == [a] + [x];
  }

  // ----- a frame rate that rises again -----

  lemma OneShmOffer(c: ConstraintSet, f: int, stride: int, framerate: int)
    requires c.pairs == [] && c.shm == [ShmFormat(f, stride)] && Known(f) && !Known(stride)
    ensures Offered(c, false, framerate, {}) == [OfferOf(c, PwFromDrm(f), [], framerate)]
  {
    assert c.shm[1..] == [] && Words(c.shm) == [f, stride];
    assert [f, stride][1..] == [stride] && [stride][1..] == [];
    assert ShmOffers(c, [stride], framerate) == [];
    assert DmabufOffers(c, c.pairs, INVALID, framerate, {}) == [];
  }

  function OneShm(f: int): ConstraintSet {
    ConstraintSet([], [ShmFormat(f, 400)], 100, 100, 0, true)
  }

  /** What an ext session with one 32-bit shm format commits, and what is offered then. */
  lemma OneShmOffered(format: int)
    requires format == WL_SHM_ARGB8888 || format == WL_SHM_XRGB8888
    ensures Constraints.After(OneShmStream(100, 100, format)).current == OneShm(DrmFromShm(format))
    ensures Offered(OneShm(DrmFromShm(format)), false, 60, {}) ==
      [OfferOf(OneShm(DrmFromShm(format)), PwFromDrm(DrmFromShm(format)), [], 60)]
  {
    Codes();
    OneShmCommitted(100, 100, format);
    OneShmOffer(OneShm(DrmFromShm(format)), DrmFromShm(format), 400, 60);
  }

  function Start(): NegState {
    NegState(EMPTY, false, 60, WlShm, [])
  }

  lemma RateRises(c: ConstraintSet, offer: Offer) returns (ss: seq<NegState>, es: seq<NegEvent>)
    requires Offered(c, false, 60, {}) == [offer] && offer.modifiers == [] && offer.maxFramerate == 60
    ensures NegRun(60, ss, es) && |es| == 3 && es[0] == NewConstraints(c, {})
    ensures ss[2].framerate == 30 && ss[3].framerate == 60
  {
    var thirty, sixty := Pick(offer.format, None, 30, 1), Pick(offer.format, None, 60, 1);
    es := [NewConstraints(c, {}), Picked(thirty, Gbm(None, []), {}), Picked(sixty, Gbm(None, []), {})];
    var s1 := Stepped(Start(), es[0]);
    assert offer in s1.offers && Answers(offer, thirty) && Answers(offer, sixty);
    ss := [Start(), s1, Stepped(s1, es[1]), Stepped(Stepped(s1, es[1]), es[2])];
  }

  /** An ext session with one shm format: 60 frames per second offered, 30 picked, then 60 again. */
  lemma FramerateCanRise() returns (ss: seq<NegState>, es: seq<NegEvent>)
    ensures NegRun(60, ss, es) && |es| == 3
    ensures es[0] == NewConstraints(Constraints.After(OneShmStream(100, 100, WL_SHM_XRGB8888)).current, {})
    ensures ss[2].framerate == 30 && ss[3].framerate == 60
  {
    OneShmOffered(WL_SHM_XRGB8888);
    var c := OneShm(DrmFromShm(WL_SHM_XRGB8888));
    ss, es := RateRises(c, OfferOf(c, PwFromDrm(DrmFromShm(WL_SHM_XRGB8888)), [], 60));
  }

  // ----- a pick no buffer can be created for -----

  lemma OnePick(c: ConstraintSet, offer: Offer, p: Pick) returns (ss: seq<NegState>, es: seq<NegEvent>)
    requires Offered(c, false, 60, {}) == [offer] && Answers(offer, p) && p.modifier.None?
    ensures NegRun(60, ss, es) && |es| == 2 && es[0] == NewConstraints(c, {})
    ensures es[1] == Picked(p, Gbm(None, []), {}) && ss[2].constraints == c
  {
    es := [NewConstraints(c, {}), Picked(p, Gbm(None, []), {})];
    var s1 := Stepped(Start(), es[0]);
    assert offer in s1.offers;
    ss := [Start(), s1, Stepped(s1, es[1])];
  }

  /** An ext session with one format with alpha: the consumer may pick it without, which no entry of
      the constraints has. */
  lemma PickWithoutAlphaHasNoBuffer() returns (ss: seq<NegState>, es: seq<NegEvent>)
    ensures NegRun(60, ss, es) && |es| == 2
    ensures es[0] == NewConstraints(Constraints.After(OneShmStream(100, 100, WL_SHM_ARGB8888)).current, {})
    ensures es[1].Picked? && es[1].pick.modifier.None? && !HasShmFormat(ss[2].constraints, es[1].pick.format)
  {
    OneShmOffered(WL_SHM_ARGB8888);
    AlphaIsStripped();
    var c := OneShm(DrmFromShm(WL_SHM_ARGB8888));
    ss, es := OnePick(c, OfferOf(c, PwFromDrm(DrmFromShm(WL_SHM_ARGB8888)), [], 60), Pick(PwBGRx, None, 60, 1));
  }

  lemma AlphaIsStripped()
    ensures StripAlpha(PwFromDrm(DrmFromShm(WL_SHM_ARGB8888))) == PwBGRx
    ensures DrmFromPw(PwBGRx) !in Fourccs(OneShm(DrmFromShm(WL_SHM_ARGB8888)).shm)
  {
    Codes();
  }

  // ----- constraints replaced under an offer -----

  const SHM_ENTRY := ShmFormat(XRGB8888, 4)
  const HELD := Wlr.HeldBuffer(false, XRGB8888, 1, 1, 4, 0)

  function WithPairs(pairs: seq<Pair>): ConstraintSet {
    ConstraintSet(pairs, [SHM_ENTRY], 1, 1, 0, true)
  }

  function WlrSetup(): Wlr.Setup {
    Wlr.Setup(3, [FIRST_X])
  }

  /** A first frame has announced both kinds of buffers; the cast is streaming now. */
  function Announced(id1: Wlr.FrameId): Wlr.Backend {
    Wlr.Backend(Wlr.WlrState(EMPTY, WithPairs([FIRST_X]), true, true, Some(HELD), None), None, {id1},
                [Wlr.Sent(Wlr.Destroy(id1), EMPTY, WithPairs([FIRST_X]), EMPTY)])
  }

  /** Before the cast is initialized the first frame commits what it announced. */
  function FirstCommitted(id1: Wlr.FrameId): Wlr.Backend {
    Announced(id1).(s := Wlr.WlrState(EMPTY, WithPairs([FIRST_X]), false, false, None, None))
  }

  lemma FirstCommittedReachable(id1: Wlr.FrameId) returns (bs: seq<Wlr.Backend>, es: seq<Wlr.WlrEvent>)
    ensures Wlr.BackendRun(WlrSetup(), bs, es) && |es| == 4 && es[3] == Wlr.BufferDoneEvent
    ensures bs[4] == FirstCommitted(id1)
  {
    Codes();
    var cfg := WlrSetup();
    es := [Wlr.Capture(id1), Wlr.Buffer(WL_SHM_XRGB8888, 1, 1, 4), Wlr.LinuxDmabuf(XRGB8888, 1, 1),
           Wlr.BufferDoneEvent];
    var b0 := Wlr.Backend(Wlr.WlrState(EMPTY, EMPTY, false, false, None, None), None, {}, []);
    var b1 := Wlr.Advance(cfg, b0, es[0]);
    var b2 := Wlr.Advance(cfg, b1, es[1]);
    assert [] + [SHM_ENTRY] == [SHM_ENTRY];
    assert b2.s.pending == WithPairs([]) && b2.live.value.report == WithPairs([]);
    assert cfg.known[1..] == [] && Wlr.PairsWith(cfg.known, XRGB8888) == [FIRST_X];
    var b3 := Wlr.Advance(cfg, b2, es[2]);
    assert [] + [FIRST_X] == [FIRST_X];
    assert b3.s.pending == WithPairs([FIRST_X]) && b3.live.value.report == WithPairs([FIRST_X]);
    var b4 := Wlr.Advance(cfg, b3, es[3]);
    assert b4.log == Announced(id1).log;
    bs := [b0, b1, b2, b3, b4];
  }

  lemma AnnouncedReachable(id1: Wlr.FrameId) returns (bs: seq<Wlr.Backend>, es: seq<Wlr.WlrEvent>)
    ensures Wlr.BackendRun(WlrSetup(), bs, es) && |es| == 7 && es[3] == Wlr.BufferDoneEvent
    ensures bs[4].s.current == WithPairs([FIRST_X]) && bs[7] == Announced(id1)
  {
    var cfg := WlrSetup();
    bs, es := FirstCommittedReachable(id1);
    var more := [Wlr.Initialize, Wlr.Stream(true), Wlr.Hold(Some(HELD))];
    var b5 := Wlr.Advance(cfg, bs[4], more[0]);
    var b6 := Wlr.Advance(cfg, b5, more[1]);
    bs, es := bs + [b5, b6, Wlr.Advance(cfg, b6, more[2])], es + more;
  }

  /** The next frame announces shm only. The held shm buffer still fits, so it is copied into and the
      new constraints, which have lost their pairs, are committed without a new offer. */
  lemma PairsDropSilently(id1: Wlr.FrameId, id2: Wlr.FrameId) returns (bs: seq<Wlr.Backend>, es: seq<Wlr.WlrEvent>)
    requires id1 != id2
    ensures Wlr.BackendRun(WlrSetup(), bs, es) && |es| == 10
    ensures es[3] == Wlr.BufferDoneEvent && bs[4].s.current == WithPairs([FIRST_X])
    ensures es[9] == Wlr.BufferDoneEvent && bs[10].s.current == WithPairs([])
    ensures !Wlr.Reoffers(bs[9].s) && bs[10].log != []
    ensures bs[10].log[|bs[10].log| - 1].request == Wlr.CopyWithDamage(id2, HELD)
  {
    Codes();
    var cfg := WlrSetup();
    bs, es := AnnouncedReachable(id1);
    var more := [Wlr.Capture(id2), Wlr.Buffer(WL_SHM_XRGB8888, 1, 1, 4), Wlr.BufferDoneEvent];
    var b8 := Wlr.Advance(cfg, bs[7], more[0]);
    var b9 := Wlr.Advance(cfg, b8, more[1]);
    assert [] + [SHM_ENTRY] == [SHM_ENTRY];
    assert b9.s.pending == WithPairs([]);
    assert WithPairs([]).shm[0] == SHM_ENTRY;
    var b10 := Wlr.Advance(cfg, b9, more[2]);
    bs, es := bs + [b8, b9, b10], es + more;
  }

  lemma BothKindsOffered()
    ensures Offered(WithPairs([FIRST_X]), false, 60, {}) ==
      [OfferOf(WithPairs([FIRST_X]), PwBGRx, [MOD_INVALID], 60), OfferOf(WithPairs([FIRST_X]), PwBGRx, [], 60)]
  {
    Codes();
    var c := WithPairs([FIRST_X]);
    assert c.pairs[1..] == [] && c.shm[1..] == [];
    assert UsableModifiers(c.pairs, XRGB8888, {}) == [MOD_INVALID];
    assert DmabufOffers(c, c.pairs, INVALID, 60, {}) == [OfferOf(c, PwBGRx, [MOD_INVALID], 60)];
    assert Words(c.shm) == [XRGB8888, 4] && [XRGB8888, 4][1..] == [4] && [4][1..] == [];
    assert ShmOffers(c, [4], 60) == [];
    assert ShmOffers(c, Words(c.shm), 60) == [OfferOf(c, PwBGRx, [], 60)];
  }

  /** The negotiation over those constraints: the consumer takes shared memory, the pairs are dropped
      under the standing offer, and it picks a dmabuf after all. */
  lemma DroppedPairsTrip() returns (ss: seq<NegState>, es: seq<NegEvent>)
    ensures NegRun(60, ss, es) && |es| == 5
    ensures es[0] == Replaced(WithPairs([FIRST_X])) && es[3] == Replaced(WithPairs([]))
    ensures es[4].Picked? && es[4].pick.modifier.Some?
    ensures !HasDrmFourcc(ss[4], DrmFromPw(es[4].pick.format))
  {
    BothKindsOffered();
    var c := WithPairs([FIRST_X]);
    var shm := Pick(PwBGRx, None, 60, 1);
    var p := Pick(PwBGRx, Some(ModifierProp([MOD_INVALID], false)), 60, 1);
    es := [Replaced(c), StreamCreated({}), Picked(shm, Gbm(None, []), {}), Replaced(WithPairs([])),
           Picked(p, Gbm(None, [None]), {})];
    var s1 := Stepped(Start(), es[0]);
    var s2 := Stepped(s1, es[1]);
    var dmabuf, plain := OfferOf(c, PwBGRx, [MOD_INVALID], 60), OfferOf(c, PwBGRx, [], 60);
    assert s2.offers == [dmabuf, plain];
    assert dmabuf in s2.offers && Answers(dmabuf, p) && plain in s2.offers && Answers(plain, shm);
    var s3 := Stepped(s2, es[2]);
    var s4 := Stepped(s3, es[3]);
    assert s4.offers == s2.offers;
    ss := [Start(), s1, s2, s3, s4, Stepped(s4, es[4])];
  }

  /** Together: a run of the wlr backend and a negotiation over what it commits, without a new offer,
      that ends in a legal pick for which the fourcc assertion fails. */
  lemma SilentReplacementTrips(id1: Wlr.FrameId, id2: Wlr.FrameId)
    returns (ss: seq<NegState>, es: seq<NegEvent>, bs: seq<Wlr.Backend>, ws: seq<Wlr.WlrEvent>)
    requires id1 != id2
    ensures Wlr.BackendRun(WlrSetup(), bs, ws) && |ws| == 10
    ensures ws[3] == Wlr.BufferDoneEvent && ws[9] == Wlr.BufferDoneEvent && !Wlr.Reoffers(bs[9].s)
    ensures NegRun(60, ss, es) && |es| == 5
    ensures es[0] == Replaced(bs[4].s.current) && es[3] == Replaced(bs[10].s.current)
    ensures es[4].Picked? && es[4].pick.modifier.Some?
    ensures !HasDrmFourcc(ss[4], DrmFromPw(es[4].pick.format))
  {
    bs, ws := PairsDropSilently(id1, id2);
    ss, es := DroppedPairsTrip();
  }
}
