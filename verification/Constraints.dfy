/** Buffer constraints: a pending set filled by session events, committed as a whole. */
module Constraints {
  import opened Common
  import opened Formats

  const TWO_TO_32 := 0x1_0000_0000

  datatype Pair = Pair(fourcc: int, modifier: int)

  datatype ShmFormat = ShmFormat(fourcc: int, stride: int)

  datatype ConstraintSet = ConstraintSet(
    pairs: seq<Pair>, shm: seq<ShmFormat>, width: int, height: int, device: int, dirty: bool)

  const EMPTY := ConstraintSet([], [], 0, 0, 0, false)

  datatype SessionEvent =
    | BufferSize(width: int, height: int)
    | ShmFormatEvent(format: int)
    | DmabufDevice(device: int)
    | DmabufFormat(format: int, modifiers: seq<int>)
    | Done

  function Fourccs(shm: seq<ShmFormat>): seq<int> {
    seq(|shm|, i requires 0 <= i < |shm| => shm[i].fourcc)
  }

  predicate Supported(fourcc: int) {
    Bpp(fourcc) > 0
  }

  /** The unsigned 32-bit product the source computes. */
  function Stride(fourcc: int, width: int): int {
    (Bpp(fourcc) * width) % TWO_TO_32
  }

  function WithStrides(shm: seq<ShmFormat>, width: int): seq<ShmFormat> {
    seq(|shm|, i requires 0 <= i < |shm| => ShmFormat(shm[i].fourcc, Stride(shm[i].fourcc, width)))
  }

  function PairsOf(format: int, modifiers: seq<int>): seq<Pair> {
    seq(|modifiers|, i requires 0 <= i < |modifiers| => Pair(format, modifiers[i]))
  }

  // ----- the objects the source updates -----

  class BufferConstraints {
    var pairs: seq<Pair>
    var shm: seq<ShmFormat>
    var width: int
    var height: int
    var device: int
    var dirty: bool

    ghost function View(): ConstraintSet
      reads this
    {
      ConstraintSet(pairs, shm, width, height, device, dirty)
    }

    constructor ()
      ensures View() == EMPTY
    {
      pairs, shm, width, height, device, dirty := [], [], 0, 0, 0, false;
    }

    method Init()
      modifies this
      ensures View() == EMPTY
    {
      pairs, shm, width, height, device, dirty := [], [], 0, 0, 0, false;
    }

    /** xdpw_buffer_constraints_move. */
    method MoveFrom(src: BufferConstraints) returns (moved: bool)
      requires src != this
      modifies this, src
      ensures moved == old(src.dirty)
      ensures View() == if moved then old(src.View()) else old(View())
      ensures src.View() == if moved then EMPTY else old(src.View())
    {
      if !src.dirty {
        return false;
      }
      moved := src.dirty;
      pairs, shm := src.pairs, src.shm;
      width, height, device, dirty := src.width, src.height, src.device, src.dirty;
      src.Init();
    }
  }

  /** What one event does to the pending and the current set. */
  function Handled(pending: ConstraintSet, e: SessionEvent): ConstraintSet {
    match e
    case BufferSize(w, h) => pending.(width := w, height := h, dirty := true)
    case ShmFormatEvent(format) =>
      var fourcc := DrmFromShm(format);
      if fourcc in Fourccs(pending.shm) || !Supported(fourcc) then pending
      else pending.(shm := pending.shm + [ShmFormat(fourcc, 0)], dirty := true)
    case DmabufDevice(d) => pending.(device := d, dirty := true)
    case DmabufFormat(format, modifiers) =>
      pending.(pairs := AddAbsent(pending.pairs, PairsOf(format, modifiers)), dirty := true)
    case Done => if pending.dirty then EMPTY else pending.(shm := WithStrides(pending.shm, pending.width))
  }

  function Committed(current: ConstraintSet, pending: ConstraintSet, e: SessionEvent): ConstraintSet {
    if e.Done? && pending.dirty then pending.(shm := WithStrides(pending.shm, pending.width)) else current
  }

  class ExtSession {
    const pending: BufferConstraints
    const current: BufferConstraints

    /** Only supported formats are ever pending, so the assertion on their size holds. */
    ghost predicate Valid()
      reads this, pending, current
    {
      pending != current && forall i :: 0 <= i < |pending.shm| ==> Supported(pending.shm[i].fourcc)
    }

    constructor ()
      ensures Valid() && pending.View() == EMPTY && current.View() == EMPTY
    {
      var p := new BufferConstraints();
      var c := new BufferConstraints();
      pending, current := p, c;
    }

    method HandleBufferSize(width: int, height: int)
      requires Valid()
      modifies pending
      ensures Valid() && pending.View() == Handled(old(pending.View()), BufferSize(width, height))
    {
      pending.width := width;
      pending.height := height;
      pending.dirty := true;
    }

    method HandleShmFormat(format: int)
      requires Valid()
      modifies pending
      ensures Valid() && pending.View() == Handled(old(pending.View()), ShmFormatEvent(format))
    {
      var fourcc := DrmFromShm(format);
      for i := 0 to |pending.shm|
        invariant pending.View() == old(pending.View())
        invariant forall j :: 0 <= j < i ==> pending.shm[j].fourcc != fourcc
      {
        if pending.shm[i].fourcc == fourcc {
          assert Fourccs(pending.shm)[i] == fourcc;
          return;
        }
      }
      assert forall j :: 0 <= j < |pending.shm| ==> Fourccs(pending.shm)[j] != fourcc;
      if Bpp(fourcc) <= 0 {
        return;
      }
      pending.shm := pending.shm + [ShmFormat(fourcc, 0)];
      pending.dirty := true;
    }

    method HandleDmabufDevice(device: int)
      requires Valid()
      modifies pending
      ensures Valid() && pending.View() == Handled(old(pending.View()), DmabufDevice(device))
    {
      pending.device := device;
      pending.dirty := true;
    }

    method HandleDmabufFormat(format: int, modifiers: seq<int>)
      requires Valid()
      modifies pending
      ensures Valid() && pending.View() == Handled(old(pending.View()), DmabufFormat(format, modifiers))
    {
      var all := PairsOf(format, modifiers);
      assert all[0..] == all;
      for k := 0 to |modifiers|
        modifies pending`pairs
        invariant AddAbsent(pending.pairs, all[k..]) == AddAbsent(old(pending.pairs), all)
      {
        var pair := Pair(format, modifiers[k]);
        assert all[k..][0] == pair && all[k..][1..] == all[k + 1..];
        var isNew := true;
        var i := 0;
        while i < |pending.pairs| && isNew
          invariant 0 <= i <= |pending.pairs|
          invariant isNew ==> forall j :: 0 <= j < i ==> pending.pairs[j] != pair
          invariant !isNew ==> pair in pending.pairs
          decreases |pending.pairs| - i, isNew
        {
          if pending.pairs[i].fourcc == format && pending.pairs[i].modifier == modifiers[k] {
            isNew := false;
          } else {
            i := i + 1;
          }
        }
        if isNew {
          pending.pairs := pending.pairs + [pair];
        }
      }
      pending.dirty := true;
    }

    method HandleDone() returns (changed: bool)
      requires Valid()
      modifies pending, current
      ensures Valid() && pending.View() == Handled(old(pending.View()), Done)
      ensures current.View() == Committed(old(current.View()), old(pending.View()), Done)
      ensures changed == old(pending.dirty)
    {
      for i := 0 to |pending.shm|
        modifies pending`shm
        invariant |pending.shm| == |old(pending.shm)| && Valid()
        invariant forall j :: i <= j < |pending.shm| ==> pending.shm[j] == old(pending.shm)[j]
        invariant forall j :: 0 <= j < i ==>
          pending.shm[j] == ShmFormat(old(pending.shm)[j].fourcc, Stride(old(pending.shm)[j].fourcc, pending.width))
      {
        var bpp := Bpp(pending.shm[i].fourcc);
        assert bpp > 0;
        pending.shm := pending.shm[i := pending.shm[i].(stride := (bpp * pending.width) % TWO_TO_32)];
      }
      assert pending.shm == WithStrides(old(pending.shm), pending.width);
      changed := current.MoveFrom(pending);
    }
  }

  // ----- whole event streams -----

  datatype Session = Session(pending: ConstraintSet, current: ConstraintSet)

  function After(es: seq<SessionEvent>): Session {
    if es == [] then Session(EMPTY, EMPTY)
    else
      var s := After(es[..|es| - 1]);
      var e := es[|es| - 1];
      Session(Handled(s.pending, e), Committed(s.current, s.pending, e))
  }

  /** The events after the last done. */
  function Open(es: seq<SessionEvent>): seq<SessionEvent> {
    if es == [] then []
    else if es[|es| - 1].Done? then []
    else Open(es[..|es| - 1]) + [es[|es| - 1]]
  }

  predicate Changes(e: SessionEvent) {
    match e
    case ShmFormatEvent(format) => Supported(DrmFromShm(format))
    case Done => false
    case _ => true
  }

  predicate Dirty(batch: seq<SessionEvent>) {
    exists i :: 0 <= i < |batch| && Changes(batch[i])
  }

  /** The last batch ended by a done that changed anything. */
  function LastDirtyBatch(es: seq<SessionEvent>): Option<seq<SessionEvent>> {
    if es == [] then None
    else
      var before := es[..|es| - 1];
      if es[|es| - 1].Done? && Dirty(Open(before)) then Some(Open(before)) else LastDirtyBatch(before)
  }

  // what a batch says, each part read off the batch on its own

  function AnnouncedPairs(batch: seq<SessionEvent>): seq<Pair> {
    if batch == [] then []
    else
      var e := batch[|batch| - 1];
      AnnouncedPairs(batch[..|batch| - 1]) +
        if e.DmabufFormat? then PairsOf(e.format, e.modifiers) else []
  }

  function AnnouncedShm(batch: seq<SessionEvent>): seq<int> {
    if batch == [] then []
    else
      var e := batch[|batch| - 1];
      AnnouncedShm(batch[..|batch| - 1]) +
        if e.ShmFormatEvent? && Supported(DrmFromShm(e.format)) then [DrmFromShm(e.format)] else []
  }

  function LastSize(batch: seq<SessionEvent>): (int, int) {
    if batch == [] then (0, 0)
    else
      var e := batch[|batch| - 1];
      if e.BufferSize? then (e.width, e.height) else LastSize(batch[..|batch| - 1])
  }

  function LastDevice(batch: seq<SessionEvent>): int {
    if batch == [] then 0
    else
      var e := batch[|batch| - 1];
      if e.DmabufDevice? then e.device else LastDevice(batch[..|batch| - 1])
  }

  /** The fold of a batch: everything announced in it once, in order, for its last size. */
  ghost predicate Folds(c: ConstraintSet, batch: seq<SessionEvent>) {
    && c.pairs == Dedup(AnnouncedPairs(batch))
    && Fourccs(c.shm) == Dedup(AnnouncedShm(batch))
    && (c.width, c.height) == LastSize(batch)
    && c.device == LastDevice(batch)
    && c.dirty == Dirty(batch)
  }

  lemma DirtySnoc(batch: seq<SessionEvent>, e: SessionEvent)
    ensures Dirty(batch + [e]) <==> Dirty(batch) || Changes(e)
  {
    var all := batch + [e];
    assert all[|batch|] == e;
    if i :| 0 <= i < |batch| && Changes(batch[i]) {
      assert all[i] == batch[i];
    }
  }

  lemma AnnouncedSnoc(batch: seq<SessionEvent>, e: SessionEvent)
    ensures AnnouncedPairs(batch + [e]) ==
      AnnouncedPairs(batch) + if e.DmabufFormat? then PairsOf(e.format, e.modifiers) else []
    ensures AnnouncedShm(batch + [e]) ==
      AnnouncedShm(batch) + if e.ShmFormatEvent? && Supported(DrmFromShm(e.format)) then [DrmFromShm(e.format)] else []
    ensures LastSize(batch + [e]) == if e.BufferSize? then (e.width, e.height) else LastSize(batch)
    ensures LastDevice(batch + [e]) == if e.DmabufDevice? then e.device else LastDevice(batch)
  {
    assert (batch + [e])[..|batch|] == batch;
  }

  lemma FoldsSnocShm(c: ConstraintSet, batch: seq<SessionEvent>, e: SessionEvent)
    requires Folds(c, batch) && e.ShmFormatEvent?
    ensures Folds(Handled(c, e), batch + [e])
  {
    AnnouncedSnoc(batch, e);
    DirtySnoc(batch, e);
    assert AnnouncedPairs(batch) + [] == AnnouncedPairs(batch);
    var fourcc := DrmFromShm(e.format);
    OnlySupported(batch);
    DedupMembers(AnnouncedShm(batch));
    if Supported(fourcc) {
      DedupSnoc(AnnouncedShm(batch), fourcc);
      if fourcc in Dedup(AnnouncedShm(batch)) {
        KnownShmIsDirty(batch, fourcc);
      } else {
        assert Fourccs(c.shm + [ShmFormat(fourcc, 0)]) == Fourccs(c.shm) + [fourcc];
      }
    } else {
      assert AnnouncedShm(batch) + [] == AnnouncedShm(batch);
    }
  }

  lemma FoldsSnoc(c: ConstraintSet, batch: seq<SessionEvent>, e: SessionEvent)
    requires Folds(c, batch) && !e.Done?
    ensures Folds(Handled(c, e), batch + [e])
  {
    if e.ShmFormatEvent? {
      FoldsSnocShm(c, batch, e);
    } else {
      AnnouncedSnoc(batch, e);
      DirtySnoc(batch, e);
      assert AnnouncedShm(batch) + [] == AnnouncedShm(batch);
      if e.DmabufFormat? {
        AddAbsentDedup(AnnouncedPairs(batch), PairsOf(e.format, e.modifiers));
      } else {
        assert AnnouncedPairs(batch) + [] == AnnouncedPairs(batch);
      }
    }
  }

  lemma {:induction false} KnownShmIsDirty(batch: seq<SessionEvent>, fourcc: int)
    requires fourcc in AnnouncedShm(batch)
    ensures Dirty(batch)
  {
    var before, e := batch[..|batch| - 1], batch[|batch| - 1];
    assert batch == before + [e];
    DirtySnoc(before, e);
    if !Changes(e) {
      KnownShmIsDirty(before, fourcc);
    } else if !e.ShmFormatEvent? {
      KnownShmIsDirty(before, fourcc);
    }
  }

  lemma {:induction false} OnlySupported(batch: seq<SessionEvent>)
    ensures forall i :: 0 <= i < |AnnouncedShm(batch)| ==> Supported(AnnouncedShm(batch)[i])
  {
    if batch != [] {
      OnlySupported(batch[..|batch| - 1]);
    }
  }

  /** At every moment the pending set is the fold of the events since the last done alone; a clean
      one is empty; and what is committed is the fold of the last dirty batch, with each stride
      computed from that batch's own width, whichever order its events came in. */
  lemma {:induction false} ConstraintsFollowBatches(es: seq<SessionEvent>)
    ensures Folds(After(es).pending, Open(es))
    ensures !After(es).pending.dirty ==> After(es).pending == EMPTY
    ensures LastDirtyBatch(es).None? ==> After(es).current == EMPTY
    ensures LastDirtyBatch(es).Some? ==>
      var c := After(es).current;
      && Folds(c, LastDirtyBatch(es).value)
      && forall i :: 0 <= i < |c.shm| ==> c.shm[i].stride == Stride(c.shm[i].fourcc, c.width)
  {
    if es == [] {
      assert Fourccs([]) == [];
    } else {
      var before, e := es[..|es| - 1], es[|es| - 1];
      var s := After(before);
      ConstraintsFollowBatches(before);
      if e.Done? {
        assert Fourccs(WithStrides(s.pending.shm, s.pending.width)) == Fourccs(s.pending.shm);
        assert WithStrides([], 0) == [] && Fourccs([]) == [];
      } else {
        FoldsSnoc(s.pending, Open(before), e);
        CleanBatchChangesNothing(s.pending, e);
      }
    }
  }

  lemma CleanBatchChangesNothing(c: ConstraintSet, e: SessionEvent)
    requires !e.Done?
    ensures Handled(c, e).dirty || Handled(c, e) == c
  {
  }

  /** Committed constraints never repeat a format, and their strides are exact unless the product
      leaves 32 bits. */
  lemma CommittedAreClean(es: seq<SessionEvent>)
    ensures NoDup(After(es).current.pairs) && NoDup(Fourccs(After(es).current.shm))
    ensures forall i :: 0 <= i < |After(es).current.shm| ==>
      var c := After(es).current;
      && Bpp(c.shm[i].fourcc) > 0
      && (0 <= Bpp(c.shm[i].fourcc) * c.width < TWO_TO_32 <==>
            c.shm[i].stride == Bpp(c.shm[i].fourcc) * c.width)
  {
    ConstraintsFollowBatches(es);
    var c := After(es).current;
    if LastDirtyBatch(es).Some? {
      var batch := LastDirtyBatch(es).value;
      DedupMembers(AnnouncedPairs(batch));
      DedupMembers(AnnouncedShm(batch));
      OnlySupported(batch);
      forall i | 0 <= i < |c.shm| ensures Bpp(c.shm[i].fourcc) > 0 {
        assert Fourccs(c.shm)[i] in AnnouncedShm(batch);
      }
    }
  }

  // ----- the committed sets, read off the events -----

  /** The events of the last dirty batch, none if there was none. */
  function CommittedBatch(es: seq<SessionEvent>): seq<SessionEvent> {
    if LastDirtyBatch(es).Some? then LastDirtyBatch(es).value else []
  }

  ghost predicate AnnouncesPair(batch: seq<SessionEvent>, fourcc: int, modifier: int) {
    exists k, m :: 0 <= k < |batch| && batch[k].DmabufFormat? && 0 <= m < |batch[k].modifiers| &&
      batch[k].format == fourcc && batch[k].modifiers[m] == modifier
  }

  ghost predicate AnnouncesShm(batch: seq<SessionEvent>, fourcc: int) {
    Bpp(fourcc) > 0 && exists k :: 0 <= k < |batch| && batch[k].ShmFormatEvent? && DrmFromShm(batch[k].format) == fourcc
  }

  lemma {:induction false} AnnouncedPairIff(batch: seq<SessionEvent>, p: Pair)
    ensures p in AnnouncedPairs(batch) <==> AnnouncesPair(batch, p.fourcc, p.modifier)
  {
    if batch != [] {
      var n := |batch| - 1;
      var before, e := batch[..n], batch[n];
      AnnouncedPairIff(before, p);
      if AnnouncesPair(before, p.fourcc, p.modifier) {
        var k, m :| 0 <= k < |before| && before[k].DmabufFormat? && 0 <= m < |before[k].modifiers| &&
          before[k].format == p.fourcc && before[k].modifiers[m] == p.modifier;
        assert batch[k] == before[k];
      }
      if AnnouncesPair(batch, p.fourcc, p.modifier) {
        var k, m :| 0 <= k < |batch| && batch[k].DmabufFormat? && 0 <= m < |batch[k].modifiers| &&
          batch[k].format == p.fourcc && batch[k].modifiers[m] == p.modifier;
        if k < n {
          assert before[k] == batch[k];
        } else {
          assert PairsOf(e.format, e.modifiers)[m] == p;
        }
      }
      if e.DmabufFormat? && p in PairsOf(e.format, e.modifiers) {
        var m :| 0 <= m < |PairsOf(e.format, e.modifiers)| && PairsOf(e.format, e.modifiers)[m] == p;
        assert batch[n].modifiers[m] == p.modifier;
      }
    }
  }

  lemma {:induction false} AnnouncedShmIff(batch: seq<SessionEvent>, fourcc: int)
    ensures fourcc in AnnouncedShm(batch) <==> AnnouncesShm(batch, fourcc)
  {
    if batch != [] {
      var n := |batch| - 1;
      var before := batch[..n];
      AnnouncedShmIff(before, fourcc);
      if k :| 0 <= k < |before| && before[k].ShmFormatEvent? && DrmFromShm(before[k].format) == fourcc {
        assert batch[k] == before[k];
      }
      if k :| 0 <= k < |batch| && batch[k].ShmFormatEvent? && DrmFromShm(batch[k].format) == fourcc {
        assert k < n ==> before[k] == batch[k];
      }
    }
  }

  /** A pair is committed exactly if an event of the last dirty batch announced that modifier for that
      format, and an shm format exactly if one announced it and its pixel size is known. */
  lemma CommittedIffAnnounced(es: seq<SessionEvent>, p: Pair, fourcc: int)
    ensures p in After(es).current.pairs <==> AnnouncesPair(CommittedBatch(es), p.fourcc, p.modifier)
    ensures fourcc in Fourccs(After(es).current.shm) <==> AnnouncesShm(CommittedBatch(es), fourcc)
  {
    ConstraintsFollowBatches(es);
    var batch := CommittedBatch(es);
    AnnouncedPairIff(batch, p);
    AnnouncedShmIff(batch, fourcc);
    DedupMembers(AnnouncedPairs(batch));
    DedupMembers(AnnouncedShm(batch));
  }

  /** The modifiers of one event are announced in their order. */
  lemma PairsInOrder(format: int, modifiers: seq<int>, k: nat)
    requires k < |modifiers|
    ensures |PairsOf(format, modifiers)| == |modifiers|
    ensures PairsOf(format, modifiers)[k].fourcc == format && PairsOf(format, modifiers)[k].modifier == modifiers[k]
  {
  }
}
