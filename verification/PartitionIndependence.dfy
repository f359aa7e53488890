/** Flux correction on any number of ranks gives what it gives on one: packing, exchange
    and in-place replacement together compute a function of the global fluxes alone. */
module PartitionIndependence {
  import opened Arithmetic
  import opened Sums
  import opened Ordering
  import opened Grid
  import opened Ranks
  import opened RefluxKeys
  import opened HangingFaces
  import opened HangingAgreement
  import opened Conservation
  import opened CompositeGrid
  import opened FluxBuffers
  import opened FluxCorrection

  /** Everything rank r holds during one correction: its fluxes before and after,
      its interfaces, descriptors, send list and the two flat buffers. */
  datatype RankState = RankState(F0: FluxField, F1: FluxField, list: seq<HangingFace>, local: seq<HangingDesc>,
                                 snd: seq<SendDesc>, sbuf: seq<real>, rbuf: seq<real>)

  type World = nat -> RankState

  /** The coarse-fine faces of the grid: complete, and no quadrant face in two of them. */
  ghost predicate GridFaces(nq: nat, faces: seq<HangingFace>) {
    && WellFormed(nq, faces)
    && (forall h | h in faces :: |h.fine| == 4)
    && (forall g, h | g in faces && h in faces && g.coarse == h.coarse :: g == h)
    && forall g, h, n | g in faces && h in faces && 0 <= n < |h.fine| :: g.coarse != h.fine[n]
  }

  ghost predicate Enumerates(P: Partition, nq: nat, nloc: nat -> nat) {
    forall q | 0 <= q < nq :: P.lid(q) < nloc(P.owner(q))
  }

  ghost function SendCounts(P: Partition, r: nat, list: seq<HangingFace>): (c: seq<nat>)
    ensures |c| == P.nproc && forall b | 0 <= b < P.nproc :: c[b] == |AllSendKeys(Descs(P, r, list), r, b)|
  {
    seq(P.nproc, b requires 0 <= b < P.nproc => |AllSendKeys(Descs(P, r, list), r, b)|)
  }

  ghost function RecvCounts(P: Partition, r: nat, list: seq<HangingFace>): (c: seq<nat>)
    ensures |c| == P.nproc && forall b | 0 <= b < P.nproc :: c[b] == |AllRecvKeys(Descs(P, r, list), r, b)|
  {
    seq(P.nproc, b requires 0 <= b < P.nproc => |AllRecvKeys(Descs(P, r, list), r, b)|)
  }

  ghost function Offsets(counts: seq<nat>, size: nat): (o: seq<nat>)
    ensures |o| == |counts| && forall b | 0 <= b < |counts| :: o[b] == Offset(counts, size, b)
  {
    seq(|counts|, b requires 0 <= b < |counts| => Offset(counts, size, b))
  }

  ghost predicate NoRepeats(list: seq<HangingFace>) {
    forall m, n | 0 <= m < n < |list| :: list[m] != list[n]
  }

  /** Rank r listed its interfaces and built its descriptors, send list and buffers from them. */
  ghost predicate Built(P: Partition, e: Extents, faces: seq<HangingFace>, r: nat, w: RankState) {
    var descs := Descs(P, r, w.list);
    && Listed(P, r, faces, w.list) && NoRepeats(w.list)
    && LocalWithSlots(descs, r, descs, w.local)
    && Elements(w.snd) == Union(Messages(descs, r), descs)
    && |w.sbuf| == Offset(SendCounts(P, r, w.list), SlotSize(e), P.nproc)
    && |w.rbuf| == Offset(RecvCounts(P, r, w.list), SlotSize(e), P.nproc)
  }

  /** The message from A to B arrived as sent. */
  ghost predicate Exchanged(P: Partition, e: Extents, W: World, A: nat, B: nat)
    requires A < P.nproc && B < P.nproc
  {
    var sc, rc := SendCounts(P, A, W(A).list), RecvCounts(P, B, W(B).list);
    var so, ro := Offset(sc, SlotSize(e), B), Offset(rc, SlotSize(e), A);
    forall t | 0 <= t < MessageSize(sc[B], SlotSize(e)) :: Element(W(B).rbuf, ro, t) == Element(W(A).sbuf, so, t)
  }

  ghost predicate Ran(P: Partition, e: Extents, nloc: nat -> nat, r: nat, w: RankState)
    requires e.Valid()
  {
    var ro := Offsets(RecvCounts(P, r, w.list), SlotSize(e));
    && Filled(e, w.F0, w.snd, SendCounts(P, r, w.list), w.sbuf)
    && LocalReady(e, w.local, w.rbuf, ro)
    && Corrected(e, nloc(r), w.F0, w.F1, w.local, w.rbuf, ro)
  }

  // ---- where messages and descriptors come from ----

  /** Every entry of the send list is a fine face of ours whose coarse side lies elsewhere. */
  lemma MessageOrigin(P: Partition, e: Extents, nq: nat, faces: seq<HangingFace>, r: nat, w: RankState, m: SendDesc) returns (h: HangingFace, n: nat)
    requires GridFaces(nq, faces) && Built(P, e, faces, r, w) && m in w.snd
    ensures h in faces && n < 4 && m.rank != r && Crosses(P, r, m.rank, h, n)
    ensures m == SendDesc(P.owner(h.coarse.q), SlotOf(AllSendKeys(Descs(P, r, w.list), r, m.rank), SendKey(DescOf(P, r, h), r, n)),
                          P.lid(h.fine[n].q), h.fine[n].f)
  {
    var descs := Descs(P, r, w.list);
    hide DescOf, SlotOf, AllSendKeys, Union;
    assert m in Elements(w.snd);
    InUnion(Messages(descs, r), descs, m);
    var d :| d in descs && m in Messages(descs, r)(d);
    var k :| 0 <= k < |w.list| && d == DescOf(P, r, w.list[k]);
    h := w.list[k];
    assert h in w.list;
    n :| 0 <= n < |d.fine| && Sends(d, n) && m == SendDesc(d.coarseOwner, SendSlot(descs, r, d, n), d.fine[n].qid, d.fineFace);
    SameLength(P, r, h);
    DescFields(P, r, h, n);
  }

  lemma DescFields(P: Partition, r: nat, h: HangingFace, n: nat)
    requires n < |h.fine|
    ensures var d := DescOf(P, r, h);
      && d.coarseOwner == P.owner(h.coarse.q) && (d.coarseIsRemote <==> P.owner(h.coarse.q) != r) && d.coarseFace == h.coarse.f
      && d.coarseQid == P.Qid(r, h.coarse.q) && d.fineFace == h.fine[0].f
      && d.fine[n] == FineQuad(P.Qid(r, h.fine[n].q), 0, P.owner(h.fine[n].q), P.owner(h.fine[n].q) != r)
  {
  }

  /** ... and every such fine face has an entry. */
  lemma MessageExists(P: Partition, e: Extents, nq: nat, faces: seq<HangingFace>, r: nat, b: nat, w: RankState, h: HangingFace, n: nat)
    requires GridFaces(nq, faces) && Built(P, e, faces, r, w) && h in faces && n < 4 && b != r && Crosses(P, r, b, h, n)
    ensures SendDesc(b, SlotOf(AllSendKeys(Descs(P, r, w.list), r, b), SendKey(DescOf(P, r, h), r, n)), P.lid(h.fine[n].q), h.fine[n].f) in w.snd
  {
    var descs, d := Descs(P, r, w.list), DescOf(P, r, h);
    hide DescOf, SlotOf, AllSendKeys, Union;
    assert h in w.list;
    var k :| 0 <= k < |w.list| && w.list[k] == h;
    SameLength(P, r, h);
    DescFields(P, r, h, n);
    var m := SendDesc(d.coarseOwner, SendSlot(descs, r, d, n), d.fine[n].qid, d.fineFace);
    assert m in Messages(descs, r)(descs[k]);
    InUnion(Messages(descs, r), descs, m);
    assert m in Elements(w.snd);
  }

  /** The entries address distinct slots of their messages: the packing kernel may run. */
  lemma SendListAddressed(P: Partition, e: Extents, nq: nat, nloc: nat -> nat, faces: seq<HangingFace>, r: nat, w: RankState)
    requires P.Valid(nq) && GridFaces(nq, faces) && Built(P, e, faces, r, w) && Enumerates(P, nq, nloc)
    ensures Addressed(nloc(r), w.snd, SendCounts(P, r, w.list))
  {
    hide Built, DescOf, SlotOf, AllSendKeys, SendKey;
    var counts := SendCounts(P, r, w.list);
    forall m | 0 <= m < |w.snd|
      ensures w.snd[m].rank < P.nproc && w.snd[m].bufId < counts[w.snd[m].rank] && w.snd[m].qid < nloc(r) && w.snd[m].elem < 6
    {
      var h, n := MessageOrigin(P, e, nq, faces, r, w, w.snd[m]);
      MessageSlotBound(P, e, nq, faces, r, w.snd[m].rank, w, h, n);
    }
    forall m, k | 0 <= m < |w.snd| && 0 <= k < |w.snd| && w.snd[m].rank == w.snd[k].rank && w.snd[m].bufId == w.snd[k].bufId
      ensures w.snd[m].qid == w.snd[k].qid && w.snd[m].elem == w.snd[k].elem
    {
      var g, i := MessageOrigin(P, e, nq, faces, r, w, w.snd[m]);
      var h, j := MessageOrigin(P, e, nq, faces, r, w, w.snd[k]);
      BuiltLists(P, e, faces, r, w);
      SlotDeterminesFace(P, nq, faces, r, w.snd[m].rank, w.list, g, i, h, j);
    }
  }

  lemma BuiltLists(P: Partition, e: Extents, faces: seq<HangingFace>, r: nat, w: RankState)
    requires Built(P, e, faces, r, w)
    ensures Listed(P, r, faces, w.list)
  {
  }

  lemma MessageSlotBound(P: Partition, e: Extents, nq: nat, faces: seq<HangingFace>, r: nat, b: nat, w: RankState, h: HangingFace, n: nat)
    requires P.Valid(nq) && GridFaces(nq, faces) && Built(P, e, faces, r, w) && h in faces && n < 4 && b != r && Crosses(P, r, b, h, n)
    ensures SlotOf(AllSendKeys(Descs(P, r, w.list), r, b), SendKey(DescOf(P, r, h), r, n)) < |AllSendKeys(Descs(P, r, w.list), r, b)|
  {
    SendSide(P, nq, faces, r, b, w.list);
    DescKeys(P, nq, faces, r, b, h, n);
    var t := Transfer(h.fine[n].q, KeyElem(r, b, h, n));
    assert t in Transfers(P, faces, r, b);
    assert SenderKey(P)(t) in Image(SenderKey(P), Transfers(P, faces, r, b));
    KeyOrder();
    hide StrictTotal, Slot, Image, DescOf;
    SlotBound(Less, AllSendKeys(Descs(P, r, w.list), r, b), SendKey(DescOf(P, r, h), r, n));
  }

  lemma {:induction false} InCoarseLocal(descs: seq<HangingDesc>, d: HangingDesc)
    ensures d in CoarseLocal(descs) <==> d in descs && !d.coarseIsRemote
  {
    if descs != [] {
      var n := |descs| - 1;
      InCoarseLocal(descs[..n], d);
      assert descs == descs[..n] + [descs[n]];
    }
  }

  /** Coarse faces that differ in the full list differ in the surviving one. */
  lemma {:induction false} CoarseLocalDistinct(descs: seq<HangingDesc>)
    requires forall m, n | 0 <= m < n < |descs| && !descs[m].coarseIsRemote && !descs[n].coarseIsRemote :: CoarseFace(descs[m]) != CoarseFace(descs[n])
    ensures forall m, n | 0 <= m < n < |CoarseLocal(descs)| :: CoarseFace(CoarseLocal(descs)[m]) != CoarseFace(CoarseLocal(descs)[n])
  {
    if descs != [] {
      var last := |descs| - 1;
      var init := descs[..last];
      CoarseLocalDistinct(init);
      forall m | 0 <= m < |CoarseLocal(init)| ensures CoarseLocal(init)[m] in init && !CoarseLocal(init)[m].coarseIsRemote {
        InCoarseLocal(init, CoarseLocal(init)[m]);
      }
    }
  }

  /** Each surviving descriptor records an interface whose coarse side is ours. */
  lemma LocalOrigin(P: Partition, e: Extents, nq: nat, faces: seq<HangingFace>, r: nat, w: RankState, m: nat) returns (h: HangingFace)
    requires GridFaces(nq, faces) && Built(P, e, faces, r, w) && m < |w.local|
    ensures h in faces && P.owner(h.coarse.q) == r
    ensures Slotted(Descs(P, r, w.list), r, DescOf(P, r, h), w.local[m]) && DescOf(P, r, h) in Descs(P, r, w.list)
  {
    var descs := Descs(P, r, w.list);
    hide DescOf, SlotOf, Union, Slotted;
    var d := CoarseLocal(descs)[m];
    InCoarseLocal(descs, d);
    var k :| 0 <= k < |w.list| && d == DescOf(P, r, w.list[k]);
    h := w.list[k];
    assert h in w.list;
    DescFields(P, r, h, 0);
  }

  lemma LocalExists(P: Partition, e: Extents, nq: nat, faces: seq<HangingFace>, r: nat, w: RankState, h: HangingFace) returns (m: nat)
    requires GridFaces(nq, faces) && Built(P, e, faces, r, w) && h in faces && P.owner(h.coarse.q) == r
    ensures m < |w.local| && Slotted(Descs(P, r, w.list), r, DescOf(P, r, h), w.local[m]) && DescOf(P, r, h) in Descs(P, r, w.list)
  {
    var descs, d := Descs(P, r, w.list), DescOf(P, r, h);
    hide DescOf, SlotOf, Union, Slotted;
    assert h in w.list;
    var k :| 0 <= k < |w.list| && w.list[k] == h;
    assert descs[k] == d;
    DescFields(P, r, h, 0);
    InCoarseLocal(descs, d);
    m :| 0 <= m < |CoarseLocal(descs)| && CoarseLocal(descs)[m] == d;
  }

  /** What a surviving descriptor says about fine quadrant c. */
  lemma SlottedFields(P: Partition, descs: seq<HangingDesc>, r: nat, h: HangingFace, d: HangingDesc, c: nat)
    requires c < |h.fine| && Slotted(descs, r, DescOf(P, r, h), d) && P.owner(h.coarse.q) == r
    ensures |d.fine| == |h.fine| && CoarseFace(d) == FaceRef(P.lid(h.coarse.q), h.coarse.f)
    ensures d.fine[c].owner == P.owner(h.fine[c].q) && (d.fine[c].isRemote <==> P.owner(h.fine[c].q) != r)
    ensures !d.fine[c].isRemote ==> d.fine[c].qid == P.lid(h.fine[c].q)
    ensures |DescOf(P, r, h).fine| == |h.fine| && (d.fine[c].isRemote <==> Receives(DescOf(P, r, h), c))
    ensures d.fine[c].isRemote ==> d.fine[c].bid == SlotOf(AllRecvKeys(descs, r, d.fine[c].owner), RecvKey(DescOf(P, r, h), r, c))
  {
    SameLength(P, r, h);
    DescFields(P, r, h, c);
    hide DescOf, SlotOf;
  }

  /** The surviving descriptors are complete: every receive slot lies in the buffer. */
  lemma LocalListReady(P: Partition, e: Extents, nq: nat, faces: seq<HangingFace>, r: nat, w: RankState)
    requires e.Valid() && P.Valid(nq) && GridFaces(nq, faces) && Built(P, e, faces, r, w)
    ensures LocalReady(e, w.local, w.rbuf, Offsets(RecvCounts(P, r, w.list), SlotSize(e)))
  {
    var descs, counts := Descs(P, r, w.list), RecvCounts(P, r, w.list);
    var ro := Offsets(counts, SlotSize(e));
    forall m | 0 <= m < |w.local|
      ensures |w.local[m].fine| == 4 && w.local[m].coarseFace < 6
      ensures forall c | 0 <= c < 4 && w.local[m].fine[c].isRemote :: w.local[m].fine[c].owner < |ro| &&
                forall x {:trigger FixIx(e, ro, w.local[m].fine[c], x)} | FixRange(e, w.local, x) :: FixIx(e, ro, w.local[m].fine[c], x) < |w.rbuf|
    {
      var h := LocalOrigin(P, e, nq, faces, r, w, m);
      SlottedFields(P, descs, r, h, w.local[m], 0);
      assert h.fine[0].f == Opposite(h.coarse.f);
      hide LocalWithSlots, DescOf, SlotOf, AllRecvKeys, BufIx, MessageSize, Slotted;
      forall c | 0 <= c < 4 && w.local[m].fine[c].isRemote
        ensures w.local[m].fine[c].owner < |ro|
        ensures forall x {:trigger FixIx(e, ro, w.local[m].fine[c], x)} | FixRange(e, w.local, x) :: FixIx(e, ro, w.local[m].fine[c], x) < |w.rbuf|
      {
        SlottedFields(P, descs, r, h, w.local[m], c);
        var f := w.local[m].fine[c];
        assert h.fine[c].q < nq;
        RecvSlotBound(descs, r, DescOf(P, r, h), c);
        SlottedOwner(P, r, h, c);
        forall x | FixRange(e, w.local, x) ensures FixIx(e, ro, f, x) < |w.rbuf| {
          FixIxBound(e, counts, f, x);
        }
      }
    }
  }

  lemma SlottedOwner(P: Partition, r: nat, h: HangingFace, c: nat)
    requires c < |h.fine|
    ensures |DescOf(P, r, h).fine| == |h.fine| && DescOf(P, r, h).fine[c].owner == P.owner(h.fine[c].q)
  {
  }

  lemma RecvSlotBound(descs: seq<HangingDesc>, r: nat, d: HangingDesc, c: nat)
    requires d in descs && c < |d.fine| && Receives(d, c)
    ensures SlotOf(AllRecvKeys(descs, r, d.fine[c].owner), RecvKey(d, r, c)) < |AllRecvKeys(descs, r, d.fine[c].owner)|
  {
    KeyCollected(descs, r, d, c);
    KeyOrder();
    hide StrictTotal, Slot, AllRecvKeys;
    SlotBound(Less, AllRecvKeys(descs, r, d.fine[c].owner), RecvKey(d, r, c));
  }

  /** The receive position of a slot inside its message lies inside the buffer. */
  lemma FixIxBound(e: Extents, counts: seq<nat>, f: FineQuad, x: FixItem)
    requires e.Valid() && f.owner < |counts| && f.bid < counts[f.owner] && x.v < e.nvars
    ensures FixIx(e, Offsets(counts, SlotSize(e)), f, x) < Offset(counts, SlotSize(e), |counts|)
  {
    hide BufIx, MessageSize;
    var n := e.nx / 2;
    BufIxBound(n, e.nvars, Offset(counts, SlotSize(e), f.owner), x.i % n, x.j % n, x.v, f.bid, counts[f.owner]);
    OffsetMonotone(counts, SlotSize(e), f.owner, |counts|);
  }

  /** The correction kernel may run: its writes are distinct and its local reads are not written. */
  lemma LocalListRaceFree(P: Partition, e: Extents, nq: nat, nloc: nat -> nat, faces: seq<HangingFace>, r: nat, w: RankState)
    requires P.Valid(nq) && GridFaces(nq, faces) && Built(P, e, faces, r, w) && Enumerates(P, nq, nloc)
    ensures RaceFree(nloc(r), w.local)
  {
    hide Union, SlotOf, AllRecvKeys;
    var descs := Descs(P, r, w.list);
    forall m, n | 0 <= m < n < |w.local| ensures CoarseFace(w.local[m]) != CoarseFace(w.local[n]) {
      DistinctCoarse(P, e, nq, faces, r, w);
      CoarseLocalDistinct(descs);
      assert CoarseFace(CoarseLocal(descs)[m]) != CoarseFace(CoarseLocal(descs)[n]);
    }
    hide Built, DescOf, Slotted;
    forall m | 0 <= m < |w.local| ensures w.local[m].coarseQid < nloc(r) {
      var h := LocalOrigin(P, e, nq, faces, r, w, m);
      SlottedFields(P, descs, r, h, w.local[m], 0);
      assert h.fine[0].q < nq;
    }
    forall m, n, c | 0 <= m < |w.local| && 0 <= n < |w.local| && 0 <= c < |w.local[n].fine| && !w.local[n].fine[c].isRemote
      ensures w.local[n].fine[c].qid < nloc(r) && FineFaceOf(w.local[n], c) != CoarseFace(w.local[m])
    {
      var g := LocalOrigin(P, e, nq, faces, r, w, m);
      var h := LocalOrigin(P, e, nq, faces, r, w, n);
      SlottedFields(P, descs, r, g, w.local[m], 0);
      SlottedFields(P, descs, r, h, w.local[n], 0);
      SlottedFields(P, descs, r, h, w.local[n], c);
      assert h.fine[c].q < nq && g.fine[0].q < nq && g.coarse.q < nq && h.fine[c].f == Opposite(h.coarse.f);
      assert g.coarse != h.fine[c];
    }
  }

  lemma DistinctCoarse(P: Partition, e: Extents, nq: nat, faces: seq<HangingFace>, r: nat, w: RankState)
    requires P.Valid(nq) && GridFaces(nq, faces) && Built(P, e, faces, r, w)
    ensures var descs := Descs(P, r, w.list);
      forall m, n | 0 <= m < n < |descs| && !descs[m].coarseIsRemote && !descs[n].coarseIsRemote :: CoarseFace(descs[m]) != CoarseFace(descs[n])
  {
    var descs, list := Descs(P, r, w.list), w.list;
    hide DescOf, LocalWithSlots, Union;
    forall m, n | 0 <= m < n < |descs| && !descs[m].coarseIsRemote && !descs[n].coarseIsRemote
      ensures CoarseFace(descs[m]) != CoarseFace(descs[n])
    {
      assert list[m] in list && list[n] in list;
      DescFields(P, r, list[m], 0);
      DescFields(P, r, list[n], 0);
      assert list[m].coarse.q < nq && list[n].coarse.q < nq by {
        assert list[m].fine[0].f == Opposite(list[m].coarse.f) && list[n].fine[0].f == Opposite(list[n].coarse.f);
      }
    }
  }

  // ---- the global picture ----

  /** The global flux field the ranks hold together, before and after. */
  ghost function Before(P: Partition, W: World): (G: FluxField)
    ensures forall x: FluxIx {:trigger G(x)} | x.q >= 0 :: G(x) == W(P.owner(x.q)).F0(x.(q := P.lid(x.q)))
  {
    (x: FluxIx) => if x.q >= 0 then W(P.owner(x.q)).F0(x.(q := P.lid(x.q))) else 0.0
  }

  ghost function After(P: Partition, W: World): (G: FluxField)
    ensures forall x: FluxIx {:trigger G(x)} | x.q >= 0 :: G(x) == W(P.owner(x.q)).F1(x.(q := P.lid(x.q)))
  {
    (x: FluxIx) => if x.q >= 0 then W(P.owner(x.q)).F1(x.(q := P.lid(x.q))) else 0.0
  }

  lemma FaceIxOwner(e: Extents, f: nat, a: int, b: int, v: int, q: nat, l: nat)
    ensures FaceIx(e, f, a, b, v, q).(q := l) == FaceIx(e, f, a, b, v, l) && FaceIx(e, f, a, b, v, q).q == q
  {
  }

  /** The owner's mean is the global one. */
  lemma MeanGlobal(P: Partition, e: Extents, W: World, r: FaceRef, i: int, j: int, v: int)
    requires e.Valid()
    ensures FineMean(e, W(P.owner(r.q)).F0, FaceRef(P.lid(r.q), r.f), i, j, v) == FineMean(e, Before(P, W), r, i, j, v)
  {
    var l := P.lid(r.q);
    hide FaceIx;
    forall a, b ensures OnFace(e, W(P.owner(r.q)).F0, v, FaceRef(l, r.f))(a, b) == OnFace(e, Before(P, W), v, r)(a, b) {
      FaceIxOwner(e, r.f, a, b, v, r.q, l);
    }
  }

  /** A packed a message for the slot in which B expects fine quadrant c of h. */
  lemma SlotFilled(P: Partition, e: Extents, nq: nat, faces: seq<HangingFace>, wa: RankState, wb: RankState, A: nat, B: nat, h: HangingFace, c: nat)
    returns (k: nat)
    requires P.Valid(nq) && GridFaces(nq, faces) && A != B && A < P.nproc && B < P.nproc && h in faces && c < 4 && Crosses(P, A, B, h, c)
    requires Built(P, e, faces, A, wa) && Built(P, e, faces, B, wb)
    ensures |DescOf(P, B, h).fine| == 4
    ensures var slot := SlotOf(AllRecvKeys(Descs(P, B, wb.list), B, A), RecvKey(DescOf(P, B, h), B, c));
      && k < |wa.snd| && wa.snd[k] == SendDesc(B, slot, P.lid(h.fine[c].q), h.fine[c].f)
      && slot < SendCounts(P, A, wa.list)[B] == RecvCounts(P, B, wb.list)[A]
  {
    SameLength(P, B, h);
    SlotAgreement(P, nq, faces, A, B, wa.list, wb.list);
    MessageSlotBound(P, e, nq, faces, A, B, wa, h, c);
    MessageExists(P, e, nq, faces, A, B, wa, h, c);
    hide Built, DescOf, SlotOf, AllSendKeys, AllRecvKeys, WellFormed;
    var msg := SendDesc(B, SlotOf(AllRecvKeys(Descs(P, B, wb.list), B, A), RecvKey(DescOf(P, B, h), B, c)), P.lid(h.fine[c].q), h.fine[c].f);
    assert msg in wa.snd;
    k :| 0 <= k < |wa.snd| && wa.snd[k] == msg;
  }

  lemma ExchangedElements(P: Partition, e: Extents, W: World, A: nat, B: nat)
    requires A < P.nproc && B < P.nproc && Exchanged(P, e, W, A, B)
    ensures var sc, rc := SendCounts(P, A, W(A).list), RecvCounts(P, B, W(B).list);
      forall t | 0 <= t < MessageSize(sc[B], SlotSize(e)) ::
        Element(W(B).rbuf, Offset(rc, SlotSize(e), A), t) == Element(W(A).sbuf, Offset(sc, SlotSize(e), B), t)
  {
  }

  lemma InFillRange(e: Extents, snd: seq<SendDesc>, x: FixItem, k: nat)
    requires e.Valid() && x.v < e.nvars && k < |snd|
    ensures FillRange(e, snd, FillItem(x.i % (e.nx / 2), x.j % (e.nx / 2), x.v, k))
  {
  }

  lemma ChildBound(e: Extents, i: int, j: int)
    ensures Child(e, i, j) < 4
  {
  }

  /** What B reads from its receive buffer for fine quadrant c is the mean A packed. */
  lemma RemoteRead(P: Partition, e: Extents, nq: nat, nloc: nat -> nat, faces: seq<HangingFace>, W: World, A: nat, B: nat, h: HangingFace, d: HangingDesc, x: FixItem)
    requires e.Valid() && P.Valid(nq) && GridFaces(nq, faces) && Enumerates(P, nq, nloc) && A != B && A < P.nproc && B < P.nproc
    requires Built(P, e, faces, A, W(A)) && Built(P, e, faces, B, W(B)) && Exchanged(P, e, W, A, B)
    requires Filled(e, W(A).F0, W(A).snd, SendCounts(P, A, W(A).list), W(A).sbuf)
    requires h in faces && x.i < e.nx && x.j < e.nx && x.v < e.nvars && Crosses(P, A, B, h, Child(e, x.i, x.j))
    requires |d.fine| == 4 && d.fine[Child(e, x.i, x.j)].owner == A
    requires d.fine[Child(e, x.i, x.j)].bid == SlotOf(AllRecvKeys(Descs(P, B, W(B).list), B, A), RecvKey(DescOf(P, B, h), B, Child(e, x.i, x.j)))
    ensures var c, ro := Child(e, x.i, x.j), Offsets(RecvCounts(P, B, W(B).list), SlotSize(e));
      && FixIx(e, ro, d.fine[c], x) < |W(B).rbuf|
      && W(B).rbuf[FixIx(e, ro, d.fine[c], x)] == FineMean(e, W(A).F0, FaceRef(P.lid(h.fine[c].q), h.fine[c].f), x.i, x.j, x.v)
  {
    var c, n := Child(e, x.i, x.j), e.nx / 2;
    ChildBound(e, x.i, x.j);
    var sc, rc := SendCounts(P, A, W(A).list), RecvCounts(P, B, W(B).list);
    var so, ro := Offset(sc, SlotSize(e), B), Offset(rc, SlotSize(e), A);
    var f, wa, rbuf := d.fine[c], W(A), W(B).rbuf;
    hide *;
    ExchangedElements(P, e, W, A, B);
    var k := SlotFilled(P, e, nq, faces, wa, W(B), A, B, h, c);
    SendListAddressed(P, e, nq, nloc, faces, A, wa);
    BuiltSizes(P, e, faces, A, wa);
    BuiltSizes(P, e, faces, B, W(B));
    InFillRange(e, wa.snd, x, k);
    FillIxBound(e, nloc(A), wa.snd, sc, FillItem(x.i % n, x.j % n, x.v, k));
    FixIxBound(e, rc, f, x);
    ReadsWhatWasPacked(e, wa.F0, wa.snd, sc, wa.sbuf, so, ro, rbuf, Offsets(rc, SlotSize(e)), f, x, k);
  }

  lemma BuiltSizes(P: Partition, e: Extents, faces: seq<HangingFace>, r: nat, w: RankState)
    requires Built(P, e, faces, r, w)
    ensures |w.sbuf| == Offset(SendCounts(P, r, w.list), SlotSize(e), P.nproc)
    ensures |w.rbuf| == Offset(RecvCounts(P, r, w.list), SlotSize(e), P.nproc)
  {
  }

  lemma BufIxShift(n: nat, nvars: nat, offset: nat, i: nat, j: nat, v: nat, bid: nat)
    ensures BufIx(n, nvars, offset, i, j, v, bid) == offset + BufIx(n, nvars, 0, i, j, v, bid)
  {
  }

  /** The position read is the position packed, shifted by the two message offsets. */
  lemma ReadsWhatWasPacked(e: Extents, F: FluxField, snd: seq<SendDesc>, sc: seq<nat>, sbuf: seq<real>, so: nat, ro: nat, rbuf: seq<real>,
                           offsets: seq<nat>, f: FineQuad, x: FixItem, k: nat)
    requires e.Valid() && f.owner < |offsets| && ro == offsets[f.owner] && k < |snd| && snd[k].rank < |sc|
    requires so == Offset(sc, SlotSize(e), snd[k].rank) && snd[k].bufId == f.bid && f.bid < sc[snd[k].rank]
    requires x.i < e.nx && x.j < e.nx && x.v < e.nvars
    requires FixIx(e, offsets, f, x) < |rbuf|
    requires FillIx(e, snd, sc, FillItem(x.i % (e.nx / 2), x.j % (e.nx / 2), x.v, k)) < |sbuf|
    requires Filled(e, F, snd, sc, sbuf)
    requires forall t | 0 <= t < MessageSize(sc[snd[k].rank], SlotSize(e)) :: Element(rbuf, ro, t) == Element(sbuf, so, t)
    ensures rbuf[FixIx(e, offsets, f, x)] == FineMean(e, F, FaceRef(snd[k].qid, snd[k].elem), x.i, x.j, x.v)
  {
    var n := e.nx / 2;
    var y := FillItem(x.i % n, x.j % n, x.v, k);
    var t := BufIx(n, e.nvars, 0, y.i, y.j, y.v, f.bid);
    hide MessageSize, Block, BufIx, Offset;
    BufIxBound(n, e.nvars, 0, y.i, y.j, y.v, f.bid, sc[snd[k].rank]);
    BufIxShift(n, e.nvars, so, y.i, y.j, y.v, f.bid);
    BufIxShift(n, e.nvars, ro, y.i, y.j, y.v, f.bid);
    assert FillRange(e, snd, y) && FillIx(e, snd, sc, y) == so + t && FixIx(e, offsets, f, x) == ro + t;
    assert Element(rbuf, ro, t) == Element(sbuf, so, t);
    PackedIsMean(e, F, snd, x, k);
  }

  lemma PackedIsMean(e: Extents, F: FluxField, snd: seq<SendDesc>, x: FixItem, k: nat)
    requires e.Valid() && k < |snd| && x.i < e.nx && x.j < e.nx
    ensures Packed(e, F, snd, FillItem(x.i % (e.nx / 2), x.j % (e.nx / 2), x.v, k))
         == FineMean(e, F, FaceRef(snd[k].qid, snd[k].elem), x.i, x.j, x.v)
  {
    hide Block;
    ChildIndex(e, x.i);
    ChildIndex(e, x.j);
  }

  /** The correction as one function of the global fluxes: coarse ones are means, others stay. */
  ghost predicate GloballyCorrected(e: Extents, nq: nat, G0: FluxField, G1: FluxField, faces: seq<HangingFace>)
    requires e.Valid() && forall h | h in faces :: |h.fine| == 4
  {
    && (forall h, i, j, v | h in faces && 0 <= i < e.nx && 0 <= j < e.nx && 0 <= v < e.nvars ::
          G1(FaceIx(e, h.coarse.f, i, j, v, h.coarse.q)) == FineMean(e, G0, h.fine[Child(e, i, j)], i, j, v))
    && forall y | InFace(e, nq, y) && !IsCoarse(e, faces, y) :: G1(y) == G0(y)
  }

  ghost predicate IsCoarse(e: Extents, faces: seq<HangingFace>, y: FluxIx) {
    exists h, i, j, v :: h in faces && 0 <= i < e.nx && 0 <= j < e.nx && 0 <= v < e.nvars && y == FaceIx(e, h.coarse.f, i, j, v, h.coarse.q)
  }

  /** All ranks built their lists, packed, exchanged and corrected. */
  ghost predicate AllRan(P: Partition, e: Extents, nloc: nat -> nat, faces: seq<HangingFace>, W: World)
    requires e.Valid()
  {
    && (forall r | 0 <= r < P.nproc :: Built(P, e, faces, r, W(r)) && Ran(P, e, nloc, r, W(r)))
    && forall A, B | 0 <= A < P.nproc && 0 <= B < P.nproc && A != B :: Exchanged(P, e, W, A, B)
  }

  /** The value rank B writes for coarse face h is the global mean. */
  lemma ReplacementIsMean(P: Partition, e: Extents, nq: nat, nloc: nat -> nat, faces: seq<HangingFace>, W: World, h: HangingFace, m: nat, i: nat, j: nat, v: nat)
    requires e.Valid() && P.Valid(nq) && GridFaces(nq, faces) && Enumerates(P, nq, nloc) && AllRan(P, e, nloc, faces, W)
    requires h in faces && i < e.nx && j < e.nx && v < e.nvars
    requires var B := P.owner(h.coarse.q); B < P.nproc && m < |W(B).local| && Slotted(Descs(P, B, W(B).list), B, DescOf(P, B, h), W(B).local[m])
    ensures var w := W(P.owner(h.coarse.q)); var ro := Offsets(RecvCounts(P, P.owner(h.coarse.q), w.list), SlotSize(e));
      && LocalReady(e, w.local, w.rbuf, ro)
      && Replacement(e, w.F0, w.local, w.rbuf, ro, FixItem(i, j, v, m)) == FineMean(e, Before(P, W), h.fine[Child(e, i, j)], i, j, v)
  {
    var c, B := Child(e, i, j), P.owner(h.coarse.q);
    var A, w := P.owner(h.fine[c].q), W(B);
    assert h.fine[c].f == Opposite(h.coarse.f) && h.fine[c].q < nq;
    assert Built(P, e, faces, B, w) && Ran(P, e, nloc, B, w) && Built(P, e, faces, A, W(A)) && Ran(P, e, nloc, A, W(A));
    SlottedFields(P, Descs(P, B, w.list), B, h, w.local[m], c);
    hide Built, DescOf, SlotOf, AllSendKeys, AllRecvKeys, GridFaces, WellFormed, Slotted, LocalReady, Filled, FineMean, FixIx, Exchanged, Corrected;
    MeanGlobal(P, e, W, h.fine[c], i, j, v);
    if A != B {
      assert Exchanged(P, e, W, A, B);
      hide AllRan;
      RemoteRead(P, e, nq, nloc, faces, W, A, B, h, w.local[m], FixItem(i, j, v, m));
    }
  }

  lemma CorrectedAt(e: Extents, nq: nat, F0: FluxField, F1: FluxField, descs: seq<HangingDesc>, rbuf: seq<real>, offsets: seq<nat>, x: FixItem)
    requires e.Valid() && LocalReady(e, descs, rbuf, offsets) && Corrected(e, nq, F0, F1, descs, rbuf, offsets) && FixRange(e, descs, x)
    ensures F1(Target(e, descs, x)) == Replacement(e, F0, descs, rbuf, offsets, x)
  {
  }

  lemma CoarseReplaced(P: Partition, e: Extents, nq: nat, nloc: nat -> nat, faces: seq<HangingFace>, W: World, h: HangingFace, i: nat, j: nat, v: nat)
    requires e.Valid() && P.Valid(nq) && GridFaces(nq, faces) && Enumerates(P, nq, nloc) && AllRan(P, e, nloc, faces, W)
    requires h in faces && i < e.nx && j < e.nx && v < e.nvars
    ensures After(P, W)(FaceIx(e, h.coarse.f, i, j, v, h.coarse.q)) == FineMean(e, Before(P, W), h.fine[Child(e, i, j)], i, j, v)
  {
    var B := P.owner(h.coarse.q);
    var w := W(B);
    assert |h.fine| == 4 && h.fine[0].f == Opposite(h.coarse.f) && h.coarse.q < nq && B < P.nproc;
    var ro := Offsets(RecvCounts(P, B, w.list), SlotSize(e));
    hide *;
    RankRan(P, e, nloc, faces, W, B);
    var m := LocalExists(P, e, nq, faces, B, w, h);
    SlottedFields(P, Descs(P, B, w.list), B, h, w.local[m], 0);
    var x := FixItem(i, j, v, m);
    TargetOf(e, w.local, x, FaceRef(P.lid(h.coarse.q), h.coarse.f));
    CorrectedAt(e, nloc(B), w.F0, w.F1, w.local, w.rbuf, ro, x);
    ReplacementIsMean(P, e, nq, nloc, faces, W, h, m, i, j, v);
    FaceIxOwner(e, h.coarse.f, i, j, v, h.coarse.q, P.lid(h.coarse.q));
  }

  lemma RankRan(P: Partition, e: Extents, nloc: nat -> nat, faces: seq<HangingFace>, W: World, r: nat)
    requires e.Valid() && AllRan(P, e, nloc, faces, W) && r < P.nproc
    ensures Built(P, e, faces, r, W(r))
    ensures var w := W(r); var ro := Offsets(RecvCounts(P, r, w.list), SlotSize(e));
      LocalReady(e, w.local, w.rbuf, ro) && Corrected(e, nloc(r), w.F0, w.F1, w.local, w.rbuf, ro)
  {
  }

  lemma TargetOf(e: Extents, descs: seq<HangingDesc>, x: FixItem, r: FaceRef)
    requires x.iq < |descs| && CoarseFace(descs[x.iq]) == r && x.i < e.nx && x.j < e.nx && x.v < e.nvars
    ensures FixRange(e, descs, x) && Target(e, descs, x) == FaceIx(e, r.f, x.i, x.j, x.v, r.q)
  {
  }

  /** A flux rank B overwrites is the flux of a coarse face of the grid. */
  lemma TargetIsCoarse(P: Partition, e: Extents, nq: nat, faces: seq<HangingFace>, B: nat, w: RankState, y: FluxIx, x: FixItem)
    requires e.Valid() && P.Valid(nq) && GridFaces(nq, faces) && Built(P, e, faces, B, w) && FixRange(e, w.local, x)
    requires 0 <= y.q < nq && P.owner(y.q) == B && y.(q := P.lid(y.q)) == Target(e, w.local, x)
    ensures IsCoarse(e, faces, y)
  {
    var h := LocalOrigin(P, e, nq, faces, B, w, x.iq);
    SlottedFields(P, Descs(P, B, w.list), B, h, w.local[x.iq], 0);
    assert h.fine[0].f == Opposite(h.coarse.f) && h.coarse.q < nq;
    hide Built, Slotted, DescOf, GridFaces, FaceIx;
    FaceIxOwner(e, h.coarse.f, x.i, x.j, x.v, P.lid(h.coarse.q), y.q);
    FaceIxOwner(e, h.coarse.f, x.i, x.j, x.v, h.coarse.q, P.lid(h.coarse.q));
    assert y == y.(q := P.lid(y.q)).(q := y.q);
    assert y.q == h.coarse.q;
    assert y == FaceIx(e, h.coarse.f, x.i, x.j, x.v, h.coarse.q);
  }

  lemma OthersKept(P: Partition, e: Extents, nq: nat, nloc: nat -> nat, faces: seq<HangingFace>, W: World, y: FluxIx)
    requires e.Valid() && P.Valid(nq) && GridFaces(nq, faces) && Enumerates(P, nq, nloc) && AllRan(P, e, nloc, faces, W)
    requires InFace(e, nq, y) && !IsCoarse(e, faces, y)
    ensures After(P, W)(y) == Before(P, W)(y)
  {
    var B := P.owner(y.q);
    var w, y' := W(B), y.(q := P.lid(y.q));
    assert Built(P, e, faces, B, w) && Ran(P, e, nloc, B, w) && InFace(e, nloc(B), y');
    hide AllRan, LocalReady, Filled, FaceIx, Replacement, IsCoarse, Built, GridFaces;
    forall x | FixRange(e, w.local, x) ensures y' != Target(e, w.local, x) {
      if y' == Target(e, w.local, x) { TargetIsCoarse(P, e, nq, faces, B, w, y, x); }
    }
  }

  /** The ranks together compute the global correction, whatever the distribution of
      quadrants, the order of descriptors and the order of loop indices. */
  lemma RanksComputeGlobalCorrection(P: Partition, e: Extents, nq: nat, nloc: nat -> nat, faces: seq<HangingFace>, W: World)
    requires e.Valid() && P.Valid(nq) && GridFaces(nq, faces) && Enumerates(P, nq, nloc) && AllRan(P, e, nloc, faces, W)
    ensures GloballyCorrected(e, nq, Before(P, W), After(P, W), faces)
  {
    hide AllRan, FaceIx, FineMean, InFace;
    forall h, i, j, v | h in faces && 0 <= i < e.nx && 0 <= j < e.nx && 0 <= v < e.nvars
      ensures After(P, W)(FaceIx(e, h.coarse.f, i, j, v, h.coarse.q)) == FineMean(e, Before(P, W), h.fine[Child(e, i, j)], i, j, v)
    {
      CoarseReplaced(P, e, nq, nloc, faces, W, h, i, j, v);
    }
    forall y | InFace(e, nq, y) && !IsCoarse(e, faces, y) ensures After(P, W)(y) == Before(P, W)(y) {
      OthersKept(P, e, nq, nloc, faces, W, y);
    }
  }

  /** Two distributions of one grid, holding the same fluxes before, hold the same fluxes
      after; one of them may put everything on a single rank. */
  lemma SameOnAnyPartition(e: Extents, nq: nat, faces: seq<HangingFace>, P: Partition, nloc: nat -> nat, W: World,
                           P': Partition, nloc': nat -> nat, W': World, y: FluxIx)
    requires e.Valid() && GridFaces(nq, faces) && InFace(e, nq, y)
    requires P.Valid(nq) && Enumerates(P, nq, nloc) && AllRan(P, e, nloc, faces, W)
    requires P'.Valid(nq) && Enumerates(P', nq, nloc') && AllRan(P', e, nloc', faces, W')
    requires forall x | InFace(e, nq, x) :: Before(P, W)(x) == Before(P', W')(x)
    ensures After(P, W)(y) == After(P', W')(y)
  {
    hide *;
    assert forall h | h in faces :: |h.fine| == 4 by { FourFine(nq, faces); }
    RanksComputeGlobalCorrection(P, e, nq, nloc, faces, W);
    RanksComputeGlobalCorrection(P', e, nq, nloc', faces, W');
    CorrectionDetermined(e, nq, faces, Before(P, W), After(P, W), Before(P', W'), After(P', W'), y);
  }

  lemma FourFine(nq: nat, faces: seq<HangingFace>)
    requires GridFaces(nq, faces)
    ensures forall h | h in faces :: |h.fine| == 4
  {
  }

  lemma CorrectionDetermined(e: Extents, nq: nat, faces: seq<HangingFace>, G0: FluxField, G1: FluxField, H0: FluxField, H1: FluxField, y: FluxIx)
    requires e.Valid() && GridFaces(nq, faces) && InFace(e, nq, y)
    requires GloballyCorrected(e, nq, G0, G1, faces) && GloballyCorrected(e, nq, H0, H1, faces)
    requires forall x | InFace(e, nq, x) :: G0(x) == H0(x)
    ensures G1(y) == H1(y)
  {
    hide FaceIx, FineMean, InFace;
    if IsCoarse(e, faces, y) {
      var h, i, j, v :| h in faces && 0 <= i < e.nx && 0 <= j < e.nx && 0 <= v < e.nvars && y == FaceIx(e, h.coarse.f, i, j, v, h.coarse.q);
      SameMeans(e, nq, faces, G0, H0, h, i, j, v);
    }
  }

  lemma SameMeans(e: Extents, nq: nat, faces: seq<HangingFace>, G: FluxField, G': FluxField, h: HangingFace, i: nat, j: nat, v: nat)
    requires e.Valid() && GridFaces(nq, faces) && h in faces && i < e.nx && j < e.nx && v < e.nvars
    requires forall x | InFace(e, nq, x) :: G(x) == G'(x)
    ensures FineMean(e, G, h.fine[Child(e, i, j)], i, j, v) == FineMean(e, G', h.fine[Child(e, i, j)], i, j, v)
  {
    var r := h.fine[Child(e, i, j)];
    assert r.f == Opposite(h.coarse.f) && r.q < nq;
    ChildIndex(e, i);
    ChildIndex(e, j);
    var a, b := 2 * i % e.nx, 2 * j % e.nx;
    hide FaceIx, InFace;
    forall p, s | a <= p < a + 2 && b <= s < b + 2 ensures OnFace(e, G, v, r)(p, s) == OnFace(e, G', v, r)(p, s) {
      FineInFace(e, nq, r, p, s, v);
    }
  }
}
