/** The EMFs of same-level faces, carried to the rank on the other side. */
module FullArrival {
  import opened Ordering
  import opened Grid
  import opened Ranks
  import opened RefluxKeys
  import opened ConstrainedTransport
  import opened FullFaces
  import opened FluxBuffers
  import opened EmfLines
  import opened EmfFaces
  import opened EmfBuffers
  import opened EmfCorrection
  import opened EmfArrival

  /** What a rank builds for its same-level faces. */
  datatype FullState = FullState(list: seq<FullFace>, slotted: seq<FullDesc>, snd: seq<SendDesc>)

  ghost function SendCounts(P: Partition, r: nat, list: seq<FullFace>): (c: seq<nat>)
    ensures |c| == P.nproc && forall b | 0 <= b < P.nproc :: c[b] == |AllSendKeys(Descs(P, r, list), r, b)|
  {
    seq(P.nproc, b requires 0 <= b < P.nproc => |AllSendKeys(Descs(P, r, list), r, b)|)
  }

  ghost function RecvCounts(P: Partition, r: nat, list: seq<FullFace>): (c: seq<nat>)
    ensures |c| == P.nproc && forall b | 0 <= b < P.nproc :: c[b] == |AllRecvKeys(Descs(P, r, list), r, b)|
  {
    seq(P.nproc, b requires 0 <= b < P.nproc => |AllRecvKeys(Descs(P, r, list), r, b)|)
  }

  ghost predicate Built(P: Partition, faces: seq<FullFace>, r: nat, w: FullState) {
    var descs := Descs(P, r, w.list);
    && Listed(P, r, faces, w.list) && |w.slotted| == |descs|
    && (forall n | 0 <= n < |descs| :: Slotted(descs, r, descs[n], w.slotted[n]))
    && Elements(w.snd) == Union(Messages(descs, r), descs)
  }

  ghost function EntryFor(P: Partition, r: nat, w: FullState, b: nat, h: FullFace, n: nat): SendDesc
    requires n < 2
  {
    SendDesc(b, SlotOf(AllSendKeys(Descs(P, r, w.list), r, b), SendKey(DescOf(P, r, h), r, n)), P.lid(h.Side(1 - n).q), h.Side(1 - n).f)
  }

  lemma DescFields(P: Partition, r: nat, h: FullFace, n: nat)
    requires n < 2
    ensures var d := DescOf(P, r, h);
      && d.Side(n).owner == P.owner(h.Side(n).q) && (d.Side(n).isRemote <==> P.owner(h.Side(n).q) != r) && d.Side(n).face == h.Side(n).f
      && d.Side(n).qid == P.Qid(r, h.Side(n).q)
  {
  }

  /** Every entry of the send list is an own side of a face whose other side lies elsewhere. */
  lemma MessageOrigin(P: Partition, faces: seq<FullFace>, r: nat, w: FullState, m: SendDesc) returns (h: FullFace, n: nat)
    requires Built(P, faces, r, w) && m in w.snd
    ensures h in faces && n < 2 && m.rank != r && Crosses(P, r, m.rank, h, n) && m == EntryFor(P, r, w, m.rank, h, n)
  {
    var descs := Descs(P, r, w.list);
    hide DescOf, SlotOf, AllSendKeys, Union, SendKey, Slotted;
    assert m in Elements(w.snd);
    InUnion(Messages(descs, r), descs, m);
    var d :| d in descs && m in Messages(descs, r)(d);
    var k :| 0 <= k < |w.list| && d == DescOf(P, r, w.list[k]);
    h := w.list[k];
    assert h in w.list;
    n :| 0 <= n < 2 && d.Side(n).isRemote && m == Message(descs, r, d, n);
    DescFields(P, r, h, n);
    DescFields(P, r, h, 1 - n);
  }

  /** ... and every such side has an entry. */
  lemma MessageExists(P: Partition, faces: seq<FullFace>, r: nat, b: nat, w: FullState, h: FullFace, n: nat)
    requires Built(P, faces, r, w) && h in faces && n < 2 && b != r && Crosses(P, r, b, h, n)
    ensures EntryFor(P, r, w, b, h, n) in w.snd && DescOf(P, r, h) in Descs(P, r, w.list)
  {
    var descs, d := Descs(P, r, w.list), DescOf(P, r, h);
    hide DescOf, SlotOf, AllSendKeys, Union, SendKey, Slotted;
    assert h in w.list;
    var k :| 0 <= k < |w.list| && w.list[k] == h;
    DescFields(P, r, h, n);
    DescFields(P, r, h, 1 - n);
    assert descs[k] == d && Message(descs, r, d, n) in Messages(descs, r)(d);
    InUnion(Messages(descs, r), descs, Message(descs, r, d, n));
    assert Message(descs, r, d, n) in Elements(w.snd);
  }

  lemma SlotInside(P: Partition, faces: seq<FullFace>, r: nat, b: nat, w: FullState, h: FullFace, n: nat)
    requires Built(P, faces, r, w) && h in faces && n < 2 && b != r && Crosses(P, r, b, h, n)
    ensures EntryFor(P, r, w, b, h, n).bufId < |AllSendKeys(Descs(P, r, w.list), r, b)|
  {
    MessageExists(P, faces, r, b, w, h, n);
    DescFields(P, r, h, n);
    KeyOrder();
    hide StrictTotal, Slot, AllSendKeys, Built, DescOf, SendKey;
    KeyCollected(Descs(P, r, w.list), r, DescOf(P, r, h), n);
    SlotBound(Less, AllSendKeys(Descs(P, r, w.list), r, b), SendKey(DescOf(P, r, h), r, n));
  }

  lemma ListedIs(P: Partition, faces: seq<FullFace>, r: nat, w: FullState)
    requires Built(P, faces, r, w)
    ensures Listed(P, r, faces, w.list)
  {
  }

  /** Lists are packed without conflicts: the packing kernel may run. */
  lemma FullServes(P: Partition, nq: nat, nloc: nat -> nat, faces: seq<FullFace>, X: nat -> FullState, r: nat)
    requires P.Valid(nq) && WellFormed(nq, faces) && r < P.nproc && forall b | 0 <= b < P.nproc :: Built(P, faces, b, X(b))
    requires forall q | 0 <= q < nq :: P.lid(q) < nloc(P.owner(q))
    ensures Serves(nloc(r), 6, X(r).snd, SendCounts(P, r, X(r).list))
  {
    var w, counts := X(r), SendCounts(P, r, X(r).list);
    hide Built, DescOf, SlotOf, AllSendKeys, SendKey, AllRecvKeys, RecvKey;
    forall m | 0 <= m < |w.snd|
      ensures w.snd[m].rank < P.nproc && w.snd[m].bufId < counts[w.snd[m].rank] && w.snd[m].qid < nloc(r) && w.snd[m].elem < 6
    {
      var h, n := MessageOrigin(P, faces, r, w, w.snd[m]);
      assert h.Side(n).q < nq && h.Side(1 - n).q < nq && h.Side(1 - n).f < 6;
      SlotInside(P, faces, r, w.snd[m].rank, w, h, n);
    }
    forall m, k | 0 <= m < |w.snd| && 0 <= k < |w.snd| && w.snd[m].rank == w.snd[k].rank && w.snd[m].bufId == w.snd[k].bufId
      ensures w.snd[m].qid == w.snd[k].qid && w.snd[m].elem == w.snd[k].elem
    {
      var b := w.snd[m].rank;
      var g, i := MessageOrigin(P, faces, r, w, w.snd[m]);
      var h, j := MessageOrigin(P, faces, r, w, w.snd[k]);
      ListedIs(P, faces, r, w);
      ListedIs(P, faces, b, X(b));
      SlotAgreement(P, nq, faces, r, b, w.list, X(b).list);
      assert g.Side(1 - i) == h.Side(1 - j);
    }
  }

  /** Every rank packed its EMFs, held as L, and every message arrived. */
  ghost predicate FullSent(P: Partition, e: Extents, faces: seq<FullFace>, X: nat -> FullState, L: nat -> EmfField, sbuf: nat -> seq<real>, rbuf: nat -> seq<real>) {
    && (forall r | 0 <= r < P.nproc :: Built(P, faces, r, X(r)) && FullPacked(P, e, r, X(r), L(r), sbuf(r), rbuf(r)))
    && forall A, B | 0 <= A < P.nproc && 0 <= B < P.nproc && A != B ::
         Carried(FaceSlot(e, false), SendCounts(P, A, X(A).list), B, sbuf(A), RecvCounts(P, B, X(B).list), A, rbuf(B))
  }

  ghost predicate FullPacked(P: Partition, e: Extents, r: nat, w: FullState, E: EmfField, sbuf: seq<real>, rbuf: seq<real>) {
    && FacesFilled(e, E, false, w.snd, SendCounts(P, r, w.list), sbuf)
    && |sbuf| == Offset(SendCounts(P, r, w.list), FaceSlot(e, false), P.nproc)
    && |rbuf| == Offset(RecvCounts(P, r, w.list), FaceSlot(e, false), P.nproc)
  }

  /** What the averaging kernel of rank B reads for a remote side: its descriptor's slot of the owner's message. */
  ghost predicate ReadsFull(P: Partition, e: Extents, B: nat, w: FullState, rbuf: seq<real>, recv: Received)
    requires |w.slotted| == |w.list|
  {
    forall m, n, comp, i, j | 0 <= m < |w.list| && 0 <= n < 2 && w.slotted[m].Side(n).isRemote && w.slotted[m].Side(n).owner < P.nproc
                           && 0 <= comp < 2 && 0 <= i < e.nx && 0 <= j < e.nx ::
      recv(w.list[m].Side(n), comp, i, j) == FullElement(P, e, B, w, rbuf, m, n, comp, i, j)
  }

  ghost function FullElement(P: Partition, e: Extents, B: nat, w: FullState, rbuf: seq<real>, m: nat, n: nat, comp: nat, i: nat, j: nat): real
    requires m < |w.slotted| && n < 2 && w.slotted[m].Side(n).owner < P.nproc
  {
    var f := w.slotted[m].Side(n);
    var p := BufIx(PerAxis(e, false), 2, Offset(RecvCounts(P, B, w.list), FaceSlot(e, false), f.owner), i, j, comp, f.bid);
    if p < |rbuf| then rbuf[p] else 0.0
  }

  /** Where face h stands in rank B's list, and the slot written back for its remote side t. */
  lemma SlotWritten(P: Partition, faces: seq<FullFace>, B: nat, w: FullState, h: FullFace, t: nat) returns (m: nat)
    requires Built(P, faces, B, w) && h in faces && t < 2 && P.owner(h.Side(1 - t).q) == B && P.owner(h.Side(t).q) != B
    ensures m < |w.list| == |w.slotted| && w.list[m] == h && w.slotted[m].Side(t).isRemote && w.slotted[m].Side(t).owner == P.owner(h.Side(t).q)
    ensures w.slotted[m].Side(t).bid == SlotOf(AllRecvKeys(Descs(P, B, w.list), B, P.owner(h.Side(t).q)), RecvKey(DescOf(P, B, h), B, t))
  {
    hide DescOf, SlotOf, AllRecvKeys, Union, RecvKey;
    assert h in w.list;
    m :| 0 <= m < |w.list| && w.list[m] == h;
    assert Descs(P, B, w.list)[m] == DescOf(P, B, h);
    DescFields(P, B, h, t);
  }

  /** A packed side 1 - n of h in the slot where B expects it. */
  lemma SlotFilled(P: Partition, nq: nat, faces: seq<FullFace>, wa: FullState, wb: FullState, A: nat, B: nat, h: FullFace, n: nat) returns (k: nat)
    requires P.Valid(nq) && WellFormed(nq, faces) && A != B && A < P.nproc && B < P.nproc && h in faces && n < 2 && Crosses(P, A, B, h, n)
    requires Built(P, faces, A, wa) && Built(P, faces, B, wb)
    ensures k < |wa.snd|
    ensures var slot := SlotOf(AllRecvKeys(Descs(P, B, wb.list), B, A), RecvKey(DescOf(P, B, h), B, 1 - n));
      && wa.snd[k] == SendDesc(B, slot, P.lid(h.Side(1 - n).q), h.Side(1 - n).f)
      && slot < SendCounts(P, A, wa.list)[B] == RecvCounts(P, B, wb.list)[A]
  {
    hide DescOf, SlotOf, AllSendKeys, AllRecvKeys, SendKey, RecvKey, Built, WellFormed;
    ListedIs(P, faces, A, wa);
    ListedIs(P, faces, B, wb);
    SlotAgreement(P, nq, faces, A, B, wa.list, wb.list);
    MessageExists(P, faces, A, B, wa, h, n);
    SlotInside(P, faces, A, B, wa, h, n);
    k :| 0 <= k < |wa.snd| && wa.snd[k] == EntryFor(P, A, wa, B, h, n);
  }

  lemma Facts(P: Partition, e: Extents, nq: nat, faces: seq<FullFace>, X: nat -> FullState, L: nat -> EmfField, sbuf: nat -> seq<real>, rbuf: nat -> seq<real>,
              A: nat, B: nat, h: FullFace, t: nat)
    requires P.Valid(nq) && WellFormed(nq, faces) && FullSent(P, e, faces, X, L, sbuf, rbuf) && B < P.nproc
    requires h in faces && t < 2 && P.owner(h.Side(t).q) == A && A != B && P.owner(h.Side(1 - t).q) == B
    ensures h.Side(t).q < nq && A < P.nproc && Crosses(P, A, B, h, 1 - t) && h.Side(1 - (1 - t)) == h.Side(t)
    ensures Built(P, faces, A, X(A)) && Built(P, faces, B, X(B))
    ensures var sc, rc := SendCounts(P, A, X(A).list), RecvCounts(P, B, X(B).list);
      && |sc| == |rc| == P.nproc && Carried(FaceSlot(e, false), sc, B, sbuf(A), rc, A, rbuf(B)) && FacesFilled(e, L(A), false, X(A).snd, sc, sbuf(A))
      && |sbuf(A)| == Offset(sc, FaceSlot(e, false), P.nproc) && |rbuf(B)| == Offset(rc, FaceSlot(e, false), P.nproc)
  {
    hide Built, FacesFilled, Carried;
    assert FullPacked(P, e, A, X(A), L(A), sbuf(A), rbuf(A)) && FullPacked(P, e, B, X(B), L(B), sbuf(B), rbuf(B));
  }

  lemma PerAxisFull(e: Extents)
    ensures PerAxis(e, false) == e.nx
  {
  }

  lemma ReadAt(P: Partition, e: Extents, B: nat, w: FullState, rbuf: seq<real>, recv: Received, m: nat, n: nat, comp: nat, i: nat, j: nat)
    requires |w.slotted| == |w.list| && ReadsFull(P, e, B, w, rbuf, recv) && m < |w.list| && n < 2
    requires w.slotted[m].Side(n).isRemote && w.slotted[m].Side(n).owner < P.nproc && comp < 2 && i < e.nx && j < e.nx
    ensures var f := w.slotted[m].Side(n); var p := BufIx(PerAxis(e, false), 2, Offset(RecvCounts(P, B, w.list), FaceSlot(e, false), f.owner), i, j, comp, f.bid);
      p < |rbuf| ==> recv(w.list[m].Side(n), comp, i, j) == rbuf[p]
  {
    hide BufIx;
    assert recv(w.list[m].Side(n), comp, i, j) == FullElement(P, e, B, w, rbuf, m, n, comp, i, j);
  }

  /** The EMF received for the remote side of a same-level face is the owner's. */
  lemma FullArrives(P: Partition, e: Extents, nq: nat, faces: seq<FullFace>, X: nat -> FullState, F: nat -> EmfField, L: nat -> EmfField,
                    sbuf: nat -> seq<real>, rbuf: nat -> seq<real>, B: nat, recv: Received, h: FullFace, t: nat, comp: nat, i: nat, j: nat)
    requires P.Valid(nq) && WellFormed(nq, faces) && FullSent(P, e, faces, X, L, sbuf, rbuf) && Renumbered(P, nq, F, L)
    requires B < P.nproc && |X(B).slotted| == |X(B).list| && ReadsFull(P, e, B, X(B), rbuf(B), recv)
    requires h in faces && t < 2 && comp < 2 && i < e.nx && j < e.nx && P.owner(h.Side(1 - t).q) == B && P.owner(h.Side(t).q) != B
    ensures recv(h.Side(t), comp, i, j) == FullValue(e, Owned(P.owner, F), h.Side(t), comp, i, j)
  {
    var A := P.owner(h.Side(t).q);
    Facts(P, e, nq, faces, X, L, sbuf, rbuf, A, B, h, t);
    var sc, rc := SendCounts(P, A, X(A).list), RecvCounts(P, B, X(B).list);
    hide *;
    var m := SlotWritten(P, faces, B, X(B), h, t);
    var k := SlotFilled(P, nq, faces, X(A), X(B), A, B, h, 1 - t);
    PerAxisFull(e);
    FaceArrives(e, false, L(A), X(A).snd, sc, B, sbuf(A), rc, A, rbuf(B), k, comp, i, j);
    RenumberedFace(P, nq, F, L, e, false, h.Side(t), comp, i, j);
    ReadAt(P, e, B, X(B), rbuf(B), recv, m, t, comp, i, j);
    FullValueIs(e, Owned(P.owner, F), h.Side(t), comp, i, j);
  }

  lemma FullValueIs(e: Extents, E: EmfField, r: FaceRef, comp: nat, i: nat, j: nat)
    ensures FaceValue(e, E, false, r, comp, i, j) == FullValue(e, E, r, comp, i, j)
  {
  }
}
