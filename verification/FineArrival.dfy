/** The means on fine faces, carried to the ranks that hold the coarse faces. */
module FineArrival {
  import opened Grid
  import opened Ranks
  import opened RefluxKeys
  import opened ConstrainedTransport
  import opened HangingFaces
  import HangingAgreement
  import PI = PartitionIndependence
  import opened FluxBuffers
  import opened EmfLines
  import opened EmfFaces
  import opened EmfBuffers
  import opened EmfCorrection
  import opened EmfArrival

  /** Lists as built for the fluxes; every rank packed its EMFs, held as L, and every message arrived. */
  ghost predicate FineSent(P: Partition, e: Extents, faces: seq<HangingFace>, X: PI.World, L: nat -> EmfField, sbuf: nat -> seq<real>, rbuf: nat -> seq<real>) {
    && (forall r | 0 <= r < P.nproc :: PI.Built(P, e, faces, r, X(r)) && FinePacked(P, e, r, X(r), L(r), sbuf(r), rbuf(r)))
    && forall A, B | 0 <= A < P.nproc && 0 <= B < P.nproc && A != B ::
         Carried(FaceSlot(e, true), PI.SendCounts(P, A, X(A).list), B, sbuf(A), PI.RecvCounts(P, B, X(B).list), A, rbuf(B))
  }

  ghost predicate FinePacked(P: Partition, e: Extents, r: nat, w: PI.RankState, E: EmfField, sbuf: seq<real>, rbuf: seq<real>) {
    && FacesFilled(e, E, true, w.snd, PI.SendCounts(P, r, w.list), sbuf)
    && |sbuf| == Offset(PI.SendCounts(P, r, w.list), FaceSlot(e, true), P.nproc)
    && |rbuf| == Offset(PI.RecvCounts(P, r, w.list), FaceSlot(e, true), P.nproc)
  }

  /** What the correction kernel of rank B reads for a remote child: its descriptor's slot of the owner's message. */
  ghost predicate ReadsFine(P: Partition, e: Extents, faces: seq<HangingFace>, B: nat, w: PI.RankState, rbuf: seq<real>, recv: Received) {
    forall h, m, c, comp, i, j | h in faces && 0 <= m < |w.local| && Slotted(Descs(P, B, w.list), B, DescOf(P, B, h), w.local[m]) ::
      0 <= c < |h.fine| && c < |w.local[m].fine| && w.local[m].fine[c].isRemote && w.local[m].fine[c].owner < P.nproc
      && 0 <= comp < 2 && 0 <= i < e.nx / 2 && 0 <= j < e.nx / 2 ==>
        recv(h.fine[c], comp, i, j) == FineElement(P, e, B, w, rbuf, m, c, comp, i, j)
  }

  ghost function FineElement(P: Partition, e: Extents, B: nat, w: PI.RankState, rbuf: seq<real>, m: nat, c: nat, comp: nat, i: nat, j: nat): real
    requires m < |w.local| && c < |w.local[m].fine| && w.local[m].fine[c].owner < P.nproc
  {
    var f := w.local[m].fine[c];
    var p := BufIx(PerAxis(e, true), 2, Offset(PI.RecvCounts(P, B, w.list), FaceSlot(e, true), f.owner), i, j, comp, f.bid);
    if p < |rbuf| then rbuf[p] else 0.0
  }

  /** Lists are packed without conflicts: the packing kernel may run. */
  lemma FineServes(P: Partition, e: Extents, nq: nat, nloc: nat -> nat, faces: seq<HangingFace>, r: nat, w: PI.RankState)
    requires P.Valid(nq) && PI.GridFaces(nq, faces) && PI.Built(P, e, faces, r, w) && PI.Enumerates(P, nq, nloc)
    ensures Serves(nloc(r), 6, w.snd, PI.SendCounts(P, r, w.list))
  {
    PI.SendListAddressed(P, e, nq, nloc, faces, r, w);
  }

  /** The mean received for a remote fine face is the one of the owner's EMFs. */
  lemma FineArrives(P: Partition, e: Extents, nq: nat, faces: seq<HangingFace>, X: PI.World, F: nat -> EmfField, L: nat -> EmfField,
                    sbuf: nat -> seq<real>, rbuf: nat -> seq<real>, B: nat, recv: Received, h: HangingFace, c: nat, comp: nat, i: nat, j: nat)
    requires e.Valid() && P.Valid(nq) && PI.GridFaces(nq, faces) && FineSent(P, e, faces, X, L, sbuf, rbuf) && Renumbered(P, nq, F, L)
    requires B < P.nproc && ReadsFine(P, e, faces, B, X(B), rbuf(B), recv)
    requires h in faces && c < |h.fine| && comp < 2 && i < e.nx / 2 && j < e.nx / 2 && P.owner(h.coarse.q) == B && P.owner(h.fine[c].q) != B
    ensures recv(h.fine[c], comp, i, j) == FineValue(e, Owned(P.owner, F), h.fine[c], Fix(i, j, 0, comp, 0))
  {
    var A := P.owner(h.fine[c].q);
    Facts(P, e, nq, faces, X, L, sbuf, rbuf, A, B, h, c);
    var sc, rc := PI.SendCounts(P, A, X(A).list), PI.RecvCounts(P, B, X(B).list);
    hide *;
    var m := PI.LocalExists(P, e, nq, faces, B, X(B), h);
    PI.SlottedFields(P, Descs(P, B, X(B).list), B, h, X(B).local[m], c);
    var k := PI.SlotFilled(P, e, nq, faces, X(A), X(B), A, B, h, c);
    FaceArrives(e, true, L(A), X(A).snd, sc, B, sbuf(A), rc, A, rbuf(B), k, comp, i, j) by { PerAxisFine(e); }
    RenumberedFace(P, nq, F, L, e, true, h.fine[c], comp, i, j);
    ReadAt(P, e, faces, B, X(B), rbuf(B), recv, h, m, c, comp, i, j);
    FineValueIs(e, Owned(P.owner, F), h.fine[c], comp, i, j);
  }

  lemma PerAxisFine(e: Extents)
    ensures PerAxis(e, true) == e.nx / 2
  {
  }

  lemma FineValueIs(e: Extents, E: EmfField, r: FaceRef, comp: nat, i: nat, j: nat)
    ensures FaceValue(e, E, true, r, comp, i, j) == FineValue(e, E, r, Fix(i, j, 0, comp, 0))
  {
  }

  lemma ReadAt(P: Partition, e: Extents, faces: seq<HangingFace>, B: nat, w: PI.RankState, rbuf: seq<real>, recv: Received,
               h: HangingFace, m: nat, c: nat, comp: nat, i: nat, j: nat)
    requires ReadsFine(P, e, faces, B, w, rbuf, recv) && h in faces && m < |w.local| && Slotted(Descs(P, B, w.list), B, DescOf(P, B, h), w.local[m])
    requires c < |h.fine| && c < |w.local[m].fine| && w.local[m].fine[c].isRemote && w.local[m].fine[c].owner < P.nproc
    requires comp < 2 && i < e.nx / 2 && j < e.nx / 2
    ensures var f := w.local[m].fine[c]; var p := BufIx(PerAxis(e, true), 2, Offset(PI.RecvCounts(P, B, w.list), FaceSlot(e, true), f.owner), i, j, comp, f.bid);
      p < |rbuf| ==> recv(h.fine[c], comp, i, j) == rbuf[p]
  {
    hide BufIx, Slotted, DescOf;
    assert recv(h.fine[c], comp, i, j) == FineElement(P, e, B, w, rbuf, m, c, comp, i, j);
  }

  lemma Facts(P: Partition, e: Extents, nq: nat, faces: seq<HangingFace>, X: PI.World, L: nat -> EmfField, sbuf: nat -> seq<real>, rbuf: nat -> seq<real>,
              A: nat, B: nat, h: HangingFace, c: nat)
    requires P.Valid(nq) && PI.GridFaces(nq, faces) && FineSent(P, e, faces, X, L, sbuf, rbuf) && B < P.nproc
    requires h in faces && c < |h.fine| && P.owner(h.fine[c].q) == A && A != B && P.owner(h.coarse.q) == B
    ensures |h.fine| == 4 && h.fine[c].q < nq && A < P.nproc && HangingAgreement.Crosses(P, A, B, h, c)
    ensures PI.Built(P, e, faces, A, X(A)) && PI.Built(P, e, faces, B, X(B))
    ensures FinePacked(P, e, A, X(A), L(A), sbuf(A), rbuf(A)) && FinePacked(P, e, B, X(B), L(B), sbuf(B), rbuf(B))
    ensures var sc, rc := PI.SendCounts(P, A, X(A).list), PI.RecvCounts(P, B, X(B).list);
      && |sc| == |rc| == P.nproc && Carried(FaceSlot(e, true), sc, B, sbuf(A), rc, A, rbuf(B)) && FacesFilled(e, L(A), true, X(A).snd, sc, sbuf(A))
      && |sbuf(A)| == Offset(sc, FaceSlot(e, true), P.nproc) && |rbuf(B)| == Offset(rc, FaceSlot(e, true), P.nproc)
  {
    assert h.fine[c].q < nq;
    hide PI.Built, FacesFilled, Carried;
  }
}
