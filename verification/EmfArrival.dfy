/** What a rank reads from its receive buffers is what the sender packed, whatever the
    sizes and offsets of the two sides' messages. */
module EmfArrival {
  import opened Arithmetic
  import opened Grid
  import opened Ranks
  import opened RefluxKeys
  import opened ConstrainedTransport
  import opened FluxBuffers
  import opened EmfLines
  import opened EmfFaces
  import opened EmfEdges
  import opened EmfBuffers
  import opened EmfCorrection

  /** Message number b of the sender arrived as message number a of the receiver. */
  ghost predicate Carried(size: nat, sc: seq<nat>, b: nat, sbuf: seq<real>, rc: seq<nat>, a: nat, rbuf: seq<real>)
    requires b < |sc| && a < |rc|
  {
    forall t | 0 <= t < MessageSize(sc[b], size) :: Element(rbuf, Offset(rc, size, a), t) == Element(sbuf, Offset(sc, size, b), t)
  }

  lemma MessageInside(size: nat, counts: seq<nat>, b: nat, t: nat)
    requires b < |counts| && t < MessageSize(counts[b], size)
    ensures Offset(counts, size, b) + t < Offset(counts, size, |counts|)
  {
    hide MessageSize;
    OffsetMonotone(counts, size, b, |counts|);
  }

  /** A position of the message holds on both sides the same. */
  lemma SameElement(size: nat, sc: seq<nat>, b: nat, sbuf: seq<real>, rc: seq<nat>, a: nat, rbuf: seq<real>, t: nat)
    requires b < |sc| && a < |rc| && sc[b] == rc[a] && Carried(size, sc, b, sbuf, rc, a, rbuf) && t < MessageSize(sc[b], size)
    requires |sbuf| == Offset(sc, size, |sc|) && |rbuf| == Offset(rc, size, |rc|)
    ensures Offset(rc, size, a) + t < |rbuf| && Offset(sc, size, b) + t < |sbuf|
    ensures rbuf[Offset(rc, size, a) + t] == sbuf[Offset(sc, size, b) + t]
  {
    MessageInside(size, sc, b, t);
    MessageInside(size, rc, a, t);
    hide Offset, MessageSize;
    assert Element(rbuf, Offset(rc, size, a), t) == Element(sbuf, Offset(sc, size, b), t);
  }

  /** The face element read in a slot of rank a's message is the one packed for rank b in that slot. */
  lemma FaceArrives(e: Extents, fine: bool, E: EmfField, snd: seq<SendDesc>, sc: seq<nat>, b: nat, sbuf: seq<real>, rc: seq<nat>, a: nat, rbuf: seq<real>,
                    k: nat, comp: nat, i: nat, j: nat)
    requires FacesFilled(e, E, fine, snd, sc, sbuf) && k < |snd| && snd[k].rank == b && b < |sc| && a < |rc| && sc[b] == rc[a]
    requires snd[k].bufId < sc[b] && Carried(FaceSlot(e, fine), sc, b, sbuf, rc, a, rbuf)
    requires |sbuf| == Offset(sc, FaceSlot(e, fine), |sc|) && |rbuf| == Offset(rc, FaceSlot(e, fine), |rc|)
    requires comp < 2 && i < PerAxis(e, fine) && j < PerAxis(e, fine)
    ensures var p := BufIx(PerAxis(e, fine), 2, Offset(rc, FaceSlot(e, fine), a), i, j, comp, snd[k].bufId);
      p < |rbuf| && rbuf[p] == FaceValue(e, E, fine, FaceRef(snd[k].qid, snd[k].elem), comp, i, j)
  {
    var n, size, x := PerAxis(e, fine), FaceSlot(e, fine), FaceItem(i, j, k);
    var so, ro := Offset(sc, size, b), Offset(rc, size, a);
    var t := BufIx(n, 2, 0, i, j, comp, snd[k].bufId);
    assert FillFaceRange(e, fine, snd, x) && FaceIxOf(e, fine, snd, sc, x, comp) == BufIx(n, 2, so, i, j, comp, snd[k].bufId);
    hide MessageSize, BufIx, Offset, FaceValue, Carried;
    BufIxBound(n, 2, 0, i, j, comp, snd[k].bufId, sc[b]);
    Shift(n, so, i, j, comp, snd[k].bufId);
    Shift(n, ro, i, j, comp, snd[k].bufId);
    SameElement(size, sc, b, sbuf, rc, a, rbuf, t);
    assert sbuf[FaceIxOf(e, fine, snd, sc, x, comp)] == FacePacked(e, E, fine, snd, x, comp);
  }

  lemma Shift(n: nat, offset: nat, i: nat, j: nat, comp: nat, bid: nat)
    ensures BufIx(n, 2, offset, i, j, comp, bid) == offset + BufIx(n, 2, 0, i, j, comp, bid)
  {
  }

  /** The same for the lines of edges. */
  lemma EdgeArrives(e: Extents, E: EmfField, snd: seq<SendDesc>, sc: seq<nat>, b: nat, sbuf: seq<real>, rc: seq<nat>, a: nat, rbuf: seq<real>, k: nat, i: nat)
    requires EdgesFilled(e, E, snd, sc, sbuf) && k < |snd| && snd[k].rank == b && b < |sc| && a < |rc| && sc[b] == rc[a]
    requires snd[k].bufId < sc[b] && Carried(e.nx, sc, b, sbuf, rc, a, rbuf) && i < e.nx
    requires |sbuf| == Offset(sc, e.nx, |sc|) && |rbuf| == Offset(rc, e.nx, |rc|)
    ensures var p := Offset(rc, e.nx, a) + Mixed(e.nx, i, snd[k].bufId);
      p < |rbuf| && rbuf[p] == E(At(e, EdgeLine(e, snd[k].elem, snd[k].qid), i))
  {
    var x, t := EdgeItem(i, k), Mixed(e.nx, i, snd[k].bufId);
    MixedBound(e.nx, i, snd[k].bufId, sc[b]);
    assert t < MessageSize(sc[b], e.nx);
    assert EdgeRange(e, |snd|, x) && EdgeIxOf(e, snd, sc, x) == Offset(sc, e.nx, b) + t;
    hide MessageSize, Mixed, Offset, At, EdgeLine, Carried;
    SameElement(e.nx, sc, b, sbuf, rc, a, rbuf, t);
    assert sbuf[EdgeIxOf(e, snd, sc, x)] == EdgePacked(e, E, snd, x);
  }

  // ---- local quadrant numbers ----

  /** L holds each rank's EMFs under its own quadrant numbers, F the same under the global ones. */
  ghost predicate Renumbered(P: Partition, nq: nat, F: nat -> EmfField, L: nat -> EmfField) {
    forall x: EmfIx {:trigger Owned(P.owner, F)(x)} | 0 <= x.q < nq :: Owned(P.owner, F)(x) == L(P.owner(x.q))(x.(q := P.lid(x.q)))
  }

  lemma AtQuad(e: Extents, l: Line, q: nat, i: int)
    ensures At(e, l, i).(q := q) == At(e, l.(q := q), i) && At(e, l, i).q == l.q
  {
  }

  lemma FaceLineMoved(e: Extents, r: FaceRef, q: nat, comp: nat, off: int)
    ensures FaceLine(e, FaceRef(q, r.f), comp, off) == FaceLine(e, r, comp, off).(q := q) && FaceLine(e, r, comp, off).q == r.q
  {
  }

  lemma RenumberedLine(P: Partition, nq: nat, F: nat -> EmfField, L: nat -> EmfField, e: Extents, l: Line, i: int)
    requires Renumbered(P, nq, F, L) && l.q < nq
    ensures L(P.owner(l.q))(At(e, l.(q := P.lid(l.q)), i)) == Owned(P.owner, F)(At(e, l, i))
  {
    AtQuad(e, l, P.lid(l.q), i);
    hide At, Owned;
    assert Owned(P.owner, F)(At(e, l, i)) == L(P.owner(l.q))(At(e, l, i).(q := P.lid(l.q)));
  }

  lemma RenumberedOnLine(P: Partition, nq: nat, F: nat -> EmfField, L: nat -> EmfField, e: Extents, r: FaceRef, comp: nat, along: int, off: int)
    requires Renumbered(P, nq, F, L) && r.q < nq
    ensures OnLine(e, L(P.owner(r.q)), FaceRef(P.lid(r.q), r.f), comp, along, off) == OnLine(e, Owned(P.owner, F), r, comp, along, off)
  {
    FaceLineMoved(e, r, P.lid(r.q), comp, off);
    hide At, FaceLine, Owned, Renumbered;
    RenumberedLine(P, nq, F, L, e, FaceLine(e, r, comp, off), along);
  }

  /** The owner packs the value of the global field. */
  lemma RenumberedFace(P: Partition, nq: nat, F: nat -> EmfField, L: nat -> EmfField, e: Extents, fine: bool, r: FaceRef, comp: nat, i: nat, j: nat)
    requires Renumbered(P, nq, F, L) && r.q < nq && comp < 2
    ensures FaceValue(e, L(P.owner(r.q)), fine, FaceRef(P.lid(r.q), r.f), comp, i, j) == FaceValue(e, Owned(P.owner, F), fine, r, comp, i, j)
  {
    hide OnLine, Owned, Renumbered;
    var along, off := if comp == 0 then i else j, if comp == 0 then j else i;
    RenumberedOnLine(P, nq, F, L, e, r, comp, along, off);
    RenumberedOnLine(P, nq, F, L, e, r, comp, 2 * along, 2 * off);
    RenumberedOnLine(P, nq, F, L, e, r, comp, 2 * along + 1, 2 * off);
  }
}
