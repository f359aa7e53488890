/** Packing of the EMFs into the flat send buffers: two components per face element, the
    values along the line for an edge. */
module EmfBuffers {
  import opened Arithmetic
  import opened Grid
  import opened RefluxKeys
  import opened ConstrainedTransport
  import opened FluxBuffers
  import opened EmfLines
  import opened EmfFaces
  import opened EmfEdges

  /** Elements along one axis of a face: coarse positions for fine faces, cells for same-level ones. */
  function PerAxis(e: Extents, fine: bool): nat { if fine then e.nx / 2 else e.nx }

  function FaceSlot(e: Extents, fine: bool): nat { PerAxis(e, fine) * PerAxis(e, fine) * 2 }

  /** What is sent for component comp at element (i, j) of face r: the mean of two fine EMFs, or the EMF itself. */
  ghost function FaceValue(e: Extents, E: EmfField, fine: bool, r: FaceRef, comp: nat, i: nat, j: nat): real {
    if fine then FineValue(e, E, r, Fix(i, j, 0, comp, 0))
    else OnLine(e, E, r, comp, if comp == 0 then i else j, if comp == 0 then j else i)
  }

  /** The send descriptors address slots inside their messages, and a slot belongs to one element. */
  ghost predicate Serves(nq: nat, bound: nat, snd: seq<SendDesc>, counts: seq<nat>) {
    && (forall m | 0 <= m < |snd| :: snd[m].rank < |counts| && snd[m].bufId < counts[snd[m].rank] && snd[m].qid < nq && snd[m].elem < bound)
    && forall m, n | 0 <= m < |snd| && 0 <= n < |snd| && snd[m].rank == snd[n].rank && snd[m].bufId == snd[n].bufId ::
         snd[m].qid == snd[n].qid && snd[m].elem == snd[n].elem
  }

  ghost predicate FillFaceRange(e: Extents, fine: bool, snd: seq<SendDesc>, x: FaceItem) {
    x.i < PerAxis(e, fine) && x.j < PerAxis(e, fine) && x.iq < |snd|
  }

  ghost function FaceIxOf(e: Extents, fine: bool, snd: seq<SendDesc>, counts: seq<nat>, x: FaceItem, comp: nat): nat
    requires x.iq < |snd| && snd[x.iq].rank < |counts|
  {
    BufIx(PerAxis(e, fine), 2, Offset(counts, FaceSlot(e, fine), snd[x.iq].rank), x.i, x.j, comp, snd[x.iq].bufId)
  }

  ghost function FacePacked(e: Extents, E: EmfField, fine: bool, snd: seq<SendDesc>, x: FaceItem, comp: nat): real
    requires x.iq < |snd|
  {
    FaceValue(e, E, fine, FaceRef(snd[x.iq].qid, snd[x.iq].elem), comp, x.i, x.j)
  }

  /** Every element of every send descriptor is in its place. */
  ghost predicate FacesFilled(e: Extents, E: EmfField, fine: bool, snd: seq<SendDesc>, counts: seq<nat>, sbuf: seq<real>) {
    forall x, comp | FillFaceRange(e, fine, snd, x) && 0 <= comp < 2 && snd[x.iq].rank < |counts| && FaceIxOf(e, fine, snd, counts, x, comp) < |sbuf| ::
      sbuf[FaceIxOf(e, fine, snd, counts, x, comp)] == FacePacked(e, E, fine, snd, x, comp)
  }

  lemma FaceIxBound(e: Extents, nq: nat, fine: bool, snd: seq<SendDesc>, counts: seq<nat>, x: FaceItem, comp: nat)
    requires Serves(nq, 6, snd, counts) && FillFaceRange(e, fine, snd, x) && comp < 2
    ensures FaceIxOf(e, fine, snd, counts, x, comp) < Offset(counts, FaceSlot(e, fine), |counts|)
  {
    hide BufIx, MessageSize;
    var d := snd[x.iq];
    BufIxBound(PerAxis(e, fine), 2, Offset(counts, FaceSlot(e, fine), d.rank), x.i, x.j, comp, d.bufId, counts[d.rank]);
    OffsetMonotone(counts, FaceSlot(e, fine), d.rank, |counts|);
  }

  /** Two elements that share a position share the value. */
  lemma FaceIxDetermines(e: Extents, nq: nat, E: EmfField, fine: bool, snd: seq<SendDesc>, counts: seq<nat>, x: FaceItem, c: nat, y: FaceItem, d: nat)
    requires Serves(nq, 6, snd, counts) && FillFaceRange(e, fine, snd, x) && FillFaceRange(e, fine, snd, y) && c < 2 && d < 2
    requires FaceIxOf(e, fine, snd, counts, x, c) == FaceIxOf(e, fine, snd, counts, y, d)
    ensures c == d && FacePacked(e, E, fine, snd, x, c) == FacePacked(e, E, fine, snd, y, d)
  {
    hide BufIx, MessageSize, FaceValue;
    var p, q, n, size := snd[x.iq], snd[y.iq], PerAxis(e, fine), FaceSlot(e, fine);
    BufIxBound(n, 2, Offset(counts, size, p.rank), x.i, x.j, c, p.bufId, counts[p.rank]);
    BufIxBound(n, 2, Offset(counts, size, q.rank), y.i, y.j, d, q.bufId, counts[q.rank]);
    if p.rank < q.rank {
      OffsetMonotone(counts, size, p.rank, q.rank);
    } else if q.rank < p.rank {
      OffsetMonotone(counts, size, q.rank, p.rank);
    } else {
      BufIxInjective(n, 2, Offset(counts, size, p.rank), x.i, x.j, c, p.bufId, y.i, y.j, d, q.bufId);
    }
  }

  /** One component of one element. */
  method ReadFace(e: Extents, nq: nat, emf: array5<real>, fine: bool, r: FaceRef, comp: nat, i: nat, j: nat) returns (v: real)
    requires e.Valid() && EmfSized(e, nq, emf) && r.f < 6 && r.q < nq && comp < 2 && i < PerAxis(e, fine) && j < PerAxis(e, fine)
    ensures v == FaceValue(e, EmfOf(emf), fine, r, comp, i, j)
  {
    if fine {
      hide PairMean, EmfOf;
      if comp == 0 {
        v := ReadMean(e, nq, emf, r, 0, 2 * i, 2 * j);
      } else {
        v := ReadMean(e, nq, emf, r, 1, 2 * j, 2 * i);
      }
    } else {
      var along, off := if comp == 0 then i else j, if comp == 0 then j else i;
      LineInGrid(e, nq, r, comp, off, along);
      var x := At(e, FaceLine(e, r, comp, off), along);
      hide At, FaceLine, EmfOf;
      v := emf[x.i, x.j, x.k, x.d, x.q];
    }
  }

  /** The kernels that pack faces: means of fine faces (fine), or same-level faces as they are. */
  method FillFaceEmfs(e: Extents, nq: nat, fine: bool, emf: array5<real>, snd: seq<SendDesc>, ghost counts: seq<nat>, offsets: seq<nat>,
                      sbuf: array<real>, order: seq<FaceItem>)
    requires e.Valid() && EmfSized(e, nq, emf) && Serves(nq, 6, snd, counts)
    requires |offsets| == |counts| && forall r | 0 <= r < |counts| :: offsets[r] == Offset(counts, FaceSlot(e, fine), r)
    requires sbuf.Length == Offset(counts, FaceSlot(e, fine), |counts|)
    requires Schedule(order, (x: FaceItem) => FillFaceRange(e, fine, snd, x))
    modifies sbuf
    ensures FacesFilled(e, EmfOf(emf), fine, snd, counts, sbuf[..])
  {
    ghost var E, P := EmfOf(emf), (x: FaceItem) => FillFaceRange(e, fine, snd, x);
    hide FacePacked, FaceIxOf, EmfOf, FaceSlot, Offset, FillFaceRange, Serves;
    for n := 0 to |order|
      invariant forall x, c | x in order[..n] && 0 <= c < 2 :: FacePlaced(e, E, fine, snd, counts, sbuf[..], x, c)
    {
      var x := order[n];
      ScheduleStep(order, P, n);
      ghost var before := sbuf[..];
      FillFaceItem(e, nq, fine, emf, snd, counts, offsets, sbuf, x);
      forall y, c | y in order[..n] && 0 <= c < 2 ensures FacePlaced(e, E, fine, snd, counts, sbuf[..], y, c) {
        assert FacePlaced(e, E, fine, snd, counts, before, y, c);
        FacePlacedStays(e, nq, E, fine, snd, counts, before, sbuf[..], x, y, c);
      }
    }
    forall x | FillFaceRange(e, fine, snd, x) ensures x in order[..|order|] {
      assert order[..|order|] == order && P(x);
    }
    AllFacesPlaced(e, E, fine, snd, counts, sbuf[..]);
  }

  ghost predicate FacePlaced(e: Extents, E: EmfField, fine: bool, snd: seq<SendDesc>, counts: seq<nat>, sbuf: seq<real>, x: FaceItem, comp: nat) {
    && FillFaceRange(e, fine, snd, x) && snd[x.iq].rank < |counts| && FaceIxOf(e, fine, snd, counts, x, comp) < |sbuf|
    && sbuf[FaceIxOf(e, fine, snd, counts, x, comp)] == FacePacked(e, E, fine, snd, x, comp)
  }

  lemma AllFacesPlaced(e: Extents, E: EmfField, fine: bool, snd: seq<SendDesc>, counts: seq<nat>, sbuf: seq<real>)
    requires forall x, c | FillFaceRange(e, fine, snd, x) && 0 <= c < 2 :: FacePlaced(e, E, fine, snd, counts, sbuf, x, c)
    ensures FacesFilled(e, E, fine, snd, counts, sbuf)
  {
    hide FacePacked, FaceIxOf;
    forall x, c | FillFaceRange(e, fine, snd, x) && 0 <= c < 2 && snd[x.iq].rank < |counts| && FaceIxOf(e, fine, snd, counts, x, c) < |sbuf|
      ensures sbuf[FaceIxOf(e, fine, snd, counts, x, c)] == FacePacked(e, E, fine, snd, x, c)
    {
      assert FacePlaced(e, E, fine, snd, counts, sbuf, x, c);
    }
  }

  /** Placing item x leaves every other placed element in place. */
  lemma FacePlacedStays(e: Extents, nq: nat, E: EmfField, fine: bool, snd: seq<SendDesc>, counts: seq<nat>, before: seq<real>, after: seq<real>,
                        x: FaceItem, y: FaceItem, c: nat)
    requires Serves(nq, 6, snd, counts) && FillFaceRange(e, fine, snd, x) && c < 2 && |after| == |before|
    requires FacePlaced(e, E, fine, snd, counts, before, y, c) && snd[x.iq].rank < |counts|
    requires FacePlaced(e, E, fine, snd, counts, after, x, 0) && FacePlaced(e, E, fine, snd, counts, after, x, 1)
    requires forall p | 0 <= p < |before| && p != FaceIxOf(e, fine, snd, counts, x, 0) && p != FaceIxOf(e, fine, snd, counts, x, 1) :: after[p] == before[p]
    ensures FacePlaced(e, E, fine, snd, counts, after, y, c)
  {
    hide FacePacked, FaceIxOf, Serves;
    var p := FaceIxOf(e, fine, snd, counts, y, c);
    if p == FaceIxOf(e, fine, snd, counts, x, 0) { FaceIxDetermines(e, nq, E, fine, snd, counts, x, 0, y, c); }
    if p == FaceIxOf(e, fine, snd, counts, x, 1) { FaceIxDetermines(e, nq, E, fine, snd, counts, x, 1, y, c); }
  }

  /** The kernel body: both components of one element. */
  method FillFaceItem(e: Extents, nq: nat, fine: bool, emf: array5<real>, snd: seq<SendDesc>, ghost counts: seq<nat>, offsets: seq<nat>, sbuf: array<real>, x: FaceItem)
    requires e.Valid() && EmfSized(e, nq, emf) && Serves(nq, 6, snd, counts) && FillFaceRange(e, fine, snd, x)
    requires |offsets| == |counts| && forall r | 0 <= r < |counts| :: offsets[r] == Offset(counts, FaceSlot(e, fine), r)
    requires sbuf.Length == Offset(counts, FaceSlot(e, fine), |counts|)
    modifies sbuf
    ensures snd[x.iq].rank < |counts|
    ensures FacePlaced(e, EmfOf(emf), fine, snd, counts, sbuf[..], x, 0) && FacePlaced(e, EmfOf(emf), fine, snd, counts, sbuf[..], x, 1)
    ensures forall p | 0 <= p < sbuf.Length && p != FaceIxOf(e, fine, snd, counts, x, 0) && p != FaceIxOf(e, fine, snd, counts, x, 1) :: sbuf[p] == old(sbuf[p])
  {
    var d := snd[x.iq];
    FaceIxBound(e, nq, fine, snd, counts, x, 0);
    FaceIxBound(e, nq, fine, snd, counts, x, 1);
    var at0 := BufIx(PerAxis(e, fine), 2, offsets[d.rank], x.i, x.j, 0, d.bufId);
    var at1 := BufIx(PerAxis(e, fine), 2, offsets[d.rank], x.i, x.j, 1, d.bufId);
    hide BufIx, FaceValue, EmfOf, Offset, FaceSlot;
    var v0 := ReadFace(e, nq, emf, fine, FaceRef(d.qid, d.elem), 0, x.i, x.j);
    var v1 := ReadFace(e, nq, emf, fine, FaceRef(d.qid, d.elem), 1, x.i, x.j);
    if at0 == at1 { FaceIxDetermines(e, nq, EmfOf(emf), fine, snd, counts, x, 0, x, 1); }
    sbuf[at0] := v0;
    sbuf[at1] := v1;
  }

  // ---- edges ----

  ghost function EdgeIxOf(e: Extents, snd: seq<SendDesc>, counts: seq<nat>, x: EdgeItem): nat
    requires x.iq < |snd| && snd[x.iq].rank < |counts|
  {
    Offset(counts, e.nx, snd[x.iq].rank) + Mixed(e.nx, x.i, snd[x.iq].bufId)
  }

  ghost function EdgePacked(e: Extents, E: EmfField, snd: seq<SendDesc>, x: EdgeItem): real
    requires x.iq < |snd|
  {
    E(At(e, EdgeLine(e, snd[x.iq].elem, snd[x.iq].qid), x.i))
  }

  ghost predicate EdgesFilled(e: Extents, E: EmfField, snd: seq<SendDesc>, counts: seq<nat>, sbuf: seq<real>) {
    forall x | EdgeRange(e, |snd|, x) && snd[x.iq].rank < |counts| && EdgeIxOf(e, snd, counts, x) < |sbuf| ::
      sbuf[EdgeIxOf(e, snd, counts, x)] == EdgePacked(e, E, snd, x)
  }

  lemma EdgeIxInMessage(e: Extents, nq: nat, snd: seq<SendDesc>, counts: seq<nat>, x: EdgeItem)
    requires Serves(nq, 12, snd, counts) && EdgeRange(e, |snd|, x)
    ensures Mixed(e.nx, x.i, snd[x.iq].bufId) < MessageSize(counts[snd[x.iq].rank], e.nx)
  {
    var d := snd[x.iq];
    MixedBound(e.nx, x.i, d.bufId, counts[d.rank]);
  }

  lemma EdgeIxBound(e: Extents, nq: nat, snd: seq<SendDesc>, counts: seq<nat>, x: EdgeItem)
    requires Serves(nq, 12, snd, counts) && EdgeRange(e, |snd|, x)
    ensures EdgeIxOf(e, snd, counts, x) < Offset(counts, e.nx, |counts|)
  {
    EdgeIxInMessage(e, nq, snd, counts, x);
    hide MessageSize, Mixed;
    OffsetMonotone(counts, e.nx, snd[x.iq].rank, |counts|);
  }

  lemma EdgeIxDetermines(e: Extents, nq: nat, E: EmfField, snd: seq<SendDesc>, counts: seq<nat>, x: EdgeItem, y: EdgeItem)
    requires Serves(nq, 12, snd, counts) && EdgeRange(e, |snd|, x) && EdgeRange(e, |snd|, y)
    requires EdgeIxOf(e, snd, counts, x) == EdgeIxOf(e, snd, counts, y)
    ensures EdgePacked(e, E, snd, x) == EdgePacked(e, E, snd, y)
  {
    var p, q := snd[x.iq], snd[y.iq];
    EdgeIxInMessage(e, nq, snd, counts, x);
    EdgeIxInMessage(e, nq, snd, counts, y);
    hide MessageSize, Mixed, At, EdgeLine;
    if p.rank < q.rank {
      OffsetMonotone(counts, e.nx, p.rank, q.rank);
    } else if q.rank < p.rank {
      OffsetMonotone(counts, e.nx, q.rank, p.rank);
    } else {
      MixedInjective(e.nx, x.i, p.bufId, y.i, q.bufId);
    }
  }

  /** The kernel body: what position i of a line sends, and where it goes. */
  method FillEdgeOne(e: Extents, nq: nat, emf: array5<real>, snd: seq<SendDesc>, ghost counts: seq<nat>, offsets: seq<nat>, x: EdgeItem) returns (at: nat, v: real)
    requires e.Valid() && EmfSized(e, nq, emf) && Serves(nq, 12, snd, counts) && EdgeRange(e, |snd|, x)
    requires |offsets| == |counts| && forall r | 0 <= r < |counts| :: offsets[r] == Offset(counts, e.nx, r)
    ensures at == EdgeIxOf(e, snd, counts, x) && v == EdgePacked(e, EmfOf(emf), snd, x)
  {
    var d := snd[x.iq];
    var l := EdgeLine(e, d.elem, d.qid);
    EdgeInGrid(e, nq, l, x.i);
    var y := At(e, l, x.i);
    hide At, EdgeLine, EmfOf, Offset;
    v := emf[y.i, y.j, y.k, y.d, y.q];
    at := offsets[d.rank] + Mixed(e.nx, x.i, d.bufId);
  }

  /** The kernels that pack edges, with or without fine sides. */
  method FillEdgeEmfs(e: Extents, nq: nat, emf: array5<real>, snd: seq<SendDesc>, ghost counts: seq<nat>, offsets: seq<nat>, sbuf: array<real>, order: seq<EdgeItem>)
    requires e.Valid() && EmfSized(e, nq, emf) && Serves(nq, 12, snd, counts)
    requires |offsets| == |counts| && forall r | 0 <= r < |counts| :: offsets[r] == Offset(counts, e.nx, r)
    requires sbuf.Length == Offset(counts, e.nx, |counts|)
    requires Schedule(order, (x: EdgeItem) => EdgeRange(e, |snd|, x))
    modifies sbuf
    ensures EdgesFilled(e, EmfOf(emf), snd, counts, sbuf[..])
  {
    ghost var E, P := EmfOf(emf), (x: EdgeItem) => EdgeRange(e, |snd|, x);
    hide EdgePacked, EdgeIxOf, EmfOf, Offset;
    for n := 0 to |order|
      invariant forall x | x in order[..n] :: EdgeRange(e, |snd|, x) && EdgeIxOf(e, snd, counts, x) < sbuf.Length
                  && sbuf[EdgeIxOf(e, snd, counts, x)] == EdgePacked(e, E, snd, x)
    {
      var x := order[n];
      ScheduleStep(order, P, n);
      EdgeIxBound(e, nq, snd, counts, x);
      var at, v := FillEdgeOne(e, nq, emf, snd, counts, offsets, x);
      forall y | y in order[..n] && EdgeIxOf(e, snd, counts, y) == at ensures EdgePacked(e, E, snd, y) == v {
        EdgeIxDetermines(e, nq, E, snd, counts, x, y);
      }
      sbuf[at] := v;
    }
    forall x | EdgeRange(e, |snd|, x) ensures x in order[..|order|] {
      assert order[..|order|] == order && P(x);
    }
  }
}
