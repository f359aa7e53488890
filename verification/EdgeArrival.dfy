/** The EMFs along edges, carried to every rank with another octant of the edge; fine tells
    edges with fine sides from edges without. */
module EdgeArrival {
  import opened Arithmetic
  import opened Ordering
  import opened Grid
  import opened Ranks
  import opened RefluxKeys
  import opened ConstrainedTransport
  import opened EdgeKeys
  import opened EdgeAgreement
  import opened EmfLines
  import opened EmfEdges
  import opened EmfBuffers
  import EmfCorrection
  import opened EmfArrival

  /** What a rank builds for its edges. */
  datatype EdgeState = EdgeState(list: seq<Edge>, slotted: seq<EdgeDesc>, snd: seq<SendDesc>)

  ghost function SendCounts(P: Partition, fine: bool, r: nat, list: seq<Edge>): (c: seq<nat>)
    ensures |c| == P.nproc && forall b | 0 <= b < P.nproc :: c[b] == |AllSendKeys(fine, Descs(P, r, list), b)|
  {
    seq(P.nproc, b requires 0 <= b < P.nproc => |AllSendKeys(fine, Descs(P, r, list), b)|)
  }

  ghost function RecvCounts(P: Partition, fine: bool, r: nat, list: seq<Edge>): (c: seq<nat>)
    ensures |c| == P.nproc && forall b | 0 <= b < P.nproc :: c[b] == |AllRecvKeys(fine, Descs(P, r, list), b)|
  {
    seq(P.nproc, b requires 0 <= b < P.nproc => |AllRecvKeys(fine, Descs(P, r, list), b)|)
  }

  ghost predicate Built(P: Partition, fine: bool, edges: seq<Edge>, r: nat, w: EdgeState) {
    var descs := Descs(P, r, w.list);
    && Listed(P, r, edges, w.list) && |w.slotted| == |descs|
    && (forall n | 0 <= n < |descs| :: Slotted(fine, descs, descs[n], w.slotted[n]))
    && Elements(w.snd) == Union(Messages(fine, descs), descs)
  }

  ghost function EntryFor(P: Partition, fine: bool, r: nat, w: EdgeState, b: nat, s: GlobalSide, q: nat): SendDesc {
    MessageFor(fine, Descs(P, r, w.list), b, Key(P.lid(q), s.edge))
  }

  lemma InMessages(fine: bool, descs: seq<EdgeDesc>, d: EdgeDesc, m: SendDesc) returns (s: Side, o: Octant, t: Side, x: Octant)
    requires m in Messages(fine, descs)(d)
    ensures s in d && s.isFine == fine && o in s.octants && !o.isRemote && t in d && x in t.octants && x.isRemote
    ensures m == MessageFor(fine, descs, x.owner, Key(o.qid, s.edge))
  {
    hide Union, MessageFor;
    InUnion(SideMessages(fine, descs, d), d, m);
    s :| s in d && m in SideMessages(fine, descs, d)(s);
    InUnion(OctantMessages(fine, descs, d, s.edge), s.octants, m);
    o :| o in s.octants && m in OctantMessages(fine, descs, d, s.edge)(o);
    InUnion(ToSide(fine, descs, Key(o.qid, s.edge)), d, m);
    t :| t in d && m in ToSide(fine, descs, Key(o.qid, s.edge))(t);
    InUnion(ToOctant(fine, descs, Key(o.qid, s.edge)), t.octants, m);
    x :| x in t.octants && m in ToOctant(fine, descs, Key(o.qid, s.edge))(x);
  }

  lemma MessagesHold(fine: bool, descs: seq<EdgeDesc>, d: EdgeDesc, s: Side, o: Octant, t: Side, x: Octant)
    requires s in d && s.isFine == fine && o in s.octants && !o.isRemote && t in d && x in t.octants && x.isRemote
    ensures MessageFor(fine, descs, x.owner, Key(o.qid, s.edge)) in Messages(fine, descs)(d)
  {
    var k := Key(o.qid, s.edge);
    var m := MessageFor(fine, descs, x.owner, k);
    hide Union, MessageFor;
    assert m in ToOctant(fine, descs, k)(x);
    InUnion(ToOctant(fine, descs, k), t.octants, m);
    assert m in ToSide(fine, descs, k)(t);
    InUnion(ToSide(fine, descs, k), d, m);
    assert m in OctantMessages(fine, descs, d, s.edge)(o);
    InUnion(OctantMessages(fine, descs, d, s.edge), s.octants, m);
    assert m in SideMessages(fine, descs, d)(s);
    InUnion(SideMessages(fine, descs, d), d, m);
  }

  lemma OctantIs(P: Partition, r: nat, q: nat)
    ensures var o := OctantOf(P, r, q); o.owner == P.owner(q) && (o.isRemote <==> P.owner(q) != r) && o.qid == P.Qid(r, q)
  {
  }

  /** Every entry of the send list is an own line of an edge that has an octant elsewhere. */
  lemma MessageOrigin(P: Partition, fine: bool, edges: seq<Edge>, r: nat, w: EdgeState, m: SendDesc) returns (h: Edge, s: GlobalSide, q: nat)
    requires Built(P, fine, edges, r, w) && m in w.snd
    ensures h in edges && m.rank != r && Crosses(P, fine, r, m.rank, h, s, q) && m == EntryFor(P, fine, r, w, m.rank, s, q)
  {
    var descs := Descs(P, r, w.list);
    assert m in Elements(w.snd);
    hide DescOf, SlotOf, AllSendKeys, Union, SideOf, Slotted, OctantOf;
    InUnion(Messages(fine, descs), descs, m);
    var d :| d in descs && m in Messages(fine, descs)(d);
    var k :| 0 <= k < |w.list| && d == DescOf(P, r, w.list[k]);
    h := w.list[k];
    assert h in w.list;
    var side, o, other, x := InMessages(fine, descs, d, m);
    var t, p := Origin(P, r, h, other, x);
    s, q := Origin(P, r, h, side, o);
    SideFields(P, r, s);
    OctantIs(P, r, p);
    OctantIs(P, r, q);
    TouchedBy(P, x.owner, h, t, p);
  }

  /** ... and every such line has an entry. */
  lemma MessageExists(P: Partition, fine: bool, edges: seq<Edge>, r: nat, b: nat, w: EdgeState, h: Edge, s: GlobalSide, q: nat)
    requires Built(P, fine, edges, r, w) && h in edges && b != r && Crosses(P, fine, r, b, h, s, q)
    ensures EntryFor(P, fine, r, w, b, s, q) in w.snd
  {
    var descs := Descs(P, r, w.list);
    var t, p :| t in h && p in t.quads && P.owner(p) == b;
    TouchedBy(P, r, h, s, q);
    assert h in w.list;
    var k :| 0 <= k < |w.list| && w.list[k] == h;
    Recorded(P, r, h, s, q);
    Recorded(P, r, h, t, p);
    SideFields(P, r, s);
    OctantIs(P, r, p);
    OctantIs(P, r, q);
    hide DescOf, SlotOf, AllSendKeys, Union, SideOf, Slotted, OctantOf;
    MessagesHold(fine, descs, descs[k], SideOf(P, r, s), OctantOf(P, r, q), SideOf(P, r, t), OctantOf(P, r, p));
    var m := MessageFor(fine, descs, b, Key(P.lid(q), s.edge));
    InUnion(Messages(fine, descs), descs, m);
    assert m in Elements(w.snd);
  }

  lemma ListedIs(P: Partition, fine: bool, edges: seq<Edge>, r: nat, w: EdgeState)
    requires Built(P, fine, edges, r, w)
    ensures Listed(P, r, edges, w.list)
  {
  }

  /** The entry of a line: its slot lies in the message, is the one the receiver gives it, and belongs to it alone. */
  lemma EntrySlot(P: Partition, nq: nat, fine: bool, edges: seq<Edge>, A: nat, B: nat, wa: EdgeState, wb: EdgeState, h: Edge, s: GlobalSide, q: nat)
    requires P.Valid(nq) && WellFormed(nq, edges) && A != B && Built(P, fine, edges, A, wa) && Built(P, fine, edges, B, wb)
    requires h in edges && Crosses(P, fine, A, B, h, s, q)
    ensures var snd, rcv, m := AllSendKeys(fine, Descs(P, A, wa.list), B), AllRecvKeys(fine, Descs(P, B, wb.list), A), EntryFor(P, fine, A, wa, B, s, q);
      && m.rank == B && m.qid == P.lid(q) && m.elem == s.edge && |snd| == |rcv|
      && m.bufId == SlotOf(rcv, Key(P.view(B, q), s.edge)) < |snd|
    ensures forall g, t, p | g in edges && Crosses(P, fine, A, B, g, t, p) && EntryFor(P, fine, A, wa, B, t, p).bufId == EntryFor(P, fine, A, wa, B, s, q).bufId ::
              p == q && t.edge == s.edge
  {
    hide AllSendKeys, AllRecvKeys, SlotOf, Built, WellFormed, Crosses;
    ListedIs(P, fine, edges, A, wa);
    ListedIs(P, fine, edges, B, wb);
    SlotAgreement(P, nq, fine, edges, A, B, wa.list, wb.list);
  }

  /** Lists are packed without conflicts: the packing kernel may run. */
  lemma EdgeServes(P: Partition, nq: nat, fine: bool, nloc: nat -> nat, edges: seq<Edge>, X: nat -> EdgeState, r: nat)
    requires P.Valid(nq) && WellFormed(nq, edges) && r < P.nproc && forall b | 0 <= b < P.nproc :: Built(P, fine, edges, b, X(b))
    requires forall q | 0 <= q < nq :: P.lid(q) < nloc(P.owner(q))
    requires forall h, s | h in edges && s in h :: s.edge < 12
    ensures Serves(nloc(r), 12, X(r).snd, SendCounts(P, fine, r, X(r).list))
  {
    var w, counts := X(r), SendCounts(P, fine, r, X(r).list);
    hide Built, AllSendKeys, AllRecvKeys, EntryFor, Touches;
    forall m | 0 <= m < |w.snd|
      ensures w.snd[m].rank < P.nproc && w.snd[m].bufId < counts[w.snd[m].rank] && w.snd[m].qid < nloc(r) && w.snd[m].elem < 12
    {
      var h, s, q := MessageOrigin(P, fine, edges, r, w, w.snd[m]);
      RankInRange(P, nq, fine, edges, r, w.snd[m].rank, h, s, q);
      EntrySlot(P, nq, fine, edges, r, w.snd[m].rank, w, X(w.snd[m].rank), h, s, q);
    }
    forall m, k | 0 <= m < |w.snd| && 0 <= k < |w.snd| && w.snd[m].rank == w.snd[k].rank && w.snd[m].bufId == w.snd[k].bufId
      ensures w.snd[m].qid == w.snd[k].qid && w.snd[m].elem == w.snd[k].elem
    {
      var b := w.snd[m].rank;
      var g, t, p := MessageOrigin(P, fine, edges, r, w, w.snd[m]);
      var h, s, q := MessageOrigin(P, fine, edges, r, w, w.snd[k]);
      RankInRange(P, nq, fine, edges, r, b, h, s, q);
      EntrySlot(P, nq, fine, edges, r, b, w, X(b), h, s, q);
      EntrySlot(P, nq, fine, edges, r, b, w, X(b), g, t, p);
    }
  }

  lemma RankInRange(P: Partition, nq: nat, fine: bool, edges: seq<Edge>, A: nat, B: nat, h: Edge, s: GlobalSide, q: nat)
    requires P.Valid(nq) && WellFormed(nq, edges) && h in edges && Crosses(P, fine, A, B, h, s, q)
    ensures B < P.nproc && A < P.nproc && q < nq && P.owner(q) == A && s in h
  {
    var t, p :| t in h && p in t.quads && P.owner(p) == B;
    assert p < nq;
  }

  /** Every rank packed its EMFs, held as L, and every message arrived. */
  ghost predicate EdgesSent(P: Partition, e: Extents, fine: bool, edges: seq<Edge>, X: nat -> EdgeState, L: nat -> EmfField, sbuf: nat -> seq<real>, rbuf: nat -> seq<real>) {
    && (forall r | 0 <= r < P.nproc :: Built(P, fine, edges, r, X(r)) && EdgesPacked(P, e, fine, r, X(r), L(r), sbuf(r), rbuf(r)))
    && forall A, B | 0 <= A < P.nproc && 0 <= B < P.nproc && A != B ::
         Carried(e.nx, SendCounts(P, fine, A, X(A).list), B, sbuf(A), RecvCounts(P, fine, B, X(B).list), A, rbuf(B))
  }

  ghost predicate EdgesPacked(P: Partition, e: Extents, fine: bool, r: nat, w: EdgeState, E: EmfField, sbuf: seq<real>, rbuf: seq<real>) {
    && EdgesFilled(e, E, w.snd, SendCounts(P, fine, r, w.list), sbuf)
    && |sbuf| == Offset(SendCounts(P, fine, r, w.list), e.nx, P.nproc)
    && |rbuf| == Offset(RecvCounts(P, fine, r, w.list), e.nx, P.nproc)
  }

  /** Octant c of side n of edge m as the descriptors hold it. */
  ghost predicate Remote(P: Partition, w: EdgeState, m: nat, n: nat, c: nat) {
    && m < |w.list| == |w.slotted| && n < |w.list[m]| == |w.slotted[m]| && c < |w.list[m][n].quads| == |w.slotted[m][n].octants|
    && w.slotted[m][n].octants[c].isRemote && w.slotted[m][n].octants[c].owner < P.nproc
  }

  /** What the edge kernel of rank B reads for a remote octant of a side that takes part. */
  ghost predicate ReadsEdges(P: Partition, e: Extents, fine: bool, B: nat, w: EdgeState, rbuf: seq<real>, recv: ReceivedEdges) {
    forall m: nat, n: nat, c: nat, i: nat | Remote(P, w, m, n, c) && w.list[m][n].isFine == fine && i < e.nx ::
      recv(w.list[m][n].quads[c], w.list[m][n].edge, i) == EdgeElement(P, e, fine, B, w, rbuf, m, n, c, i)
  }

  ghost function EdgeElement(P: Partition, e: Extents, fine: bool, B: nat, w: EdgeState, rbuf: seq<real>, m: nat, n: nat, c: nat, i: nat): real
    requires Remote(P, w, m, n, c)
  {
    var o := w.slotted[m][n].octants[c];
    var p := Offset(RecvCounts(P, fine, B, w.list), e.nx, o.owner) + Mixed(e.nx, i, o.bid);
    if p < |rbuf| then rbuf[p] else 0.0
  }

  /** Where octant q of side s of edge h stands in rank B's descriptors, and the slot written back for it. */
  lemma SlotWritten(P: Partition, nq: nat, fine: bool, edges: seq<Edge>, B: nat, w: EdgeState, h: Edge, s: GlobalSide, q: nat) returns (m: nat, n: nat, c: nat)
    requires P.Valid(nq) && Built(P, fine, edges, B, w) && h in edges && s in h && s.isFine == fine && q in s.quads && q < nq && Touches(P, B, h) && P.owner(q) != B
    ensures Remote(P, w, m, n, c) && w.list[m] == h && w.list[m][n] == s && w.list[m][n].quads[c] == q && w.slotted[m][n].octants[c].owner == P.owner(q)
    ensures w.slotted[m][n].octants[c].bid == SlotOf(AllRecvKeys(fine, Descs(P, B, w.list), P.owner(q)), Key(P.view(B, q), s.edge))
  {
    hide SlotOf, AllRecvKeys, Union, Touches;
    assert h in w.list;
    m :| 0 <= m < |w.list| && w.list[m] == h;
    n :| 0 <= n < |h| && h[n] == s;
    c :| 0 <= c < |s.quads| && s.quads[c] == q;
    var descs := Descs(P, B, w.list);
    assert Slotted(fine, descs, descs[m], w.slotted[m]) && descs[m] == DescOf(P, B, h) && descs[m][n] == SideOf(P, B, s);
    assert SlottedSide(fine, descs, descs[m][n], w.slotted[m][n]);
    assert SideOf(P, B, s).octants[c] == OctantOf(P, B, q);
    hide Slotted, SlottedSide, DescOf, SideOf;
    assert w.slotted[m][n].octants[c] == SlottedOctant(fine, descs, descs[m][n], OctantOf(P, B, q));
    SideFields(P, B, s);
  }

  lemma Facts(P: Partition, e: Extents, nq: nat, fine: bool, edges: seq<Edge>, X: nat -> EdgeState, L: nat -> EmfField, sbuf: nat -> seq<real>, rbuf: nat -> seq<real>,
              A: nat, B: nat)
    requires EdgesSent(P, e, fine, edges, X, L, sbuf, rbuf) && A < P.nproc && B < P.nproc && A != B
    ensures Built(P, fine, edges, A, X(A)) && Built(P, fine, edges, B, X(B))
    ensures var sc, rc := SendCounts(P, fine, A, X(A).list), RecvCounts(P, fine, B, X(B).list);
      && |sc| == |rc| == P.nproc && Carried(e.nx, sc, B, sbuf(A), rc, A, rbuf(B)) && EdgesFilled(e, L(A), X(A).snd, sc, sbuf(A))
      && |sbuf(A)| == Offset(sc, e.nx, P.nproc) && |rbuf(B)| == Offset(rc, e.nx, P.nproc)
      && sc[B] == |AllSendKeys(fine, Descs(P, A, X(A).list), B)| && rc[A] == |AllRecvKeys(fine, Descs(P, B, X(B).list), A)|
  {
    hide Built, EdgesFilled, Carried, AllSendKeys, AllRecvKeys;
    assert EdgesPacked(P, e, fine, A, X(A), L(A), sbuf(A), rbuf(A)) && EdgesPacked(P, e, fine, B, X(B), L(B), sbuf(B), rbuf(B));
  }

  lemma ReadAt(P: Partition, e: Extents, fine: bool, B: nat, w: EdgeState, rbuf: seq<real>, recv: ReceivedEdges, m: nat, n: nat, c: nat, i: nat)
    requires ReadsEdges(P, e, fine, B, w, rbuf, recv) && Remote(P, w, m, n, c) && w.list[m][n].isFine == fine && i < e.nx
    ensures var o := w.slotted[m][n].octants[c]; var p := Offset(RecvCounts(P, fine, B, w.list), e.nx, o.owner) + Mixed(e.nx, i, o.bid);
      p < |rbuf| ==> recv(w.list[m][n].quads[c], w.list[m][n].edge, i) == rbuf[p]
  {
    hide Mixed;
    assert recv(w.list[m][n].quads[c], w.list[m][n].edge, i) == EdgeElement(P, e, fine, B, w, rbuf, m, n, c, i);
  }

  lemma EdgeLineMoved(e: Extents, edge: nat, q: nat, q': nat)
    ensures EdgeLine(e, edge, q') == EdgeLine(e, edge, q).(q := q') && EdgeLine(e, edge, q).q == q
  {
  }

  /** A packed its line q of side s of h in the slot where B expects it. */
  lemma SlotFilled(P: Partition, nq: nat, fine: bool, edges: seq<Edge>, wa: EdgeState, wb: EdgeState, A: nat, B: nat, h: Edge, s: GlobalSide, q: nat) returns (k: nat)
    requires P.Valid(nq) && WellFormed(nq, edges) && A != B && Built(P, fine, edges, A, wa) && Built(P, fine, edges, B, wb)
    requires h in edges && Crosses(P, fine, A, B, h, s, q)
    ensures k < |wa.snd|
    ensures var snd, rcv := AllSendKeys(fine, Descs(P, A, wa.list), B), AllRecvKeys(fine, Descs(P, B, wb.list), A);
      wa.snd[k] == SendDesc(B, SlotOf(rcv, Key(P.view(B, q), s.edge)), P.lid(q), s.edge) && |snd| == |rcv| && wa.snd[k].bufId < |snd|
  {
    hide *;
    EntrySlot(P, nq, fine, edges, A, B, wa, wb, h, s, q);
    MessageExists(P, fine, edges, A, B, wa, h, s, q);
    k :| 0 <= k < |wa.snd| && wa.snd[k] == EntryFor(P, fine, A, wa, B, s, q);
  }

  /** The EMF received for a remote octant of an edge is the owner's. */
  lemma EdgeArrivesAt(P: Partition, e: Extents, nq: nat, fine: bool, edges: seq<Edge>, X: nat -> EdgeState, F: nat -> EmfField, L: nat -> EmfField,
                      sbuf: nat -> seq<real>, rbuf: nat -> seq<real>, B: nat, recv: ReceivedEdges, h: Edge, s: GlobalSide, q: nat, i: nat)
    requires P.Valid(nq) && WellFormed(nq, edges) && EdgesSent(P, e, fine, edges, X, L, sbuf, rbuf) && Renumbered(P, nq, F, L)
    requires B < P.nproc && ReadsEdges(P, e, fine, B, X(B), rbuf(B), recv)
    requires h in edges && s in h && s.isFine == fine && q in s.quads && q < nq && Touches(P, B, h) && P.owner(q) != B && P.owner(q) < P.nproc && i < e.nx
    ensures recv(q, s.edge, i) == EmfCorrection.Owned(P.owner, F)(At(e, EdgeLine(e, s.edge, q), i))
  {
    hide *;
    var A := P.owner(q);
    CrossesIs(P, fine, B, h, s, q);
    Facts(P, e, nq, fine, edges, X, L, sbuf, rbuf, A, B);
    var sc, rc := SendCounts(P, fine, A, X(A).list), RecvCounts(P, fine, B, X(B).list);
    var m, n, c := SlotWritten(P, nq, fine, edges, B, X(B), h, s, q);
    RemoteIs(P, X(B), m, n, c);
    var k := SlotFilled(P, nq, fine, edges, X(A), X(B), A, B, h, s, q);
    EdgeArrives(e, L(A), X(A).snd, sc, B, sbuf(A), rc, A, rbuf(B), k, i);
    EdgeLineMoved(e, s.edge, q, P.lid(q));
    RenumberedLine(P, nq, F, L, e, EdgeLine(e, s.edge, q), i);
    ReadAt(P, e, fine, B, X(B), rbuf(B), recv, m, n, c, i);
  }

  lemma CrossesIs(P: Partition, fine: bool, B: nat, h: Edge, s: GlobalSide, q: nat)
    requires s in h && s.isFine == fine && q in s.quads && Touches(P, B, h)
    ensures Crosses(P, fine, P.owner(q), B, h, s, q)
  {
  }

  lemma RemoteIs(P: Partition, w: EdgeState, m: nat, n: nat, c: nat)
    requires Remote(P, w, m, n, c)
    ensures m < |w.list| == |w.slotted| && n < |w.list[m]| == |w.slotted[m]| && c < |w.list[m][n].quads| == |w.slotted[m][n].octants|
  {
  }
}
