/** The EMF correction end to end on any number of ranks: lists, packing, messages, the slots read
    back and the four kernels together keep the magnetic field matched at every interface. */
module EmfExchange {
  import opened Grid
  import opened Ranks
  import opened ConstrainedTransport
  import opened HangingFaces
  import opened FullFaces
  import opened EdgeKeys
  import EdgeAgreement
  import PI = PartitionIndependence
  import opened EmfLines
  import opened EmfFaces
  import opened EmfEdges
  import opened EmfCorrection
  import opened EmfArrival
  import opened FineArrival
  import opened FullArrival
  import opened EdgeArrival
  import opened SharedCopies

  /** What the ranks hold for the exchange: their EMFs under local quadrant numbers, and for each of the four kinds
      of interface what they built, their send buffers and their receive buffers. */
  datatype Exchange = Exchange(L: nat -> EmfField,
                               fine: PI.World, fineOut: nat -> seq<real>, fineIn: nat -> seq<real>,
                               full: nat -> FullState, fullOut: nat -> seq<real>, fullIn: nat -> seq<real>,
                               edges: nat -> EdgeState, edgesOut: nat -> seq<real>, edgesIn: nat -> seq<real>,
                               uniform: nat -> EdgeState, uniformOut: nat -> seq<real>, uniformIn: nat -> seq<real>)

  /** All ranks built their lists, packed their EMFs before the first correction, and every message arrived. */
  ghost predicate Sent(P: Partition, e: Extents, nq: nat, M: Mesh, W: EmfWorld, X: Exchange) {
    && Renumbered(P, nq, W.E0, X.L)
    && FineSent(P, e, M.hanging, X.fine, X.L, X.fineOut, X.fineIn)
    && FullSent(P, e, M.full, X.full, X.L, X.fullOut, X.fullIn)
    && EdgesSent(P, e, true, M.edges, X.edges, X.L, X.edgesOut, X.edgesIn)
    && EdgesSent(P, e, false, M.uniform, X.uniform, X.L, X.uniformOut, X.uniformIn)
  }

  /** What the kernels of rank r take for received values is what stands in the slots of its descriptors. */
  ghost predicate Reads(P: Partition, e: Extents, M: Mesh, W: EmfWorld, X: Exchange, r: nat) {
    && ReadsFine(P, e, M.hanging, r, X.fine(r), X.fineIn(r), W.recvF(r))
    && |X.full(r).slotted| == |X.full(r).list| && ReadsFull(P, e, r, X.full(r), X.fullIn(r), W.recvS(r))
    && ReadsEdges(P, e, true, r, X.edges(r), X.edgesIn(r), W.recvE(r))
    && ReadsEdges(P, e, false, r, X.uniform(r), X.uniformIn(r), W.recvU(r))
  }

  /** The mesh as the exchange needs it. */
  ghost predicate MeshReady(P: Partition, e: Extents, nq: nat, M: Mesh) {
    e.Valid() && P.Valid(nq) && FacesOnce(nq, M) && Edges(e, nq, M) && FullFaces.WellFormed(nq, M.full)
  }

  lemma GridReady(P: Partition, e: Extents, nq: nat, M: Mesh)
    requires MeshReady(P, e, nq, M)
    ensures PI.GridFaces(nq, M.hanging) && EdgeAgreement.WellFormed(nq, M.edges) && EdgeAgreement.WellFormed(nq, M.uniform)
    ensures forall h | h in M.hanging :: |h.fine| == 4
  {
    EdgesWellFormed(e, nq, true, M.edges);
    EdgesWellFormed(e, nq, false, M.uniform);
    hide Edges, EdgeAgreement.WellFormed;
  }

  lemma EdgesWellFormed(e: Extents, nq: nat, fine: bool, edges: seq<Edge>)
    requires EdgesReady(e, nq, fine, edges)
    ensures EdgeAgreement.WellFormed(nq, edges)
  {
    forall h, s, q | h in edges && s in h && q in s.quads ensures q < nq {
      SideIsReady(e, nq, fine, edges, h, s);
    }
  }

  lemma FineDelivers(P: Partition, e: Extents, nq: nat, M: Mesh, W: EmfWorld, X: Exchange, r: nat)
    requires MeshReady(P, e, nq, M) && Sent(P, e, nq, M, W, X) && r < P.nproc && Reads(P, e, M, W, X, r)
    ensures (forall h | h in M.hanging :: |h.fine| == 4) && FineDelivered(e, P.owner, r, M, W)
  {
    GridReady(P, e, nq, M);
    hide PI.GridFaces, FacesOnce, Edges, FineSent, FullSent, EdgesSent, ReadsFine, ReadsFull, ReadsEdges, Renumbered, FineValue;
    forall h, c, comp, i, j | h in M.hanging && 0 <= c < 4 && 0 <= comp < 2 && 0 <= i < e.nx / 2 && 0 <= j < e.nx / 2
                           && P.owner(h.coarse.q) == r && P.owner(h.fine[c].q) != r
      ensures W.recvF(r)(h.fine[c], comp, i, j) == FineValue(e, Owned(P.owner, W.E0), h.fine[c], Fix(i, j, 0, comp, 0))
    {
      FineArrives(P, e, nq, M.hanging, X.fine, W.E0, X.L, X.fineOut, X.fineIn, r, W.recvF(r), h, c, comp, i, j);
    }
  }

  lemma FullDelivers(P: Partition, e: Extents, nq: nat, M: Mesh, W: EmfWorld, X: Exchange, r: nat)
    requires MeshReady(P, e, nq, M) && Sent(P, e, nq, M, W, X) && r < P.nproc && Reads(P, e, M, W, X, r)
    ensures FullDelivered(e, P.owner, r, M, W)
  {
    hide FacesOnce, Edges, FullFaces.WellFormed, FineSent, FullSent, EdgesSent, ReadsFine, ReadsFull, ReadsEdges, Renumbered, FullValue;
    forall k, s, comp, i, j | k in M.full && 0 <= s < 2 && 0 <= comp < 2 && 0 <= i < e.nx && 0 <= j < e.nx
                           && P.owner(k.Side(1 - s).q) == r && P.owner(k.Side(s).q) != r
      ensures W.recvS(r)(k.Side(s), comp, i, j) == FullValue(e, Owned(P.owner, W.E0), k.Side(s), comp, i, j)
    {
      FullArrives(P, e, nq, M.full, X.full, W.E0, X.L, X.fullOut, X.fullIn, r, W.recvS(r), k, s, comp, i, j);
    }
  }

  /** One kind of edge. */
  lemma EdgesDeliver(P: Partition, e: Extents, nq: nat, fine: bool, edges: seq<Edge>, F: nat -> EmfField, L: nat -> EmfField, X: nat -> EdgeState,
                     sbuf: nat -> seq<real>, rbuf: nat -> seq<real>, r: nat, recv: ReceivedEdges)
    requires P.Valid(nq) && EdgeAgreement.WellFormed(nq, edges) && Renumbered(P, nq, F, L) && EdgesSent(P, e, fine, edges, X, L, sbuf, rbuf)
    requires r < P.nproc && ReadsEdges(P, e, fine, r, X(r), rbuf(r), recv)
    ensures EdgesDelivered(e, P.owner, r, fine, edges, F, recv)
  {
    hide EdgesSent, ReadsEdges, Renumbered, At, EdgeLine, Owned;
    forall D, s, q, i | D in edges && Concerns(P.owner, r, D) && s in D && s.isFine == fine && q in s.quads && P.owner(q) != r && 0 <= i < e.nx
      ensures recv(q, s.edge, i) == Owned(P.owner, F)(At(e, EdgeLine(e, s.edge, q), i))
    {
      assert q < nq && P.owner(q) < P.nproc && EdgeAgreement.Touches(P, r, D);
      EdgeArrivesAt(P, e, nq, fine, edges, X, F, L, sbuf, rbuf, r, recv, D, s, q, i);
    }
  }

  /** Everything the kernels read as received is what its owner held before the first correction. */
  lemma ExchangeDelivers(P: Partition, e: Extents, nq: nat, M: Mesh, W: EmfWorld, X: Exchange, r: nat)
    requires MeshReady(P, e, nq, M) && Sent(P, e, nq, M, W, X) && r < P.nproc && Reads(P, e, M, W, X, r)
    ensures (forall h | h in M.hanging :: |h.fine| == 4) && Delivered(e, P.owner, r, M, W)
  {
    GridReady(P, e, nq, M);
    FineDelivers(P, e, nq, M, W, X, r);
    FullDelivers(P, e, nq, M, W, X, r);
    hide FacesOnce, Edges, FineSent, FullSent, EdgesSent, ReadsFine, ReadsFull, ReadsEdges, Renumbered, PI.GridFaces, EdgeAgreement.WellFormed;
    hide FineDelivered, FullDelivered, EdgesDelivered;
    EdgesDeliver(P, e, nq, true, M.edges, W.E0, X.L, X.edges, X.edgesOut, X.edgesIn, r, W.recvE(r));
    EdgesDeliver(P, e, nq, false, M.uniform, W.E0, X.L, X.uniform, X.uniformOut, X.uniformIn, r, W.recvU(r));
  }

  /** The whole correction ran on every rank. */
  ghost predicate Ran(P: Partition, e: Extents, nq: nat, M: Mesh, W: EmfWorld, X: Exchange)
    requires e.Valid() && forall h | h in M.hanging :: |h.fine| == 4
  {
    Sent(P, e, nq, M, W, X) && forall r | 0 <= r < P.nproc :: Reads(P, e, M, W, X, r) && RankRan(e, nq, P.owner, r, M, W)
  }

  lemma RanAll(P: Partition, e: Extents, nq: nat, M: Mesh, W: EmfWorld, X: Exchange)
    requires MeshReady(P, e, nq, M) && (forall h | h in M.hanging :: |h.fine| == 4) && Ran(P, e, nq, M, W, X)
    ensures AllRan(e, nq, P.owner, P.nproc, M, W)
  {
    hide RankRan, Delivered, Sent, Reads, FacesOnce, Edges;
    forall r | 0 <= r < P.nproc ensures RankRan(e, nq, P.owner, r, M, W) && Delivered(e, P.owner, r, M, W) {
      ExchangeDelivers(P, e, nq, M, W, X, r);
    }
  }

  /** After the exchange and the four kernels on any number of ranks, the update that follows keeps the magnetic flux
      matched across every coarse-fine face ... */
  lemma CoarseFineStaysMatched(P: Partition, e: Extents, nq: nat, M: Mesh, W: EmfWorld, X: Exchange, B0: Stag, B1: Stag, idx: Spacing, w: real, h: HangingFace)
    requires MeshReady(P, e, nq, M) && (forall h | h in M.hanging :: |h.fine| == 4) && Ran(P, e, nq, M, W, X) && EdgesCover(e, M)
    requires h in M.hanging && HangingGeometry(nq, h.coarse, h.fine, idx) && FluxMatched(e, B0, h.coarse, h.fine)
    requires Transported(e, nq, B0, B1, Owned(P.owner, W.E4), idx, w)
    ensures EmfMatched(e, Owned(P.owner, W.E4), h.coarse, h.fine) && FluxMatched(e, B1, h.coarse, h.fine)
  {
    ReadyParts(P, e, nq, M);
    hide *;
    RanAll(P, e, nq, M, W, X);
    CorrectedEmfsMatch(e, nq, P.owner, P.nproc, M, W, h);
    MagneticFluxAcrossFaces(e, nq, P.owner, P.nproc, M, W, B0, B1, idx, w, h);
  }

  /** ... and the normal field the same on both sides of every same-level face. */
  lemma SameLevelStaysEqual(P: Partition, e: Extents, nq: nat, M: Mesh, W: EmfWorld, X: Exchange, B0: Stag, B1: Stag, idx: Spacing, w: real, k: FullFace)
    requires MeshReady(P, e, nq, M) && (forall h | h in M.hanging :: |h.fine| == 4) && Ran(P, e, nq, M, W, X) && RimsCover(e, M)
    requires k in M.full && FullGeometry(nq, k, idx) && NormalsEqual(e, B0, k)
    requires Transported(e, nq, B0, B1, Owned(P.owner, W.E4), idx, w)
    ensures NormalsEqual(e, B1, k)
  {
    ReadyParts(P, e, nq, M);
    hide *;
    RanAll(P, e, nq, M, W, X);
    SharedNormalsStayEqual(e, nq, P.owner, P.nproc, M, W, B0, B1, idx, w, k);
  }

  lemma ReadyParts(P: Partition, e: Extents, nq: nat, M: Mesh)
    requires MeshReady(P, e, nq, M)
    ensures e.Valid() && FacesOnce(nq, M) && Edges(e, nq, M)
  {
  }
}
