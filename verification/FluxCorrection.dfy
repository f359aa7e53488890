/** Replacement of the coarse fluxes by the means of the fine ones, in place. */
module FluxCorrection {
  import opened Arithmetic
  import opened Sums
  import opened Grid
  import opened RefluxKeys
  import opened HangingFaces
  import opened Conservation
  import opened CompositeGrid
  import opened FluxBuffers

  /** Loop index: coarse cell face (i, j), variable v, descriptor iq. */
  datatype FixItem = FixItem(i: nat, j: nat, v: nat, iq: nat)

  ghost predicate FixRange(e: Extents, descs: seq<HangingDesc>, x: FixItem) {
    x.i < e.nx && x.j < e.nx && x.v < e.nvars && x.iq < |descs|
  }

  function CoarseFace(d: HangingDesc): FaceRef { FaceRef(d.coarseQid, d.coarseFace) }

  /** The fine face of fine quadrant c of d, if that quadrant is local. */
  function FineFaceOf(d: HangingDesc, c: nat): FaceRef
    requires c < |d.fine|
  {
    FaceRef(d.fine[c].qid, Opposite(d.coarseFace))
  }

  /** The flux a loop index overwrites. */
  function Target(e: Extents, descs: seq<HangingDesc>, x: FixItem): FluxIx
    requires x.iq < |descs|
  {
    FaceIx(e, descs[x.iq].coarseFace, x.i, x.j, x.v, descs[x.iq].coarseQid)
  }

  /** Where the receive buffer holds element x of a remote fine quadrant. */
  function FixIx(e: Extents, offsets: seq<nat>, f: FineQuad, x: FixItem): nat
    requires e.Valid() && f.owner < |offsets|
  {
    BufIx(e.nx / 2, e.nvars, offsets[f.owner], x.i % (e.nx / 2), x.j % (e.nx / 2), x.v, f.bid)
  }

  /** The value written at loop index x: a received mean, or the mean of four local fine fluxes. */
  ghost function Replacement(e: Extents, F: FluxField, descs: seq<HangingDesc>, rbuf: seq<real>, offsets: seq<nat>, x: FixItem): real
    requires e.Valid() && LocalReady(e, descs, rbuf, offsets) && FixRange(e, descs, x)
  {
    var d, c := descs[x.iq], Child(e, x.i, x.j);
    if d.fine[c].isRemote then rbuf[FixIx(e, offsets, d.fine[c], x)]
    else FineMean(e, F, FineFaceOf(d, c), x.i, x.j, x.v)
  }

  /** The descriptors are complete, and every receive slot they name lies in the buffer. */
  ghost predicate LocalReady(e: Extents, descs: seq<HangingDesc>, rbuf: seq<real>, offsets: seq<nat>)
    requires e.Valid()
  {
    forall m | 0 <= m < |descs| ::
      && |descs[m].fine| == 4 && descs[m].coarseFace < 6
      && forall c | 0 <= c < 4 && descs[m].fine[c].isRemote ::
           && descs[m].fine[c].owner < |offsets|
           && forall x {:trigger FixIx(e, offsets, descs[m].fine[c], x)} | FixRange(e, descs, x) :: FixIx(e, offsets, descs[m].fine[c], x) < |rbuf|
  }

  /** No coarse face occurs twice, and no local fine face is a coarse face. */
  ghost predicate RaceFree(nq: nat, descs: seq<HangingDesc>) {
    && (forall m | 0 <= m < |descs| :: descs[m].coarseQid < nq)
    && (forall m, n | 0 <= m < n < |descs| :: CoarseFace(descs[m]) != CoarseFace(descs[n]))
    && (forall m, n, c | 0 <= m < |descs| && 0 <= n < |descs| && 0 <= c < |descs[n].fine| && !descs[n].fine[c].isRemote ::
          descs[n].fine[c].qid < nq && FineFaceOf(descs[n], c) != CoarseFace(descs[m]))
  }

  /** Every coarse flux is replaced and nothing else changes. */
  ghost predicate Corrected(e: Extents, nq: nat, F0: FluxField, F1: FluxField, descs: seq<HangingDesc>, rbuf: seq<real>, offsets: seq<nat>)
    requires e.Valid() && LocalReady(e, descs, rbuf, offsets)
  {
    && (forall x | FixRange(e, descs, x) :: F1(Target(e, descs, x)) == Replacement(e, F0, descs, rbuf, offsets, x))
    && forall y | InFace(e, nq, y) && (forall x | FixRange(e, descs, x) :: y != Target(e, descs, x)) :: F1(y) == F0(y)
  }

  ghost predicate InFace(e: Extents, nq: nat, y: FluxIx) {
    && 0 <= y.i < e.nx + 1 + 2 * e.ngz && 0 <= y.j < e.nx + 1 + 2 * e.ngz && 0 <= y.k < e.nx + 1 + 2 * e.ngz
    && 0 <= y.v < e.nvars && 0 <= y.d < 3 && 0 <= y.q < nq
  }

  /** A flux on a quadrant face determines the face and the position on it. */
  lemma FaceIxInjective(e: Extents, f: nat, a: nat, b: nat, v: int, q: int, f': nat, a': nat, b': nat, v': int, q': int)
    requires e.Valid() && f < 6 && f' < 6 && FaceIx(e, f, a, b, v, q) == FaceIx(e, f', a', b', v', q')
    ensures f == f' && a == a' && b == b' && v == v' && q == q'
  {
  }

  lemma ChildIndex(e: Extents, i: nat)
    requires e.Valid() && i < e.nx
    ensures 0 <= 2 * i % e.nx && 2 * i % e.nx + 2 <= e.nx && 2 * i % e.nx == 2 * (i % (e.nx / 2))
  {
    var n := e.nx / 2;
    if i < n {
      ModUnique(2 * i, e.nx, 0, 2 * i);
      ModUnique(i, n, 0, i);
    } else {
      ModUnique(2 * i, e.nx, 1, 2 * i - e.nx);
      ModUnique(i, n, 1, i - n);
    }
  }

  /** A local fine mean does not see the coarse fluxes being replaced. */
  lemma MeanUntouched(e: Extents, nq: nat, F0: FluxField, F: FluxField, descs: seq<HangingDesc>, rbuf: seq<real>, offsets: seq<nat>,
                      order: set<FixItem>, x: FixItem)
    requires e.Valid() && LocalReady(e, descs, rbuf, offsets) && RaceFree(nq, descs) && FixRange(e, descs, x)
    requires forall y | InFace(e, nq, y) && (forall z | z in order :: FixRange(e, descs, z) ==> y != Target(e, descs, z)) :: F(y) == F0(y)
    requires forall z | z in order :: FixRange(e, descs, z)
    requires !descs[x.iq].fine[Child(e, x.i, x.j)].isRemote
    ensures var r := FineFaceOf(descs[x.iq], Child(e, x.i, x.j)); FineMean(e, F, r, x.i, x.j, x.v) == FineMean(e, F0, r, x.i, x.j, x.v)
  {
    hide LocalReady;
    var c := Child(e, x.i, x.j);
    assert |descs[x.iq].fine| == 4 && descs[x.iq].coarseFace < 6 by { ReadyAt(e, descs, rbuf, offsets, x.iq); }
    var r := FineFaceOf(descs[x.iq], c);
    ChildIndex(e, x.i);
    ChildIndex(e, x.j);
    var a, b := 2 * x.i % e.nx, 2 * x.j % e.nx;
    forall p, s | a <= p < a + 2 && b <= s < b + 2 ensures OnFace(e, F, x.v, r)(p, s) == OnFace(e, F0, x.v, r)(p, s) {
      var y := FaceIx(e, r.f, p, s, x.v, r.q);
      FineInFace(e, nq, r, p, s, x.v);
      forall z | z in order ensures y != Target(e, descs, z) {
        ReadyAt(e, descs, rbuf, offsets, z.iq);
        if y == Target(e, descs, z) {
          FaceIxInjective(e, r.f, p, s, x.v, r.q, descs[z.iq].coarseFace, z.i, z.j, z.v, descs[z.iq].coarseQid);
        }
      }
    }
  }

  lemma ReadyAt(e: Extents, descs: seq<HangingDesc>, rbuf: seq<real>, offsets: seq<nat>, m: nat)
    requires e.Valid() && LocalReady(e, descs, rbuf, offsets) && m < |descs|
    ensures |descs[m].fine| == 4 && descs[m].coarseFace < 6
  {
  }

  lemma FineInFace(e: Extents, nq: nat, r: FaceRef, a: nat, b: nat, v: nat)
    requires r.q < nq && r.f < 6 && v < e.nvars && a < e.nx && b < e.nx
    ensures InFace(e, nq, FaceIx(e, r.f, a, b, v, r.q))
  {
  }

  /** Different loop indices overwrite different fluxes. */
  lemma TargetInjective(e: Extents, nq: nat, descs: seq<HangingDesc>, rbuf: seq<real>, offsets: seq<nat>, x: FixItem, y: FixItem)
    requires e.Valid() && LocalReady(e, descs, rbuf, offsets) && RaceFree(nq, descs) && FixRange(e, descs, x) && FixRange(e, descs, y)
    requires Target(e, descs, x) == Target(e, descs, y)
    ensures x == y
  {
    ReadyAt(e, descs, rbuf, offsets, x.iq);
    ReadyAt(e, descs, rbuf, offsets, y.iq);
    var c, d := descs[x.iq], descs[y.iq];
    FaceIxInjective(e, c.coarseFace, x.i, x.j, x.v, c.coarseQid, d.coarseFace, y.i, y.j, y.v, d.coarseQid);
    hide LocalReady;
    assert CoarseFace(descs[x.iq]) == CoarseFace(descs[y.iq]);
  }

  lemma TargetInRange(e: Extents, nq: nat, descs: seq<HangingDesc>, rbuf: seq<real>, offsets: seq<nat>, x: FixItem)
    requires e.Valid() && LocalReady(e, descs, rbuf, offsets) && RaceFree(nq, descs) && FixRange(e, descs, x)
    ensures InFace(e, nq, Target(e, descs, x))
  {
    ReadyAt(e, descs, rbuf, offsets, x.iq);
    hide LocalReady;
    FineInFace(e, nq, CoarseFace(descs[x.iq]), x.i, x.j, x.v);
  }

  /** The kernel body: the value for loop index x. */
  method FixOne(e: Extents, nq: nat, fluxes: array6<real>, descs: seq<HangingDesc>, rbuf: seq<real>, offsets: seq<nat>, x: FixItem)
    returns (flux: real)
    requires e.Valid() && FluxShape(e, nq, fluxes) && LocalReady(e, descs, rbuf, offsets) && RaceFree(nq, descs) && FixRange(e, descs, x)
    ensures flux == Replacement(e, Fluxes(fluxes), descs, rbuf, offsets, x)
  {
    hide Block, OnFace, Fluxes, BufIx;
    var d := descs[x.iq];
    var c := (if 2 * x.i >= e.nx then 1 else 0) + 2 * (if 2 * x.j >= e.nx then 1 else 0);
    assert c == Child(e, x.i, x.j);
    ReadyAt(e, descs, rbuf, offsets, x.iq);
    if d.fine[c].isRemote {
      flux := rbuf[FixIx(e, offsets, d.fine[c], x)];
    } else {
      ChildIndex(e, x.i);
      ChildIndex(e, x.j);
      hide LocalReady;
      flux := SumFace(e, nq, fluxes, FineFaceOf(d, c), 2 * x.i % e.nx, 2 * x.j % e.nx, x.v);
      flux := flux * 0.25;
    }
  }

  /** The values written so far, and what they left alone. */
  ghost predicate CorrectedSoFar(e: Extents, nq: nat, F0: FluxField, F: FluxField, descs: seq<HangingDesc>, rbuf: seq<real>, offsets: seq<nat>,
                                 visited: set<FixItem>)
    requires e.Valid() && LocalReady(e, descs, rbuf, offsets)
  {
    && (forall z | z in visited :: FixRange(e, descs, z) && F(Target(e, descs, z)) == Replacement(e, F0, descs, rbuf, offsets, z))
    && forall y | InFace(e, nq, y) && (forall z | z in visited :: FixRange(e, descs, z) ==> y != Target(e, descs, z)) :: F(y) == F0(y)
  }

  lemma CorrectStep(e: Extents, nq: nat, F0: FluxField, F: FluxField, F': FluxField, descs: seq<HangingDesc>, rbuf: seq<real>, offsets: seq<nat>,
                    visited: set<FixItem>, x: FixItem)
    requires e.Valid() && LocalReady(e, descs, rbuf, offsets) && RaceFree(nq, descs) && FixRange(e, descs, x) && x !in visited
    requires CorrectedSoFar(e, nq, F0, F, descs, rbuf, offsets, visited)
    requires F'(Target(e, descs, x)) == Replacement(e, F, descs, rbuf, offsets, x)
    requires forall y | InFace(e, nq, y) && y != Target(e, descs, x) :: F'(y) == F(y)
    ensures CorrectedSoFar(e, nq, F0, F', descs, rbuf, offsets, visited + {x})
  {
    ReadyAt(e, descs, rbuf, offsets, x.iq);
    if !descs[x.iq].fine[Child(e, x.i, x.j)].isRemote {
      MeanUntouched(e, nq, F0, F, descs, rbuf, offsets, visited, x);
    }
    assert Replacement(e, F, descs, rbuf, offsets, x) == Replacement(e, F0, descs, rbuf, offsets, x);
    hide LocalReady, Replacement, Target, InFace, RaceFree;
    forall z | z in visited ensures F'(Target(e, descs, z)) == F(Target(e, descs, z)) {
      TargetInRange(e, nq, descs, rbuf, offsets, z);
      if Target(e, descs, z) == Target(e, descs, x) { TargetInjective(e, nq, descs, rbuf, offsets, z, x); }
    }
  }

  /** The correction kernel; its loop indices are visited in an arbitrary order. */
  method CorrectFluxes(e: Extents, nq: nat, fluxes: array6<real>, descs: seq<HangingDesc>, rbuf: seq<real>, offsets: seq<nat>, order: seq<FixItem>)
    requires e.Valid() && FluxShape(e, nq, fluxes) && LocalReady(e, descs, rbuf, offsets) && RaceFree(nq, descs)
    requires Schedule(order, (x: FixItem) => FixRange(e, descs, x))
    modifies fluxes
    ensures Corrected(e, nq, old(Fluxes(fluxes)), Fluxes(fluxes), descs, rbuf, offsets)
  {
    ghost var F0, P := Fluxes(fluxes), (x: FixItem) => FixRange(e, descs, x);
    ghost var visited: set<FixItem> := {};
    hide LocalReady, RaceFree, Replacement, Fluxes, CorrectedSoFar;
    StartCorrection(e, nq, F0, descs, rbuf, offsets);
    for n := 0 to |order|
      invariant CorrectedSoFar(e, nq, F0, Fluxes(fluxes), descs, rbuf, offsets, visited)
      invariant forall x :: x in visited <==> x in order[..n]
    {
      var x := order[n];
      ScheduleStep(order, P, n);
      ghost var F := Fluxes(fluxes);
      var flux := FixOne(e, nq, fluxes, descs, rbuf, offsets, x);
      TargetInRange(e, nq, descs, rbuf, offsets, x);
      var t := Target(e, descs, x);
      fluxes[t.i, t.j, t.k, t.v, t.d, t.q] := flux;
      CorrectStep(e, nq, F0, F, Fluxes(fluxes), descs, rbuf, offsets, visited, x);
      visited := visited + {x};
    }
    assert order[..|order|] == order;
    assert forall x :: x in visited <==> P(x);
    FinishCorrection(e, nq, F0, Fluxes(fluxes), descs, rbuf, offsets, visited);
  }

  lemma StartCorrection(e: Extents, nq: nat, F0: FluxField, descs: seq<HangingDesc>, rbuf: seq<real>, offsets: seq<nat>)
    requires e.Valid() && LocalReady(e, descs, rbuf, offsets)
    ensures CorrectedSoFar(e, nq, F0, F0, descs, rbuf, offsets, {})
  {
  }

  lemma FinishCorrection(e: Extents, nq: nat, F0: FluxField, F: FluxField, descs: seq<HangingDesc>, rbuf: seq<real>, offsets: seq<nat>, visited: set<FixItem>)
    requires e.Valid() && LocalReady(e, descs, rbuf, offsets)
    requires CorrectedSoFar(e, nq, F0, F, descs, rbuf, offsets, visited) && forall x :: x in visited <==> FixRange(e, descs, x)
    ensures Corrected(e, nq, F0, F, descs, rbuf, offsets)
  {
  }
}
