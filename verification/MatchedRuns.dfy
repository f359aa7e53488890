/** Magnetic flux across coarse-fine and same-level faces over whole runs of the time steppers. */
module MatchedRuns {
  import opened Grid
  import opened ConstrainedTransport
  import opened StaggeredRuns
  import opened FullFaces
  import opened EmfLines
  import opened SharedCopies

  lemma NormalIsLinear(e: Extents, D: Stag, A: Stag, B: Stag, C: Stag, ca: real, cb: real, cc: real, r: FaceRef, a: int, b: int)
    requires Combines(D, A, B, C, ca, cb, cc)
    ensures NormalB(e, D, r, a, b) == Weighted3(ca, NormalB(e, A, r, a, b), cb, NormalB(e, B, r, a, b), cc, NormalB(e, C, r, a, b))
  {
    hide FaceCell;
  }

  lemma MeanOfWeighted(ca: real, cb: real, cc: real, a0: real, a1: real, a2: real, a3: real, b0: real, b1: real, b2: real, b3: real,
                       c0: real, c1: real, c2: real, c3: real)
    ensures Mean4(Weighted3(ca, a0, cb, b0, cc, c0), Weighted3(ca, a1, cb, b1, cc, c1), Weighted3(ca, a2, cb, b2, cc, c2), Weighted3(ca, a3, cb, b3, cc, c3))
         == Weighted3(ca, Mean4(a0, a1, a2, a3), cb, Mean4(b0, b1, b2, b3), cc, Mean4(c0, c1, c2, c3))
  {
  }

  lemma MeanIsLinear(e: Extents, D: Stag, A: Stag, B: Stag, C: Stag, ca: real, cb: real, cc: real, r: FaceRef, a: int, b: int)
    requires Combines(D, A, B, C, ca, cb, cc)
    ensures MeanB(e, D, r, a, b) == Weighted3(ca, MeanB(e, A, r, a, b), cb, MeanB(e, B, r, a, b), cc, MeanB(e, C, r, a, b))
  {
    hide Combines, NormalB, Weighted3, Mean4;
    NormalIsLinear(e, D, A, B, C, ca, cb, cc, r, a, b);
    NormalIsLinear(e, D, A, B, C, ca, cb, cc, r, a, b + 1);
    NormalIsLinear(e, D, A, B, C, ca, cb, cc, r, a + 1, b);
    NormalIsLinear(e, D, A, B, C, ca, cb, cc, r, a + 1, b + 1);
    MeanOfWeighted(ca, cb, cc, NormalB(e, A, r, a, b), NormalB(e, A, r, a, b + 1), NormalB(e, A, r, a + 1, b), NormalB(e, A, r, a + 1, b + 1),
                   NormalB(e, B, r, a, b), NormalB(e, B, r, a, b + 1), NormalB(e, B, r, a + 1, b), NormalB(e, B, r, a + 1, b + 1),
                   NormalB(e, C, r, a, b), NormalB(e, C, r, a, b + 1), NormalB(e, C, r, a + 1, b), NormalB(e, C, r, a + 1, b + 1));
  }

  /** Matched fields combine to matched fields. */
  lemma CombinationMatched(e: Extents, D: Stag, A: Stag, B: Stag, C: Stag, ca: real, cb: real, cc: real, c: FaceRef, fine: seq<FaceRef>)
    requires e.Valid() && |fine| == 4 && Combines(D, A, B, C, ca, cb, cc)
    requires FluxMatched(e, A, c, fine) && FluxMatched(e, B, c, fine) && FluxMatched(e, C, c, fine)
    ensures FluxMatched(e, D, c, fine)
  {
    hide Combines, NormalB, MeanB, Weighted3;
    forall i, j | 0 <= i < e.nx && 0 <= j < e.nx
      ensures NormalB(e, D, c, i, j) == MeanB(e, D, fine[Child(e, i, j)], 2 * i % e.nx, 2 * j % e.nx)
    {
      NormalIsLinear(e, D, A, B, C, ca, cb, cc, c, i, j);
      MeanIsLinear(e, D, A, B, C, ca, cb, cc, fine[Child(e, i, j)], 2 * i % e.nx, 2 * j % e.nx);
    }
  }

  lemma FillKeepsNormal(e: Extents, nq: nat, B: Stag, B': Stag, r: FaceRef, a: int, b: int)
    requires Refilled(e, nq, B, B') && r.f < 6 && r.q < nq && 0 <= a < e.nx && 0 <= b < e.nx
    ensures NormalB(e, B', r, a, b) == NormalB(e, B, r, a, b)
  {
    assert Updates(e, nq, r.f / 2, FaceCell(e, r, a, b));
    hide Updates, FaceCell;
  }

  /** A fill of the ghost zones keeps the faces of the coarse-fine interface. */
  lemma FillMatched(e: Extents, nq: nat, B: Stag, B': Stag, idx: Spacing, c: FaceRef, fine: seq<FaceRef>)
    requires e.Valid() && HangingGeometry(nq, c, fine, idx) && Refilled(e, nq, B, B') && FluxMatched(e, B, c, fine)
    ensures FluxMatched(e, B', c, fine)
  {
    hide NormalB, Refilled, Mean4;
    forall i, j | 0 <= i < e.nx && 0 <= j < e.nx
      ensures NormalB(e, B', c, i, j) == MeanB(e, B', fine[Child(e, i, j)], 2 * i % e.nx, 2 * j % e.nx)
    {
      var r, a, b := fine[Child(e, i, j)], 2 * i % e.nx, 2 * j % e.nx;
      FineBase(e, i);
      FineBase(e, j);
      OppositeAxis(c.f, r.f);
      FillKeepsNormal(e, nq, B, B', c, i, j);
      FillKeepsNormal(e, nq, B, B', r, a, b);
      FillKeepsNormal(e, nq, B, B', r, a, b + 1);
      FillKeepsNormal(e, nq, B, B', r, a + 1, b);
      FillKeepsNormal(e, nq, B, B', r, a + 1, b + 1);
    }
  }

  /** Every constrained-transport update of the run uses an EMF that matches along the face. */
  ghost predicate MatchedEmfs(e: Extents, ops: seq<Op>, c: FaceRef, fine: seq<FaceRef>)
    requires e.Valid() && |fine| == 4
  {
    forall n | 0 <= n < |ops| && ops[n].Transport? :: EmfMatched(e, ops[n].E, c, fine)
  }

  lemma StepMatched(e: Extents, nq: nat, idx: Spacing, R: seq<Stag>, op: Op, R': seq<Stag>, c: FaceRef, fine: seq<FaceRef>, r: nat)
    requires e.Valid() && HangingGeometry(nq, c, fine, idx) && Step(e, nq, idx, R, op, R') && r < |R'|
    requires op.Transport? ==> EmfMatched(e, op.E, c, fine)
    requires forall s | 0 <= s < |R| :: FluxMatched(e, R[s], c, fine)
    ensures FluxMatched(e, R'[r], c, fine)
  {
    hide FluxMatched, EmfMatched, Transported, Combines, Refilled;
    if r == op.dst {
      match op
      case Copy(_, s) =>
      case Lin2(_, a, b, ca, cb) => CombinationMatched(e, R'[r], R[a], R[b], R[b], ca, cb, 0.0, c, fine);
      case Lin3(_, a, b, d, ca, cb, cc) => CombinationMatched(e, R'[r], R[a], R[b], R[d], ca, cb, cc, c, fine);
      case Transport(d, E, w) => MagneticFluxStaysMatched(e, nq, R[d], R'[d], E, idx, w, c, fine);
      case Fill(d) => FillMatched(e, nq, R[d], R'[d], idx, c, fine);
    }
  }

  /** If the magnetic flux is matched across a coarse-fine face in every buffer at the start, it is
      so in every buffer of every state of every run whose EMFs were corrected. */
  lemma {:induction false} MatchedInEveryState(e: Extents, nq: nat, idx: Spacing, R: seq<seq<Stag>>, ops: seq<Op>, c: FaceRef, fine: seq<FaceRef>, n: nat, r: nat)
    requires e.Valid() && HangingGeometry(nq, c, fine, idx) && Run(e, nq, idx, R, ops) && MatchedEmfs(e, ops, c, fine)
    requires n <= |ops| && r < |R[n]| && forall s | 0 <= s < |R[0]| :: FluxMatched(e, R[0][s], c, fine)
    ensures FluxMatched(e, R[n][r], c, fine)
  {
    assert |fine| == 4;
    hide FluxMatched, EmfMatched, HangingGeometry;
    if n > 0 {
      var before := R[n - 1];
      assert Step(e, nq, idx, before, ops[n - 1], R[n - 1 + 1]);
      forall s | 0 <= s < |before| ensures FluxMatched(e, before[s], c, fine) {
        MatchedInEveryState(e, nq, idx, R, ops, c, fine, n - 1, s);
      }
      hide Step;
      StepMatched(e, nq, idx, before, ops[n - 1], R[n], c, fine, r);
    }
  }

  // ---- same-level faces ----

  lemma CombinationShared(e: Extents, D: Stag, A: Stag, B: Stag, C: Stag, ca: real, cb: real, cc: real, k: FullFace)
    requires Combines(D, A, B, C, ca, cb, cc) && NormalsEqual(e, A, k) && NormalsEqual(e, B, k) && NormalsEqual(e, C, k)
    ensures NormalsEqual(e, D, k)
  {
    hide Combines, NormalB, Weighted3;
    forall a, b | 0 <= a < e.nx && 0 <= b < e.nx ensures NormalB(e, D, k.lower, a, b) == NormalB(e, D, k.upper, a, b) {
      NormalIsLinear(e, D, A, B, C, ca, cb, cc, k.lower, a, b);
      NormalIsLinear(e, D, A, B, C, ca, cb, cc, k.upper, a, b);
    }
  }

  lemma FillShared(e: Extents, nq: nat, B: Stag, B': Stag, idx: Spacing, k: FullFace)
    requires FullGeometry(nq, k, idx) && Refilled(e, nq, B, B') && NormalsEqual(e, B, k)
    ensures NormalsEqual(e, B', k)
  {
    FullAxes(nq, k, idx);
    hide Refilled, NormalB;
    forall a, b | 0 <= a < e.nx && 0 <= b < e.nx ensures NormalB(e, B', k.lower, a, b) == NormalB(e, B', k.upper, a, b) {
      FillKeepsNormal(e, nq, B, B', k.lower, a, b);
      FillKeepsNormal(e, nq, B, B', k.upper, a, b);
    }
  }

  /** Every constrained-transport update of the run uses an EMF that agrees on both sides of the face. */
  ghost predicate SharedEmfs(e: Extents, ops: seq<Op>, k: FullFace) {
    forall n | 0 <= n < |ops| && ops[n].Transport? :: EmfsEqual(e, ops[n].E, k)
  }

  lemma StepShared(e: Extents, nq: nat, idx: Spacing, R: seq<Stag>, op: Op, R': seq<Stag>, k: FullFace, r: nat)
    requires FullGeometry(nq, k, idx) && Step(e, nq, idx, R, op, R') && r < |R'|
    requires op.Transport? ==> EmfsEqual(e, op.E, k)
    requires forall s | 0 <= s < |R| :: NormalsEqual(e, R[s], k)
    ensures NormalsEqual(e, R'[r], k)
  {
    hide NormalsEqual, EmfsEqual, Transported, Combines, Refilled, FullGeometry;
    if r == op.dst {
      match op
      case Copy(_, s) =>
      case Lin2(_, a, b, ca, cb) => CombinationShared(e, R'[r], R[a], R[b], R[b], ca, cb, 0.0, k);
      case Lin3(_, a, b, c, ca, cb, cc) => CombinationShared(e, R'[r], R[a], R[b], R[c], ca, cb, cc, k);
      case Transport(d, E, w) => NormalsStayEqual(e, nq, R[d], R'[d], E, idx, w, k);
      case Fill(d) => FillShared(e, nq, R[d], R'[d], idx, k);
    }
  }

  /** The two quadrants of a same-level face hold one normal field on it in every buffer of every state of
      every run whose EMFs were corrected. */
  lemma {:induction false} SharedInEveryState(e: Extents, nq: nat, idx: Spacing, R: seq<seq<Stag>>, ops: seq<Op>, k: FullFace, n: nat, r: nat)
    requires FullGeometry(nq, k, idx) && Run(e, nq, idx, R, ops) && SharedEmfs(e, ops, k)
    requires n <= |ops| && r < |R[n]| && forall s | 0 <= s < |R[0]| :: NormalsEqual(e, R[0][s], k)
    ensures NormalsEqual(e, R[n][r], k)
  {
    hide NormalsEqual, EmfsEqual, FullGeometry;
    if n > 0 {
      var before := R[n - 1];
      assert Step(e, nq, idx, before, ops[n - 1], R[n - 1 + 1]);
      forall s | 0 <= s < |before| ensures NormalsEqual(e, before[s], k) {
        SharedInEveryState(e, nq, idx, R, ops, k, n - 1, s);
      }
      hide Step;
      StepShared(e, nq, idx, before, ops[n - 1], R[n], k, r);
    }
  }
}
