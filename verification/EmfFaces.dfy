/** Correction of the EMFs on coarse-fine faces: every line of the coarse face but those at
    offsets 0, nx/2 and nx takes the mean of the fine EMFs it faces. A rank's array is
    indexed by global quadrant number; only the rank's own quadrants are meaningful in it. */
module EmfFaces {
  import opened Arithmetic
  import opened Grid
  import opened ConstrainedTransport
  import opened HangingFaces
  import opened EmfLines

  /** The means received for fine faces of other ranks: face, component, coarse position. */
  type Received = (FaceRef, nat, nat, nat) -> real

  /** One write: component comp at position (i, j) of the quarter of child c of face iq. */
  datatype Fix = Fix(i: nat, j: nat, c: nat, comp: nat, iq: nat)

  ghost predicate FixRange(e: Extents, faces: seq<HangingFace>, z: Fix) {
    z.i < e.nx / 2 && z.j < e.nx / 2 && z.c < 4 && z.comp < 2 && z.iq < |faces|
  }

  /** The coarse in-face position: the child's quarter starts at nx/2 or 0 in each direction. */
  function PosA(e: Extents, z: Fix): nat { z.i + if z.c % 2 == 1 then e.nx / 2 else 0 }

  function PosB(e: Extents, z: Fix): nat { z.j + if z.c / 2 % 2 == 1 then e.nx / 2 else 0 }

  function Along(e: Extents, z: Fix): nat { if z.comp == 0 then PosA(e, z) else PosB(e, z) }

  function Across(e: Extents, z: Fix): nat { if z.comp == 0 then PosB(e, z) else PosA(e, z) }

  /** Lines on the rim and in the middle of the face are left to the edge kernels. */
  predicate Active(e: Extents, z: Fix) { Across(e, z) != 0 && Across(e, z) != e.nx / 2 }

  function Target(e: Extents, faces: seq<HangingFace>, z: Fix): EmfIx
    requires z.iq < |faces|
  {
    At(e, FaceLine(e, faces[z.iq].coarse, z.comp, Across(e, z)), Along(e, z))
  }

  ghost function FineValue(e: Extents, E: EmfField, r: FaceRef, z: Fix): real {
    if z.comp == 0 then PairMean(e, E, r, 0, 2 * z.i, 2 * z.j) else PairMean(e, E, r, 1, 2 * z.j, 2 * z.i)
  }

  /** The value a write stores on rank me. */
  ghost function FixValue(e: Extents, E: EmfField, owner: nat -> nat, me: nat, recv: Received, faces: seq<HangingFace>, z: Fix): real
    requires z.iq < |faces| && z.c < |faces[z.iq].fine|
  {
    var r := faces[z.iq].fine[z.c];
    if owner(r.q) != me then recv(r, z.comp, z.i, z.j) else FineValue(e, E, r, z)
  }

  /** Interfaces complete, coarse faces all different, and none of them a fine face. */
  ghost predicate Separate(nq: nat, faces: seq<HangingFace>) {
    && (forall m | 0 <= m < |faces| :: |faces[m].fine| == 4 && faces[m].coarse.f < 6 && faces[m].coarse.q < nq)
    && (forall m, n | 0 <= m < n < |faces| :: faces[m].coarse != faces[n].coarse)
    && (forall m, n, c | 0 <= m < |faces| && 0 <= n < |faces| && 0 <= c < |faces[n].fine| ::
          faces[n].fine[c].f < 6 && faces[n].fine[c].q < nq && faces[n].fine[c] != faces[m].coarse)
  }

  ghost predicate InGrid(e: Extents, nq: nat, x: EmfIx) {
    && 0 <= x.i < e.nx + 1 + 2 * e.ngz && 0 <= x.j < e.nx + 1 + 2 * e.ngz && 0 <= x.k < e.nx + 1 + 2 * e.ngz
    && 0 <= x.d < 3 && 0 <= x.q < nq
  }

  /** A line strictly inside a quadrant face lies on no other face. */
  lemma FaceLineUnique(e: Extents, r: FaceRef, comp: nat, off: int, r': FaceRef, comp': nat, off': int)
    requires r.f < 6 && r'.f < 6 && comp < 2 && comp' < 2 && 0 <= off <= e.nx && 0 < off' < e.nx
    requires FaceLine(e, r, comp, off) == FaceLine(e, r', comp', off')
    ensures r == r' && comp == comp' && off == off'
  {
  }

  lemma LineInGrid(e: Extents, nq: nat, r: FaceRef, comp: nat, off: int, i: int)
    requires r.f < 6 && r.q < nq && comp < 2 && 0 <= off <= e.nx && 0 <= i < e.nx
    ensures InGrid(e, nq, At(e, FaceLine(e, r, comp, off), i))
  {
  }

  lemma AxisBound(e: Extents, r: FaceRef, comp: nat, off: int)
    requires r.f < 6
    ensures FaceLine(e, r, comp, off).d < 3
  {
  }

  /** Positions stay inside the face, and a write determines its loop index. */
  lemma Positions(e: Extents, z: Fix)
    requires e.Valid() && z.i < e.nx / 2 && z.j < e.nx / 2
    ensures Along(e, z) < e.nx && Across(e, z) < e.nx
  {
  }

  lemma PositionsUnique(e: Extents, z: Fix, y: Fix)
    requires e.Valid() && z.i < e.nx / 2 && z.j < e.nx / 2 && y.i < e.nx / 2 && y.j < e.nx / 2 && z.c < 4 && y.c < 4
    requires z.comp == y.comp && Along(e, z) == Along(e, y) && Across(e, z) == Across(e, y)
    ensures z.i == y.i && z.j == y.j && z.c == y.c
  {
  }

  /** Write coverage: the writes reach every position of the coarse face, each exactly once. */
  lemma CoversFace(e: Extents, comp: nat, along: nat, across: nat, iq: nat) returns (z: Fix)
    requires e.Valid() && comp < 2 && along < e.nx && across < e.nx
    ensures z.i < e.nx / 2 && z.j < e.nx / 2 && z.c < 4 && z.comp == comp && z.iq == iq
    ensures Along(e, z) == along && Across(e, z) == across
    ensures var a, b := if comp == 0 then along else across, if comp == 0 then across else along;
      z.c == Child(e, a, b) && 2 * z.i == 2 * a % e.nx && 2 * z.j == 2 * b % e.nx
  {
    var a, b := if comp == 0 then along else across, if comp == 0 then across else along;
    var n := e.nx / 2;
    FineBase(e, a);
    FineBase(e, b);
    z := Fix(if a >= n then a - n else a, if b >= n then b - n else b, Child(e, a, b), comp, iq);
  }

  lemma TargetUnique(e: Extents, nq: nat, faces: seq<HangingFace>, z: Fix, y: Fix)
    requires e.Valid() && Separate(nq, faces) && FixRange(e, faces, z) && FixRange(e, faces, y) && Active(e, z) && Active(e, y)
    requires Target(e, faces, z) == Target(e, faces, y)
    ensures z == y
  {
    var r, s := faces[z.iq].coarse, faces[y.iq].coarse;
    assert r.f < 6 && s.f < 6;
    Positions(e, z);
    Positions(e, y);
    AxisBound(e, r, z.comp, Across(e, z));
    AxisBound(e, s, y.comp, Across(e, y));
    AtInjective(e, FaceLine(e, r, z.comp, Across(e, z)), Along(e, z), FaceLine(e, s, y.comp, Across(e, y)), Along(e, y));
    FaceLineUnique(e, r, z.comp, Across(e, z), s, y.comp, Across(e, y));
    assert z.iq == y.iq;
    PositionsUnique(e, z, y);
  }

  /** What a set of writes did to the field. */
  ghost predicate Fixed(e: Extents, nq: nat, owner: nat -> nat, me: nat, recv: Received, faces: seq<HangingFace>,
                        E0: EmfField, E: EmfField, done: set<Fix>)
    requires forall m | 0 <= m < |faces| :: |faces[m].fine| == 4
  {
    && (forall z | z in done :: FixRange(e, faces, z) && (Active(e, z) ==> E(Target(e, faces, z)) == FixValue(e, E0, owner, me, recv, faces, z)))
    && forall x | InGrid(e, nq, x) && !Written(e, faces, done, x) :: E(x) == E0(x)
  }

  ghost predicate Written(e: Extents, faces: seq<HangingFace>, done: set<Fix>, x: EmfIx) {
    exists z | z in done && FixRange(e, faces, z) && Active(e, z) :: x == Target(e, faces, z)
  }

  /** Fine faces are never written, so their means can be read at any time. */
  lemma FineLineKept(e: Extents, nq: nat, owner: nat -> nat, me: nat, recv: Received, faces: seq<HangingFace>,
                     E0: EmfField, E: EmfField, done: set<Fix>, n: nat, c: nat, comp: nat, off: int, i: int)
    requires e.Valid() && Separate(nq, faces) && Fixed(e, nq, owner, me, recv, faces, E0, E, done)
    requires n < |faces| && c < 4 && comp < 2 && 0 <= off <= e.nx && 0 <= i < e.nx
    ensures OnLine(e, E, faces[n].fine[c], comp, i, off) == OnLine(e, E0, faces[n].fine[c], comp, i, off)
  {
    var r := faces[n].fine[c];
    assert |faces[n].fine| == 4 && r.f < 6 && r.q < nq;
    var x := At(e, FaceLine(e, r, comp, off), i);
    LineInGrid(e, nq, r, comp, off, i);
    hide At, FaceLine, InGrid;
    if Written(e, faces, done, x) {
      var z :| z in done && FixRange(e, faces, z) && Active(e, z) && x == Target(e, faces, z);
      var s := faces[z.iq].coarse;
      assert s.f < 6 && r != s;
      Positions(e, z);
      AxisBound(e, r, comp, off);
      AxisBound(e, s, z.comp, Across(e, z));
      AtInjective(e, FaceLine(e, r, comp, off), i, FaceLine(e, s, z.comp, Across(e, z)), Along(e, z));
      FaceLineUnique(e, r, comp, off, s, z.comp, Across(e, z));
    }
  }

  lemma FixValueKept(e: Extents, nq: nat, owner: nat -> nat, me: nat, recv: Received, faces: seq<HangingFace>,
                     E0: EmfField, E: EmfField, done: set<Fix>, z: Fix)
    requires e.Valid() && Separate(nq, faces) && Fixed(e, nq, owner, me, recv, faces, E0, E, done) && FixRange(e, faces, z)
    ensures FixValue(e, E, owner, me, recv, faces, z) == FixValue(e, E0, owner, me, recv, faces, z)
  {
    assert |faces[z.iq].fine| == 4;
    hide PairMean, Separate, Fixed;
    if z.comp == 0 {
      PairMeanKept(e, nq, owner, me, recv, faces, E0, E, done, z.iq, z.c, 0, 2 * z.i, 2 * z.j);
    } else {
      PairMeanKept(e, nq, owner, me, recv, faces, E0, E, done, z.iq, z.c, 1, 2 * z.j, 2 * z.i);
    }
  }

  lemma PairMeanKept(e: Extents, nq: nat, owner: nat -> nat, me: nat, recv: Received, faces: seq<HangingFace>,
                     E0: EmfField, E: EmfField, done: set<Fix>, n: nat, c: nat, comp: nat, k: nat, off: nat)
    requires e.Valid() && Separate(nq, faces) && Fixed(e, nq, owner, me, recv, faces, E0, E, done)
    requires n < |faces| && c < 4 && comp < 2 && off <= e.nx && k + 1 < e.nx && |faces[n].fine| == 4
    ensures PairMean(e, E, faces[n].fine[c], comp, k, off) == PairMean(e, E0, faces[n].fine[c], comp, k, off)
  {
    hide OnLine, Separate, Fixed;
    FineLineKept(e, nq, owner, me, recv, faces, E0, E, done, n, c, comp, off, k);
    FineLineKept(e, nq, owner, me, recv, faces, E0, E, done, n, c, comp, off, k + 1);
  }

  lemma FixStep(e: Extents, nq: nat, owner: nat -> nat, me: nat, recv: Received, faces: seq<HangingFace>,
                E0: EmfField, E: EmfField, E': EmfField, done: set<Fix>, z: Fix)
    requires e.Valid() && Separate(nq, faces) && Fixed(e, nq, owner, me, recv, faces, E0, E, done) && FixRange(e, faces, z) && z !in done
    requires Active(e, z) ==> E'(Target(e, faces, z)) == FixValue(e, E0, owner, me, recv, faces, z)
    requires forall x | InGrid(e, nq, x) && (Active(e, z) ==> x != Target(e, faces, z)) :: E'(x) == E(x)
    ensures Fixed(e, nq, owner, me, recv, faces, E0, E', done + {z})
  {
    hide FixValue, Target, InGrid, Active;
    forall y | y in done && Active(e, y) ensures E'(Target(e, faces, y)) == E(Target(e, faces, y)) {
      TargetInGrid(e, nq, faces, y);
      if Active(e, z) && Target(e, faces, y) == Target(e, faces, z) { TargetUnique(e, nq, faces, y, z); }
    }
    forall x | InGrid(e, nq, x) && !Written(e, faces, done + {z}, x) ensures E'(x) == E0(x) {
      assert z in done + {z};
    }
  }

  lemma TargetInGrid(e: Extents, nq: nat, faces: seq<HangingFace>, z: Fix)
    requires e.Valid() && Separate(nq, faces) && FixRange(e, faces, z)
    ensures InGrid(e, nq, Target(e, faces, z))
  {
    Positions(e, z);
    hide At, FaceLine, InGrid;
    LineInGrid(e, nq, faces[z.iq].coarse, z.comp, Across(e, z), Along(e, z));
  }

  ghost predicate EmfSized(e: Extents, nq: nat, emf: array5<real>) {
    && emf.Length0 >= e.nx + 1 + 2 * e.ngz && emf.Length1 >= e.nx + 1 + 2 * e.ngz && emf.Length2 >= e.nx + 1 + 2 * e.ngz
    && emf.Length3 == 3 && emf.Length4 == nq
  }

  /** The mean of the two fine EMFs at positions k and k + 1 of a line of face r. */
  method ReadMean(e: Extents, nq: nat, emf: array5<real>, r: FaceRef, comp: nat, k: nat, off: nat) returns (mean: real)
    requires EmfSized(e, nq, emf) && r.f < 6 && r.q < nq && comp < 2 && off <= e.nx && k + 1 < e.nx
    ensures mean == PairMean(e, EmfOf(emf), r, comp, k, off)
  {
    LineInGrid(e, nq, r, comp, off, k);
    LineInGrid(e, nq, r, comp, off, k + 1);
    var l := FaceLine(e, r, comp, off);
    var x, y := At(e, l, k), At(e, l, k + 1);
    hide FaceLine, At, EmfOf;
    mean := 0.5 * (emf[x.i, x.j, x.k, x.d, x.q] + emf[y.i, y.j, y.k, y.d, y.q]);
  }

  /** Store one component unless its line is left to the edge kernels. */
  method StoreComponent(e: Extents, nq: nat, owner: nat -> nat, me: nat, recv: Received, emf: array5<real>, faces: seq<HangingFace>,
                        z: Fix, value: real, ghost E0: EmfField, ghost done: set<Fix>)
    requires e.Valid() && EmfSized(e, nq, emf) && Separate(nq, faces) && FixRange(e, faces, z) && z !in done
    requires Fixed(e, nq, owner, me, recv, faces, E0, EmfOf(emf), done) && value == FixValue(e, E0, owner, me, recv, faces, z)
    modifies emf
    ensures Fixed(e, nq, owner, me, recv, faces, E0, EmfOf(emf), done + {z})
  {
    ghost var E := EmfOf(emf);
    TargetInGrid(e, nq, faces, z);
    hide Fixed, FixValue, EmfOf, Target, Separate;
    if Across(e, z) != e.nx / 2 && Across(e, z) != 0 {
      var x := Target(e, faces, z);
      emf[x.i, x.j, x.k, x.d, x.q] := value;
    }
    FixStep(e, nq, owner, me, recv, faces, E0, E, EmfOf(emf), done, z);
  }

  /** One child of one loop index: read both means, then store both. */
  method FixChild(e: Extents, nq: nat, owner: nat -> nat, me: nat, recv: Received, emf: array5<real>, faces: seq<HangingFace>,
                  i: nat, j: nat, c: nat, iq: nat, ghost E0: EmfField, ghost done: set<Fix>)
    requires e.Valid() && EmfSized(e, nq, emf) && Separate(nq, faces) && i < e.nx / 2 && j < e.nx / 2 && c < 4 && iq < |faces|
    requires Fix(i, j, c, 0, iq) !in done && Fix(i, j, c, 1, iq) !in done
    requires Fixed(e, nq, owner, me, recv, faces, E0, EmfOf(emf), done)
    modifies emf
    ensures Fixed(e, nq, owner, me, recv, faces, E0, EmfOf(emf), done + {Fix(i, j, c, 0, iq)} + {Fix(i, j, c, 1, iq)})
  {
    assert |faces[iq].fine| == 4 && faces[iq].fine[c].f < 6 && faces[iq].fine[c].q < nq;
    hide Fixed, EmfOf, Separate, PairMean;
    var r, corrI, corrJ := faces[iq].fine[c], 0.0, 0.0;
    if owner(r.q) != me {
      corrI, corrJ := recv(r, 0, i, j), recv(r, 1, i, j);
    } else {
      corrI := ReadMean(e, nq, emf, r, 0, 2 * i, 2 * j);
      corrJ := ReadMean(e, nq, emf, r, 1, 2 * j, 2 * i);
    }
    FixValueKept(e, nq, owner, me, recv, faces, E0, EmfOf(emf), done, Fix(i, j, c, 0, iq));
    FixValueKept(e, nq, owner, me, recv, faces, E0, EmfOf(emf), done, Fix(i, j, c, 1, iq));
    StoreComponent(e, nq, owner, me, recv, emf, faces, Fix(i, j, c, 0, iq), corrI, E0, done);
    StoreComponent(e, nq, owner, me, recv, emf, faces, Fix(i, j, c, 1, iq), corrJ, E0, done + {Fix(i, j, c, 0, iq)});
  }

  /** Loop index of the kernel. */
  datatype FaceItem = FaceItem(i: nat, j: nat, iq: nat)

  ghost predicate ItemRange(e: Extents, faces: seq<HangingFace>, x: FaceItem) {
    x.i < e.nx / 2 && x.j < e.nx / 2 && x.iq < |faces|
  }

  function ItemOf(z: Fix): FaceItem { FaceItem(z.i, z.j, z.iq) }

  /** The writes of loop index x for its first n children. */
  ghost function FixesOf(x: FaceItem, n: nat): set<Fix> {
    set c, comp | 0 <= c < n && 0 <= comp < 2 :: Fix(x.i, x.j, c, comp, x.iq)
  }

  lemma FixesStep(x: FaceItem, n: nat)
    ensures FixesOf(x, n + 1) == FixesOf(x, n) + {Fix(x.i, x.j, n, 0, x.iq)} + {Fix(x.i, x.j, n, 1, x.iq)}
    ensures Fix(x.i, x.j, n, 0, x.iq) !in FixesOf(x, n) && Fix(x.i, x.j, n, 1, x.iq) !in FixesOf(x, n)
  {
  }

  lemma InFixesOf(x: FaceItem, z: Fix)
    ensures z in FixesOf(x, 4) <==> z.c < 4 && z.comp < 2 && ItemOf(z) == x
  {
  }

  /** The kernel body: all four children of one loop index. */
  method FixItem(e: Extents, nq: nat, owner: nat -> nat, me: nat, recv: Received, emf: array5<real>, faces: seq<HangingFace>, x: FaceItem,
                 ghost E0: EmfField, ghost done: set<Fix>) returns (ghost done': set<Fix>)
    requires e.Valid() && EmfSized(e, nq, emf) && Separate(nq, faces) && ItemRange(e, faces, x)
    requires Fixed(e, nq, owner, me, recv, faces, E0, EmfOf(emf), done) && forall z | z in done :: ItemOf(z) != x
    modifies emf
    ensures Fixed(e, nq, owner, me, recv, faces, E0, EmfOf(emf), done') && done' == done + FixesOf(x, 4)
  {
    assert forall m | 0 <= m < |faces| :: |faces[m].fine| == 4;
    hide Fixed, EmfOf, Separate;
    done' := done;
    for c := 0 to 4
      invariant Fixed(e, nq, owner, me, recv, faces, E0, EmfOf(emf), done')
      invariant done' == done + FixesOf(x, c)
    {
      FixesStep(x, c);
      hide FixesOf;
      assert Fix(x.i, x.j, c, 0, x.iq) !in done' && Fix(x.i, x.j, c, 1, x.iq) !in done';
      FixChild(e, nq, owner, me, recv, emf, faces, x.i, x.j, c, x.iq, E0, done');
      done' := done' + {Fix(x.i, x.j, c, 0, x.iq)} + {Fix(x.i, x.j, c, 1, x.iq)};
    }
  }

  /** The correction kernel for coarse-fine faces; loop indices are visited in an arbitrary order. */
  method CorrectFaceEmfs(e: Extents, nq: nat, owner: nat -> nat, me: nat, recv: Received, emf: array5<real>, faces: seq<HangingFace>, order: seq<FaceItem>)
    returns (ghost done: set<Fix>)
    requires e.Valid() && EmfSized(e, nq, emf) && Separate(nq, faces)
    requires Schedule(order, (x: FaceItem) => ItemRange(e, faces, x))
    modifies emf
    ensures Fixed(e, nq, owner, me, recv, faces, old(EmfOf(emf)), EmfOf(emf), done) && forall z :: z in done <==> FixRange(e, faces, z)
  {
    ghost var E0, P := EmfOf(emf), (x: FaceItem) => ItemRange(e, faces, x);
    done := {};
    assert Fixed(e, nq, owner, me, recv, faces, E0, E0, {});
    hide Fixed, EmfOf, FixesOf;
    for n := 0 to |order|
      invariant Fixed(e, nq, owner, me, recv, faces, E0, EmfOf(emf), done)
      invariant forall z :: z in done <==> z.c < 4 && z.comp < 2 && ItemOf(z) in order[..n]
    {
      var x := order[n];
      ScheduleStep(order, P, n);
      forall z ensures z in FixesOf(x, 4) <==> z.c < 4 && z.comp < 2 && ItemOf(z) == x { InFixesOf(x, z); }
      done := FixItem(e, nq, owner, me, recv, emf, faces, x, E0, done);
    }
    assert order[..|order|] == order;
    assert forall z :: FixRange(e, faces, z) <==> z.c < 4 && z.comp < 2 && P(ItemOf(z));
  }
}
