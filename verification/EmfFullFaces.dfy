/** Averaging of the EMFs across same-level faces: both copies of every line strictly
    inside the face take the mean of the two sides. */
module EmfFullFaces {
  import opened Grid
  import opened ConstrainedTransport
  import opened FullFaces
  import opened EmfLines
  import opened EmfFaces

  /** One write: component comp at position (i, j) of side n of face iq. */
  datatype Avg = Avg(i: nat, j: nat, n: nat, comp: nat, iq: nat)

  ghost predicate AvgRange(e: Extents, owner: nat -> nat, me: nat, faces: seq<FullFace>, z: Avg) {
    && z.i < e.nx && z.j < e.nx && z.n < 2 && z.comp < 2 && z.iq < |faces|
    && owner(faces[z.iq].Side(z.n).q) == me && AvgOff(z) > 0
  }

  function AvgOff(z: Avg): nat { if z.comp == 0 then z.j else z.i }

  function AvgAlong(z: Avg): nat { if z.comp == 0 then z.i else z.j }

  function AvgAt(e: Extents, faces: seq<FullFace>, z: Avg): EmfIx
    requires z.iq < |faces|
  {
    At(e, FaceLine(e, faces[z.iq].Side(z.n), z.comp, AvgOff(z)), AvgAlong(z))
  }

  /** What rank me sees of side n. */
  ghost function SideEmf(e: Extents, E: EmfField, owner: nat -> nat, me: nat, recv: Received, r: FaceRef, comp: nat, i: nat, j: nat): real {
    if owner(r.q) != me then recv(r, comp, i, j)
    else OnLine(e, E, r, comp, if comp == 0 then i else j, if comp == 0 then j else i)
  }

  ghost function AvgValue(e: Extents, E: EmfField, owner: nat -> nat, me: nat, recv: Received, h: FullFace, comp: nat, i: nat, j: nat): real {
    (SideEmf(e, E, owner, me, recv, h.Side(0), comp, i, j) + SideEmf(e, E, owner, me, recv, h.Side(1), comp, i, j)) * 0.5
  }

  /** Every quadrant face is a side of at most one interface. */
  ghost predicate SeparateFull(nq: nat, faces: seq<FullFace>) {
    && (forall m, s | 0 <= m < |faces| && 0 <= s < 2 :: faces[m].Side(s).f < 6 && faces[m].Side(s).q < nq)
    && forall m, s, n, t | 0 <= m < |faces| && 0 <= s < 2 && 0 <= n < |faces| && 0 <= t < 2 && faces[m].Side(s) == faces[n].Side(t) :: m == n && s == t
  }

  ghost predicate AvgWritten(e: Extents, owner: nat -> nat, me: nat, faces: seq<FullFace>, done: set<Avg>, x: EmfIx) {
    exists z | z in done && AvgRange(e, owner, me, faces, z) :: x == AvgAt(e, faces, z)
  }

  /** What a set of writes did to the field. */
  ghost predicate Averaged(e: Extents, nq: nat, owner: nat -> nat, me: nat, recv: Received, faces: seq<FullFace>, E0: EmfField, E: EmfField, done: set<Avg>) {
    && (forall z | z in done :: AvgRange(e, owner, me, faces, z)
          && E(AvgAt(e, faces, z)) == AvgValue(e, E0, owner, me, recv, faces[z.iq], z.comp, z.i, z.j))
    && forall x | InGrid(e, nq, x) && !AvgWritten(e, owner, me, faces, done, x) :: E(x) == E0(x)
  }

  lemma AvgUnique(e: Extents, nq: nat, owner: nat -> nat, me: nat, faces: seq<FullFace>, z: Avg, r: FaceRef, m: nat, s: nat, comp: nat, off: nat, along: nat)
    requires SeparateFull(nq, faces) && AvgRange(e, owner, me, faces, z)
    requires m < |faces| && s < 2 && r == faces[m].Side(s) && comp < 2 && off <= e.nx
    requires At(e, FaceLine(e, r, comp, off), along) == AvgAt(e, faces, z)
    ensures z == Avg(if comp == 0 then along else off, if comp == 0 then off else along, s, comp, m)
  {
    var t := faces[z.iq].Side(z.n);
    assert r.f < 6 && t.f < 6;
    AxisBound(e, r, comp, off);
    AxisBound(e, t, z.comp, AvgOff(z));
    AtInjective(e, FaceLine(e, r, comp, off), along, FaceLine(e, t, z.comp, AvgOff(z)), AvgAlong(z));
    FaceLineUnique(e, r, comp, off, t, z.comp, AvgOff(z));
  }

  lemma AvgInGrid(e: Extents, nq: nat, owner: nat -> nat, me: nat, faces: seq<FullFace>, z: Avg)
    requires SeparateFull(nq, faces) && AvgRange(e, owner, me, faces, z)
    ensures InGrid(e, nq, AvgAt(e, faces, z))
  {
    assert faces[z.iq].Side(z.n).f < 6 && faces[z.iq].Side(z.n).q < nq;
    LineInGrid(e, nq, faces[z.iq].Side(z.n), z.comp, AvgOff(z), AvgAlong(z));
  }

  lemma AvgStep(e: Extents, nq: nat, owner: nat -> nat, me: nat, recv: Received, faces: seq<FullFace>,
                E0: EmfField, E: EmfField, E': EmfField, done: set<Avg>, z: Avg)
    requires SeparateFull(nq, faces) && Averaged(e, nq, owner, me, recv, faces, E0, E, done) && AvgRange(e, owner, me, faces, z) && z !in done
    requires E'(AvgAt(e, faces, z)) == AvgValue(e, E0, owner, me, recv, faces[z.iq], z.comp, z.i, z.j)
    requires forall x | InGrid(e, nq, x) && x != AvgAt(e, faces, z) :: E'(x) == E(x)
    ensures Averaged(e, nq, owner, me, recv, faces, E0, E', done + {z})
  {
    hide AvgValue, InGrid, SeparateFull, At, FaceLine;
    forall y | y in done ensures E'(AvgAt(e, faces, y)) == E(AvgAt(e, faces, y)) {
      AvgInGrid(e, nq, owner, me, faces, y);
      if AvgAt(e, faces, y) == AvgAt(e, faces, z) {
        AvgUnique(e, nq, owner, me, faces, z, faces[y.iq].Side(y.n), y.iq, y.n, y.comp, AvgOff(y), AvgAlong(y));
      }
    }
    forall x | InGrid(e, nq, x) && !AvgWritten(e, owner, me, faces, done + {z}, x) ensures E'(x) == E0(x) {
      assert z in done + {z};
    }
  }

  /** A line whose own write is still to come holds what it held at the start. */
  lemma SideEmfKept(e: Extents, nq: nat, owner: nat -> nat, me: nat, recv: Received, faces: seq<FullFace>, E0: EmfField, E: EmfField, done: set<Avg>,
                    m: nat, s: nat, comp: nat, i: nat, j: nat)
    requires SeparateFull(nq, faces) && Averaged(e, nq, owner, me, recv, faces, E0, E, done)
    requires m < |faces| && s < 2 && comp < 2 && i < e.nx && j < e.nx && Avg(i, j, s, comp, m) !in done
    ensures SideEmf(e, E, owner, me, recv, faces[m].Side(s), comp, i, j) == SideEmf(e, E0, owner, me, recv, faces[m].Side(s), comp, i, j)
  {
    var r, off, along := faces[m].Side(s), if comp == 0 then j else i, if comp == 0 then i else j;
    assert r.f < 6 && r.q < nq;
    LineInGrid(e, nq, r, comp, off, along);
    var x := At(e, FaceLine(e, r, comp, off), along);
    hide AvgValue, InGrid, SeparateFull, At, FaceLine;
    if AvgWritten(e, owner, me, faces, done, x) {
      var z :| z in done && AvgRange(e, owner, me, faces, z) && x == AvgAt(e, faces, z);
      AvgUnique(e, nq, owner, me, faces, z, r, m, s, comp, off, along);
    }
  }

  method ReadSideEmf(e: Extents, nq: nat, owner: nat -> nat, me: nat, recv: Received, emf: array5<real>, r: FaceRef, comp: nat, i: nat, j: nat) returns (v: real)
    requires EmfSized(e, nq, emf) && r.f < 6 && r.q < nq && comp < 2 && i < e.nx && j < e.nx
    ensures v == SideEmf(e, EmfOf(emf), owner, me, recv, r, comp, i, j)
  {
    if owner(r.q) != me { return recv(r, comp, i, j); }
    var along, off := if comp == 0 then i else j, if comp == 0 then j else i;
    LineInGrid(e, nq, r, comp, off, along);
    var x := At(e, FaceLine(e, r, comp, off), along);
    hide At, FaceLine, EmfOf;
    v := emf[x.i, x.j, x.k, x.d, x.q];
  }

  /** Store one component on one side, if the side is local and the line is not on the rim. */
  method StoreSide(e: Extents, nq: nat, owner: nat -> nat, me: nat, recv: Received, emf: array5<real>, faces: seq<FullFace>, z: Avg, value: real,
                   ghost E0: EmfField, ghost done: set<Avg>) returns (ghost done': set<Avg>)
    requires EmfSized(e, nq, emf) && SeparateFull(nq, faces) && z.i < e.nx && z.j < e.nx && z.n < 2 && z.comp < 2 && z.iq < |faces| && z !in done
    requires Averaged(e, nq, owner, me, recv, faces, E0, EmfOf(emf), done) && value == AvgValue(e, E0, owner, me, recv, faces[z.iq], z.comp, z.i, z.j)
    modifies emf
    ensures Averaged(e, nq, owner, me, recv, faces, E0, EmfOf(emf), done')
    ensures done' == if AvgRange(e, owner, me, faces, z) then done + {z} else done
  {
    done' := done;
    if owner(faces[z.iq].Side(z.n).q) == me && AvgOff(z) > 0 {
      ghost var E := EmfOf(emf);
      AvgInGrid(e, nq, owner, me, faces, z);
      var x := AvgAt(e, faces, z);
      hide AvgAt, Averaged, SeparateFull, EmfOf, AvgValue;
      emf[x.i, x.j, x.k, x.d, x.q] := value;
      AvgStep(e, nq, owner, me, recv, faces, E0, E, EmfOf(emf), done, z);
      done' := done + {z};
    }
  }

  ghost predicate FullRange(e: Extents, faces: seq<FullFace>, x: FaceItem) { x.i < e.nx && x.j < e.nx && x.iq < |faces| }

  function AvgItem(z: Avg): FaceItem { FaceItem(z.i, z.j, z.iq) }

  /** The kernel body: read both sides' components, then store their means on the local sides. */
  method AverageItem(e: Extents, nq: nat, owner: nat -> nat, me: nat, recv: Received, emf: array5<real>, faces: seq<FullFace>, x: FaceItem,
                     ghost E0: EmfField, ghost done: set<Avg>) returns (ghost done': set<Avg>)
    requires EmfSized(e, nq, emf) && SeparateFull(nq, faces) && FullRange(e, faces, x)
    requires Averaged(e, nq, owner, me, recv, faces, E0, EmfOf(emf), done) && forall z | z in done :: AvgItem(z) != x
    modifies emf
    ensures Averaged(e, nq, owner, me, recv, faces, E0, EmfOf(emf), done') && done' == done + WritesOf(e, owner, me, faces, x, 2)
  {
    var h := faces[x.iq];
    assert h.Side(0).f < 6 && h.Side(0).q < nq && h.Side(1).f < 6 && h.Side(1).q < nq;
    var corr0, corr1 := ReadBoth(e, nq, owner, me, recv, emf, faces, x, E0, done);
    hide Averaged, EmfOf, SeparateFull, AvgValue, AvgRange;
    done' := done;
    assert WritesOf(e, owner, me, faces, x, 0) == {};
    for n := 0 to 2
      invariant Averaged(e, nq, owner, me, recv, faces, E0, EmfOf(emf), done') && done' == done + WritesOf(e, owner, me, faces, x, n)
    {
      WritesStep(e, owner, me, faces, x, n);
      hide WritesOf, PairOf;
      done' := StorePair(e, nq, owner, me, recv, emf, faces, x, n, corr0, corr1, E0, done');
    }
  }

  /** Both components on side n. */
  method StorePair(e: Extents, nq: nat, owner: nat -> nat, me: nat, recv: Received, emf: array5<real>, faces: seq<FullFace>, x: FaceItem, n: nat,
                   corr0: real, corr1: real, ghost E0: EmfField, ghost done: set<Avg>) returns (ghost done': set<Avg>)
    requires EmfSized(e, nq, emf) && SeparateFull(nq, faces) && FullRange(e, faces, x) && n < 2
    requires Averaged(e, nq, owner, me, recv, faces, E0, EmfOf(emf), done)
    requires Avg(x.i, x.j, n, 0, x.iq) !in done && Avg(x.i, x.j, n, 1, x.iq) !in done
    requires corr0 == AvgValue(e, E0, owner, me, recv, faces[x.iq], 0, x.i, x.j)
    requires corr1 == AvgValue(e, E0, owner, me, recv, faces[x.iq], 1, x.i, x.j)
    modifies emf
    ensures Averaged(e, nq, owner, me, recv, faces, E0, EmfOf(emf), done') && done' == done + PairOf(e, owner, me, faces, x, n)
  {
    hide Averaged, EmfOf, SeparateFull, AvgValue, AvgRange;
    done' := StoreSide(e, nq, owner, me, recv, emf, faces, Avg(x.i, x.j, n, 0, x.iq), corr0, E0, done);
    done' := StoreSide(e, nq, owner, me, recv, emf, faces, Avg(x.i, x.j, n, 1, x.iq), corr1, E0, done');
  }

  ghost function PairOf(e: Extents, owner: nat -> nat, me: nat, faces: seq<FullFace>, x: FaceItem, n: nat): set<Avg> {
    var z0, z1 := Avg(x.i, x.j, n, 0, x.iq), Avg(x.i, x.j, n, 1, x.iq);
    (if AvgRange(e, owner, me, faces, z0) then {z0} else {}) + (if AvgRange(e, owner, me, faces, z1) then {z1} else {})
  }

  /** The writes of loop index x on its first n sides. */
  ghost function WritesOf(e: Extents, owner: nat -> nat, me: nat, faces: seq<FullFace>, x: FaceItem, n: nat): set<Avg> {
    set s, comp | 0 <= s < n && 0 <= comp < 2 && AvgRange(e, owner, me, faces, Avg(x.i, x.j, s, comp, x.iq)) :: Avg(x.i, x.j, s, comp, x.iq)
  }

  lemma WritesStep(e: Extents, owner: nat -> nat, me: nat, faces: seq<FullFace>, x: FaceItem, n: nat)
    ensures WritesOf(e, owner, me, faces, x, n + 1) == WritesOf(e, owner, me, faces, x, n) + PairOf(e, owner, me, faces, x, n)
    ensures Avg(x.i, x.j, n, 0, x.iq) !in WritesOf(e, owner, me, faces, x, n) && Avg(x.i, x.j, n, 1, x.iq) !in WritesOf(e, owner, me, faces, x, n)
  {
    hide AvgRange;
  }

  lemma InWritesOf(e: Extents, owner: nat -> nat, me: nat, faces: seq<FullFace>, x: FaceItem, z: Avg)
    ensures z in WritesOf(e, owner, me, faces, x, 2) <==> AvgItem(z) == x && AvgRange(e, owner, me, faces, z)
  {
  }

  lemma InAvgRange(e: Extents, owner: nat -> nat, me: nat, faces: seq<FullFace>, z: Avg)
    requires AvgRange(e, owner, me, faces, z)
    ensures z.n < 2 && z.comp < 2 && FullRange(e, faces, AvgItem(z))
  {
  }

  method ReadBoth(e: Extents, nq: nat, owner: nat -> nat, me: nat, recv: Received, emf: array5<real>, faces: seq<FullFace>, x: FaceItem,
                  ghost E0: EmfField, ghost done: set<Avg>) returns (corr0: real, corr1: real)
    requires EmfSized(e, nq, emf) && SeparateFull(nq, faces) && FullRange(e, faces, x)
    requires Averaged(e, nq, owner, me, recv, faces, E0, EmfOf(emf), done) && forall z | z in done :: AvgItem(z) != x
    ensures corr0 == AvgValue(e, E0, owner, me, recv, faces[x.iq], 0, x.i, x.j)
    ensures corr1 == AvgValue(e, E0, owner, me, recv, faces[x.iq], 1, x.i, x.j)
  {
    var h := faces[x.iq];
    assert h.Side(0).f < 6 && h.Side(0).q < nq && h.Side(1).f < 6 && h.Side(1).q < nq;
    hide Averaged, EmfOf, SeparateFull, SideEmf;
    var a0 := ReadSideEmf(e, nq, owner, me, recv, emf, h.Side(0), 0, x.i, x.j);
    var a1 := ReadSideEmf(e, nq, owner, me, recv, emf, h.Side(0), 1, x.i, x.j);
    var b0 := ReadSideEmf(e, nq, owner, me, recv, emf, h.Side(1), 0, x.i, x.j);
    var b1 := ReadSideEmf(e, nq, owner, me, recv, emf, h.Side(1), 1, x.i, x.j);
    ghost var E := EmfOf(emf);
    SideEmfKept(e, nq, owner, me, recv, faces, E0, E, done, x.iq, 0, 0, x.i, x.j);
    SideEmfKept(e, nq, owner, me, recv, faces, E0, E, done, x.iq, 0, 1, x.i, x.j);
    SideEmfKept(e, nq, owner, me, recv, faces, E0, E, done, x.iq, 1, 0, x.i, x.j);
    SideEmfKept(e, nq, owner, me, recv, faces, E0, E, done, x.iq, 1, 1, x.i, x.j);
    corr0 := (a0 + b0) * 0.5;
    corr1 := (a1 + b1) * 0.5;
  }

  /** The averaging kernel; loop indices are visited in an arbitrary order. */
  method AverageFaceEmfs(e: Extents, nq: nat, owner: nat -> nat, me: nat, recv: Received, emf: array5<real>, faces: seq<FullFace>, order: seq<FaceItem>)
    returns (ghost done: set<Avg>)
    requires EmfSized(e, nq, emf) && SeparateFull(nq, faces)
    requires Schedule(order, (x: FaceItem) => FullRange(e, faces, x))
    modifies emf
    ensures Averaged(e, nq, owner, me, recv, faces, old(EmfOf(emf)), EmfOf(emf), done)
    ensures forall z :: z in done <==> AvgRange(e, owner, me, faces, z)
  {
    ghost var E0, P := EmfOf(emf), (x: FaceItem) => FullRange(e, faces, x);
    done := {};
    assert Averaged(e, nq, owner, me, recv, faces, E0, E0, {});
    hide Averaged, EmfOf, SeparateFull, AvgRange, WritesOf;
    for n := 0 to |order|
      invariant Averaged(e, nq, owner, me, recv, faces, E0, EmfOf(emf), done)
      invariant forall z :: z in done <==> AvgRange(e, owner, me, faces, z) && AvgItem(z) in order[..n]
    {
      var x := order[n];
      ScheduleStep(order, P, n);
      forall z ensures z in WritesOf(e, owner, me, faces, x, 2) <==> AvgItem(z) == x && AvgRange(e, owner, me, faces, z) {
        InWritesOf(e, owner, me, faces, x, z);
      }
      done := AverageItem(e, nq, owner, me, recv, emf, faces, x, E0, done);
    }
    assert order[..|order|] == order;
    forall z ensures z in done <==> AvgRange(e, owner, me, faces, z) {
      if AvgRange(e, owner, me, faces, z) {
        InAvgRange(e, owner, me, faces, z);
        assert P(AvgItem(z));
      }
    }
  }
}
