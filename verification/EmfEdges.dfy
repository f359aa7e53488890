/** The edge kernels: one value per edge position, taken from the side of smallest edge id,
    is written to every local copy of the edge; coarse sides of an edge with fine ones take the mean of
    two fine values. With fine = true this is the pair of kernels for edges with fine sides,
    with fine = false the pair for edges without any. */
module EmfEdges {
  import opened Arithmetic
  import opened Grid
  import opened ConstrainedTransport
  import opened EdgeKeys
  import opened EmfLines
  import opened EmfFaces
  import opened EdgeSort

  /** What was received for an edge line of a quadrant of another rank: quadrant, edge, position. */
  type ReceivedEdges = (nat, nat, nat) -> real

  /** The line of edge `edge` of quadrant q: bit 0 and bit 1 of the edge id give the sides. */
  function EdgeLine(e: Extents, edge: nat, q: nat): Line {
    Line(q, edge / 4, if edge % 2 == 1 then e.nx else 0, if edge / 2 % 2 == 1 then e.nx else 0)
  }

  /** The line of a coarse side, through the middle of a face where an offset is set. */
  function CoarseLine(e: Extents, s: GlobalSide, q: nat): Line {
    var l := EdgeLine(e, s.edge, q);
    Line(q, l.d, if s.offI then e.nx / 2 else l.u, if s.offJ then e.nx / 2 else l.w)
  }

  ghost predicate EdgesReady(e: Extents, nq: nat, fine: bool, descs: seq<Edge>) {
    forall n | 0 <= n < |descs| :: |descs[n]| <= 4 && forall s | 0 <= s < |descs[n]| :: SideReady(nq, fine, descs[n][s])
  }

  ghost predicate SideReady(nq: nat, fine: bool, s: GlobalSide) {
    && s.edge < 12 && |s.quads| == (if s.isFine then 2 else 1) && (forall c | 0 <= c < |s.quads| :: s.quads[c] < nq)
    && (!fine ==> !s.isFine)
  }

  /** The EMF rank me sees on child c of a side at position i. */
  ghost function SideValue(e: Extents, E: EmfField, owner: nat -> nat, me: nat, recv: ReceivedEdges, s: GlobalSide, c: nat, i: nat): real {
    if c >= |s.quads| then 0.0
    else if owner(s.quads[c]) != me then recv(s.quads[c], s.edge, i)
    else E(At(e, EdgeLine(e, s.edge, s.quads[c]), i))
  }

  ghost function EntryOf(e: Extents, E: EmfField, owner: nat -> nat, me: nat, recv: ReceivedEdges, s: GlobalSide, i: nat): Entry {
    Entry(s.edge, SideValue(e, E, owner, me, recv, s, 0, i), SideValue(e, E, owner, me, recv, s, 1, i))
  }

  /** The entries collected from the sides that take part. */
  ghost function Collected(e: Extents, E: EmfField, owner: nat -> nat, me: nat, recv: ReceivedEdges, fine: bool, D: Edge, i: nat): seq<Entry> {
    if D == [] then []
    else Collected(e, E, owner, me, recv, fine, D[..|D| - 1], i)
         + if D[|D| - 1].isFine == fine then [EntryOf(e, E, owner, me, recv, D[|D| - 1], i)] else []
  }

  /** Side n takes part and has the smallest edge id of those that do. */
  ghost predicate Smallest(fine: bool, D: Edge, n: nat) {
    n < |D| && D[n].isFine == fine && forall m | 0 <= m < |D| && m != n && D[m].isFine == fine :: D[n].edge < D[m].edge
  }

  /** Some side takes part, and those that do have different edge ids. */
  ghost predicate DistinctIds(fine: bool, D: Edge) {
    && (exists n :: 0 <= n < |D| && D[n].isFine == fine)
    && forall m, n | 0 <= m < n < |D| && D[m].isFine == fine && D[n].isFine == fine :: D[m].edge != D[n].edge
  }

  lemma {:induction false} SmallestExists(fine: bool, D: Edge) returns (n: nat)
    requires DistinctIds(fine, D)
    ensures n < |D| && Smallest(fine, D, n)
  {
    var last := |D| - 1;
    var init := D[..last];
    if exists k :: 0 <= k < |init| && init[k].isFine == fine {
      n := SmallestExists(fine, init);
      assert D[last].isFine == fine ==> D[n].edge != D[last].edge;
      if D[last].isFine == fine && D[last].edge < D[n].edge { n := last; }
    } else {
      n := last;
    }
  }

  lemma {:induction false} CollectedAll(e: Extents, E: EmfField, owner: nat -> nat, me: nat, recv: ReceivedEdges, fine: bool, D: Edge, i: nat, k: nat)
    returns (m: nat)
    requires k < |Collected(e, E, owner, me, recv, fine, D, i)|
    ensures m < |D| && D[m].isFine == fine && Collected(e, E, owner, me, recv, fine, D, i)[k] == EntryOf(e, E, owner, me, recv, D[m], i)
  {
    var last := |D| - 1;
    if k < |Collected(e, E, owner, me, recv, fine, D[..last], i)| {
      m := CollectedAll(e, E, owner, me, recv, fine, D[..last], i, k);
    } else {
      m := last;
    }
  }

  /** The entry of the smallest side is collected, and every other entry has a larger key. */
  lemma {:induction false} CollectedSmallest(e: Extents, E: EmfField, owner: nat -> nat, me: nat, recv: ReceivedEdges, fine: bool, D: Edge, i: nat, n: nat)
    returns (k: nat)
    requires Smallest(fine, D, n)
    ensures var z := Collected(e, E, owner, me, recv, fine, D, i);
      k < |z| && z[k] == EntryOf(e, E, owner, me, recv, D[n], i) && forall m | 0 <= m < |z| && m != k :: D[n].edge < z[m].key
  {
    var last := |D| - 1;
    var init := Collected(e, E, owner, me, recv, fine, D[..last], i);
    if n < last {
      k := CollectedSmallest(e, E, owner, me, recv, fine, D[..last], i, n);
    } else {
      k := |init|;
      forall m | 0 <= m < |init| ensures D[n].edge < init[m].key {
        var j := CollectedAll(e, E, owner, me, recv, fine, D[..last], i, m);
      }
    }
  }

  lemma CollectedStep(e: Extents, E: EmfField, owner: nat -> nat, me: nat, recv: ReceivedEdges, fine: bool, D: Edge, i: nat, n: nat)
    requires n < |D|
    ensures Collected(e, E, owner, me, recv, fine, D[..n + 1], i) == Collected(e, E, owner, me, recv, fine, D[..n], i)
              + if D[n].isFine == fine then [EntryOf(e, E, owner, me, recv, D[n], i)] else []
  {
    assert D[..n + 1][..n] == D[..n];
  }

  lemma EdgeInGrid(e: Extents, nq: nat, l: Line, i: nat)
    requires l.q < nq && l.d < 3 && 0 <= l.u <= e.nx && 0 <= l.w <= e.nx && i < e.nx
    ensures InGrid(e, nq, At(e, l, i))
  {
  }

  method ReadSide(e: Extents, nq: nat, owner: nat -> nat, me: nat, recv: ReceivedEdges, emf: array5<real>, s: GlobalSide, c: nat, i: nat) returns (value: real)
    requires EmfSized(e, nq, emf) && s.edge < 12 && i < e.nx && forall c | 0 <= c < |s.quads| :: s.quads[c] < nq
    ensures value == SideValue(e, EmfOf(emf), owner, me, recv, s, c, i)
  {
    if c >= |s.quads| { return 0.0; }
    if owner(s.quads[c]) != me { return recv(s.quads[c], s.edge, i); }
    var l := EdgeLine(e, s.edge, s.quads[c]);
    EdgeInGrid(e, nq, l, i);
    var x := At(e, l, i);
    hide At, EdgeLine, EmfOf;
    value := emf[x.i, x.j, x.k, x.d, x.q];
  }

  method CollectAll(e: Extents, nq: nat, owner: nat -> nat, me: nat, recv: ReceivedEdges, emf: array5<real>, fine: bool, D: Edge, i: nat,
                    keys: array<int>, v0: array<real>, v1: array<real>) returns (cnt: nat)
    requires EmfSized(e, nq, emf) && i < e.nx && |D| <= 4 && forall s | 0 <= s < |D| :: SideReady(nq, fine, D[s])
    requires v0 != v1 && keys.Length == 4 && v0.Length == 4 && v1.Length == 4
    modifies keys, v0, v1
    ensures cnt <= 4 && Entries(keys, v0, v1, cnt) == Collected(e, EmfOf(emf), owner, me, recv, fine, D, i)
    ensures (forall s | 0 <= s < |D| :: D[s].isFine != fine) ==> cnt == 0
  {
    ghost var E := EmfOf(emf);
    cnt := 0;
    hide EntryOf, SideValue, EmfOf, SideReady;
    for n := 0 to |D|
      invariant cnt <= n && Entries(keys, v0, v1, cnt) == Collected(e, E, owner, me, recv, fine, D[..n], i)
      invariant (forall s | 0 <= s < n :: D[s].isFine != fine) ==> cnt == 0
      invariant EmfOf(emf) == E
    {
      CollectedStep(e, E, owner, me, recv, fine, D, i, n);
      if D[n].isFine == fine {
        cnt := CollectSide(e, nq, owner, me, recv, emf, fine, D[n], i, keys, v0, v1, cnt);
      }
    }
    assert D[..|D|] == D;
  }

  /** c0 and c1 are the values of the smallest side that takes part, zero if there is none. */
  ghost predicate Chosen(e: Extents, E: EmfField, owner: nat -> nat, me: nat, recv: ReceivedEdges, fine: bool, D: Edge, i: nat, c0: real, c1: real) {
    && (forall n | 0 <= n < |D| && Smallest(fine, D, n) ::
          c0 == SideValue(e, E, owner, me, recv, D[n], 0, i) && c1 == SideValue(e, E, owner, me, recv, D[n], 1, i))
    && ((forall s | 0 <= s < |D| :: D[s].isFine != fine) ==> c0 == 0.0 && c1 == 0.0)
  }

  /** The two values for position i of edge D: those of the smallest side that takes part, whatever
      the order of the sides and whichever of them are local; zero if there is none. */
  method ComputeOne(e: Extents, nq: nat, owner: nat -> nat, me: nat, recv: ReceivedEdges, emf: array5<real>, fine: bool, D: Edge, i: nat)
    returns (c0: real, c1: real)
    requires EmfSized(e, nq, emf) && i < e.nx && |D| <= 4 && forall s | 0 <= s < |D| :: SideReady(nq, fine, D[s])
    ensures Chosen(e, EmfOf(emf), owner, me, recv, fine, D, i, c0, c1)
  {
    hide *;
    ghost var E := EmfOf(emf);
    var keys, v0, v1 := new int[4], new real[4], new real[4];
    var cnt := CollectAll(e, nq, owner, me, recv, emf, fine, D, i, keys, v0, v1);
    ghost var before := Entries(keys, v0, v1, cnt);
    InsertionSort(keys, v0, v1, cnt);
    c0, c1 := if cnt > 0 then v0[0] else 0.0, if cnt > 0 then v1[0] else 0.0;
    ghost var after := Entries(keys, v0, v1, cnt);
    forall n | 0 <= n < |D| && Smallest(fine, D, n)
      ensures c0 == SideValue(e, E, owner, me, recv, D[n], 0, i) && c1 == SideValue(e, E, owner, me, recv, D[n], 1, i)
    {
      FirstEntry(e, E, owner, me, recv, fine, D, i, n, before, after);
    }
    ChosenFrom(e, E, owner, me, recv, fine, D, i, c0, c1);
  }

  lemma ChosenFrom(e: Extents, E: EmfField, owner: nat -> nat, me: nat, recv: ReceivedEdges, fine: bool, D: Edge, i: nat, c0: real, c1: real)
    requires forall n | 0 <= n < |D| && Smallest(fine, D, n) ::
               c0 == SideValue(e, E, owner, me, recv, D[n], 0, i) && c1 == SideValue(e, E, owner, me, recv, D[n], 1, i)
    requires (forall s | 0 <= s < |D| :: D[s].isFine != fine) ==> c0 == 0.0 && c1 == 0.0
    ensures Chosen(e, E, owner, me, recv, fine, D, i, c0, c1)
  {
  }

  lemma FirstEntry(e: Extents, E: EmfField, owner: nat -> nat, me: nat, recv: ReceivedEdges, fine: bool, D: Edge, i: nat, n: nat,
                   before: seq<Entry>, after: seq<Entry>)
    requires n < |D| && Smallest(fine, D, n) && before == Collected(e, E, owner, me, recv, fine, D, i)
    requires multiset(before) == multiset(after) && Sorted(after)
    ensures after != [] && after[0].v0 == SideValue(e, E, owner, me, recv, D[n], 0, i) && after[0].v1 == SideValue(e, E, owner, me, recv, D[n], 1, i)
  {
    var k := CollectedSmallest(e, E, owner, me, recv, fine, D, i, n);
    hide Collected, Sorted, Smallest;
    FirstIsSmallest(before, after, k);
  }

  method CollectSide(e: Extents, nq: nat, owner: nat -> nat, me: nat, recv: ReceivedEdges, emf: array5<real>, fine: bool, s: GlobalSide, i: nat,
                     keys: array<int>, v0: array<real>, v1: array<real>, cnt: nat) returns (cnt': nat)
    requires EmfSized(e, nq, emf) && i < e.nx && SideReady(nq, fine, s) && v0 != v1
    requires keys.Length == 4 && v0.Length == 4 && v1.Length == 4 && cnt < 4
    modifies keys, v0, v1
    ensures cnt' == cnt + 1
    ensures Entries(keys, v0, v1, cnt') == old(Entries(keys, v0, v1, cnt)) + [EntryOf(e, EmfOf(emf), owner, me, recv, s, i)]
  {
    keys[cnt] := s.edge;
    var a := ReadSide(e, nq, owner, me, recv, emf, s, 0, i);
    var b := ReadSide(e, nq, owner, me, recv, emf, s, 1, i);
    hide SideValue, EmfOf;
    v0[cnt], v1[cnt] := a, b;
    cnt' := cnt + 1;
  }

  /** Loop index of the edge kernels: position i of edge iq. */
  datatype EdgeItem = EdgeItem(i: nat, iq: nat)

  ghost predicate EdgeRange(e: Extents, count: nat, x: EdgeItem) { x.i < e.nx && x.iq < count }

  /** Corrections by position, child and edge. */
  type Corrections = (int, int, int) -> real

  ghost function CorrOf(corr: array3<real>): (f: Corrections)
    reads corr
    ensures forall i, c, q | 0 <= i < corr.Length0 && 0 <= c < corr.Length1 && 0 <= q < corr.Length2 :: f(i, c, q) == corr[i, c, q]
  {
    var m := imap x: (int, int, int) | 0 <= x.0 < corr.Length0 && 0 <= x.1 < corr.Length1 && 0 <= x.2 < corr.Length2 :: corr[x.0, x.1, x.2];
    (i, c, q) => if (i, c, q) in m then m[(i, c, q)] else 0.0
  }

  method StoreCorrection(e: Extents, count: nat, corr: array3<real>, x: EdgeItem, c0: real, c1: real)
    requires corr.Length0 == e.nx && corr.Length1 == 2 && corr.Length2 == count && EdgeRange(e, count, x)
    modifies corr
    ensures CorrOf(corr)(x.i, 0, x.iq) == c0 && CorrOf(corr)(x.i, 1, x.iq) == c1
    ensures forall y | EdgeRange(e, count, y) && y != x ::
              CorrOf(corr)(y.i, 0, y.iq) == old(CorrOf(corr))(y.i, 0, y.iq) && CorrOf(corr)(y.i, 1, y.iq) == old(CorrOf(corr))(y.i, 1, y.iq)
  {
    corr[x.i, 0, x.iq], corr[x.i, 1, x.iq] := c0, c1;
  }

  /** First phase: the corrections of all edges, in an arbitrary order. */
  method ComputeCorrections(e: Extents, nq: nat, owner: nat -> nat, me: nat, recv: ReceivedEdges, emf: array5<real>, fine: bool, descs: seq<Edge>,
                            corr: array3<real>, order: seq<EdgeItem>)
    requires EmfSized(e, nq, emf) && EdgesReady(e, nq, fine, descs)
    requires corr.Length0 == e.nx && corr.Length1 == 2 && corr.Length2 == |descs|
    requires Schedule(order, (x: EdgeItem) => EdgeRange(e, |descs|, x))
    modifies corr
    ensures forall i, iq | 0 <= i < e.nx && 0 <= iq < |descs| ::
              Chosen(e, EmfOf(emf), owner, me, recv, fine, descs[iq], i, CorrOf(corr)(i, 0, iq), CorrOf(corr)(i, 1, iq))
  {
    ghost var E, P := EmfOf(emf), (x: EdgeItem) => EdgeRange(e, |descs|, x);
    hide Chosen, EmfOf, SideReady, CorrOf, EmfSized;
    for n := 0 to |order|
      invariant EmfOf(emf) == E
      invariant forall x | x in order[..n] :: EdgeRange(e, |descs|, x)
                  && Chosen(e, E, owner, me, recv, fine, descs[x.iq], x.i, CorrOf(corr)(x.i, 0, x.iq), CorrOf(corr)(x.i, 1, x.iq))
    {
      var x := order[n];
      ScheduleStep(order, P, n);
      var c0, c1 := ComputeOne(e, nq, owner, me, recv, emf, fine, descs[x.iq], x.i);
      StoreCorrection(e, |descs|, corr, x, c0, c1);
    }
    assert order[..|order|] == order;
    forall i, iq | 0 <= i < e.nx && 0 <= iq < |descs|
      ensures Chosen(e, E, owner, me, recv, fine, descs[iq], i, CorrOf(corr)(i, 0, iq), CorrOf(corr)(i, 1, iq))
    {
      assert P(EdgeItem(i, iq));
    }
  }

  /** One write of the second phase: position i of child c of side s of edge iq. */
  datatype Mend = Mend(i: nat, iq: nat, s: nat, c: nat)

  ghost predicate MendRange(e: Extents, owner: nat -> nat, me: nat, descs: seq<Edge>, z: Mend) {
    && z.i < e.nx && z.iq < |descs| && z.s < |descs[z.iq]| && z.c < |descs[z.iq][z.s].quads|
    && owner(descs[z.iq][z.s].quads[z.c]) == me
  }

  /** The line of child c of side s. */
  function MendLine(e: Extents, fine: bool, s: GlobalSide, c: nat): Line
    requires c < |s.quads|
  {
    if s.isFine == fine then EdgeLine(e, s.edge, s.quads[c]) else CoarseLine(e, s, s.quads[c])
  }

  /** What is written: the correction itself, or on a coarse side among fine ones the mean of two. */
  ghost function MendValue(e: Extents, C: Corrections, takesPart: bool, i: int, c: int, iq: int): real
    requires e.nx > 0
  {
    if takesPart then C(i, c, iq)
    else 0.5 * (C(2 * i % e.nx, Half(e, i), iq) + C(2 * i % e.nx + 1, Half(e, i), iq))
  }

  function Half(e: Extents, i: int): int { if 2 * i >= e.nx then 1 else 0 }

  function MendAt(e: Extents, fine: bool, descs: seq<Edge>, z: Mend): EmfIx
    requires z.iq < |descs| && z.s < |descs[z.iq]| && z.c < |descs[z.iq][z.s].quads|
  {
    At(e, MendLine(e, fine, descs[z.iq][z.s], z.c), z.i)
  }

  /** No two sides of any edges share a line. */
  ghost predicate LinesApart(e: Extents, fine: bool, descs: seq<Edge>) {
    forall p, s, c, q, t, d | 0 <= p < |descs| && 0 <= s < |descs[p]| && 0 <= c < |descs[p][s].quads|
                           && 0 <= q < |descs| && 0 <= t < |descs[q]| && 0 <= d < |descs[q][t].quads|
                           && MendLine(e, fine, descs[p][s], c) == MendLine(e, fine, descs[q][t], d) :: p == q && s == t && c == d
  }

  ghost predicate MendWritten(e: Extents, fine: bool, owner: nat -> nat, me: nat, descs: seq<Edge>, done: set<Mend>, x: EmfIx) {
    exists z | z in done && MendRange(e, owner, me, descs, z) :: x == MendAt(e, fine, descs, z)
  }

  /** What a set of writes of the second phase did to the field. */
  ghost predicate Mended(e: Extents, nq: nat, fine: bool, owner: nat -> nat, me: nat, C: Corrections, descs: seq<Edge>, E0: EmfField, E: EmfField, done: set<Mend>)
    requires e.nx > 0
  {
    && (forall z | z in done :: MendRange(e, owner, me, descs, z)
          && E(MendAt(e, fine, descs, z)) == MendValue(e, C, descs[z.iq][z.s].isFine == fine, z.i, z.c, z.iq))
    && forall x | InGrid(e, nq, x) && !MendWritten(e, fine, owner, me, descs, done, x) :: E(x) == E0(x)
  }

  lemma MendUnique(e: Extents, nq: nat, fine: bool, owner: nat -> nat, me: nat, descs: seq<Edge>, z: Mend, y: Mend)
    requires EdgesReady(e, nq, fine, descs) && LinesApart(e, fine, descs)
    requires MendRange(e, owner, me, descs, z) && MendRange(e, owner, me, descs, y) && MendAt(e, fine, descs, z) == MendAt(e, fine, descs, y)
    ensures z == y
  {
    var a, b := MendLine(e, fine, descs[z.iq][z.s], z.c), MendLine(e, fine, descs[y.iq][y.s], y.c);
    assert SideReady(nq, fine, descs[z.iq][z.s]) && SideReady(nq, fine, descs[y.iq][y.s]);
    AtInjective(e, a, z.i, b, y.i);
  }

  lemma MendInGrid(e: Extents, nq: nat, fine: bool, owner: nat -> nat, me: nat, descs: seq<Edge>, z: Mend)
    requires EdgesReady(e, nq, fine, descs) && MendRange(e, owner, me, descs, z)
    ensures InGrid(e, nq, MendAt(e, fine, descs, z))
  {
    assert SideReady(nq, fine, descs[z.iq][z.s]);
    EdgeInGrid(e, nq, MendLine(e, fine, descs[z.iq][z.s], z.c), z.i);
  }

  lemma MendStep(e: Extents, nq: nat, fine: bool, owner: nat -> nat, me: nat, C: Corrections, descs: seq<Edge>,
                 E0: EmfField, E: EmfField, E': EmfField, done: set<Mend>, z: Mend)
    requires e.nx > 0 && EdgesReady(e, nq, fine, descs) && LinesApart(e, fine, descs) && Mended(e, nq, fine, owner, me, C, descs, E0, E, done)
    requires MendRange(e, owner, me, descs, z) && z !in done
    requires E'(MendAt(e, fine, descs, z)) == MendValue(e, C, descs[z.iq][z.s].isFine == fine, z.i, z.c, z.iq)
    requires forall x | InGrid(e, nq, x) && x != MendAt(e, fine, descs, z) :: E'(x) == E(x)
    ensures Mended(e, nq, fine, owner, me, C, descs, E0, E', done + {z})
  {
    hide MendValue, MendAt, InGrid, EdgesReady, LinesApart;
    forall y | y in done ensures E'(MendAt(e, fine, descs, y)) == E(MendAt(e, fine, descs, y)) {
      MendInGrid(e, nq, fine, owner, me, descs, y);
      if MendAt(e, fine, descs, y) == MendAt(e, fine, descs, z) { MendUnique(e, nq, fine, owner, me, descs, y, z); }
    }
    forall x | InGrid(e, nq, x) && !MendWritten(e, fine, owner, me, descs, done + {z}, x) ensures E'(x) == E0(x) {
      assert z in done + {z};
    }
  }

  /** Write one side's child at position i, if it is local. */
  method MendOne(e: Extents, nq: nat, fine: bool, owner: nat -> nat, me: nat, emf: array5<real>, descs: seq<Edge>, corr: array3<real>, z: Mend,
                 ghost E0: EmfField, ghost done: set<Mend>)
    requires e.Valid() && EmfSized(e, nq, emf) && EdgesReady(e, nq, fine, descs) && LinesApart(e, fine, descs)
    requires corr.Length0 == e.nx && corr.Length1 == 2 && corr.Length2 == |descs|
    requires MendRange(e, owner, me, descs, z) && z !in done && Mended(e, nq, fine, owner, me, CorrOf(corr), descs, E0, EmfOf(emf), done)
    modifies emf
    ensures Mended(e, nq, fine, owner, me, CorrOf(corr), descs, E0, EmfOf(emf), done + {z})
  {
    var s := descs[z.iq][z.s];
    assert SideReady(nq, fine, s);
    MendInGrid(e, nq, fine, owner, me, descs, z);
    FineBase(e, z.i);
    ghost var E, C := EmfOf(emf), CorrOf(corr);
    var x := MendAt(e, fine, descs, z);
    hide Mended, EmfOf, CorrOf, MendAt, EdgesReady, LinesApart;
    var value := if s.isFine == fine then corr[z.i, z.c, z.iq]
      else 0.5 * (corr[2 * z.i % e.nx, Half(e, z.i), z.iq] + corr[2 * z.i % e.nx + 1, Half(e, z.i), z.iq]);
    emf[x.i, x.j, x.k, x.d, x.q] := value;
    MendStep(e, nq, fine, owner, me, C, descs, E0, E, EmfOf(emf), done, z);
  }

  /** Second phase: write the corrections to all local lines, in an arbitrary order. */
  method ApplyCorrections(e: Extents, nq: nat, fine: bool, owner: nat -> nat, me: nat, emf: array5<real>, descs: seq<Edge>, corr: array3<real>, order: seq<EdgeItem>)
    returns (ghost done: set<Mend>)
    requires e.Valid() && EmfSized(e, nq, emf) && EdgesReady(e, nq, fine, descs) && LinesApart(e, fine, descs)
    requires corr.Length0 == e.nx && corr.Length1 == 2 && corr.Length2 == |descs|
    requires Schedule(order, (x: EdgeItem) => EdgeRange(e, |descs|, x))
    modifies emf
    ensures Mended(e, nq, fine, owner, me, CorrOf(corr), descs, old(EmfOf(emf)), EmfOf(emf), done)
    ensures forall z :: z in done <==> MendRange(e, owner, me, descs, z)
  {
    ghost var E0, C, P := EmfOf(emf), CorrOf(corr), (x: EdgeItem) => EdgeRange(e, |descs|, x);
    done := {};
    assert Mended(e, nq, fine, owner, me, C, descs, E0, E0, {});
    hide Mended, EmfOf, CorrOf, EdgesReady, LinesApart, MendRange;
    for n := 0 to |order|
      invariant Mended(e, nq, fine, owner, me, C, descs, E0, EmfOf(emf), done)
      invariant forall z :: z in done <==> MendRange(e, owner, me, descs, z) && EdgeItem(z.i, z.iq) in order[..n]
      invariant CorrOf(corr) == C
    {
      var x := order[n];
      ScheduleStep(order, P, n);
      done := MendItem(e, nq, fine, owner, me, emf, descs, corr, x, E0, done);
    }
    assert order[..|order|] == order;
    forall z ensures z in done <==> MendRange(e, owner, me, descs, z) {
      MendItemRange(e, owner, me, descs, z);
      assert MendRange(e, owner, me, descs, z) ==> P(EdgeItem(z.i, z.iq));
    }
  }

  lemma MendItemRange(e: Extents, owner: nat -> nat, me: nat, descs: seq<Edge>, z: Mend)
    ensures MendRange(e, owner, me, descs, z) ==> EdgeRange(e, |descs|, EdgeItem(z.i, z.iq))
  {
  }

  /** The kernel body: all sides and children of one loop index. */
  method MendItem(e: Extents, nq: nat, fine: bool, owner: nat -> nat, me: nat, emf: array5<real>, descs: seq<Edge>, corr: array3<real>, x: EdgeItem,
                  ghost E0: EmfField, ghost done: set<Mend>) returns (ghost done': set<Mend>)
    requires e.Valid() && EmfSized(e, nq, emf) && EdgesReady(e, nq, fine, descs) && LinesApart(e, fine, descs)
    requires corr.Length0 == e.nx && corr.Length1 == 2 && corr.Length2 == |descs| && EdgeRange(e, |descs|, x)
    requires Mended(e, nq, fine, owner, me, CorrOf(corr), descs, E0, EmfOf(emf), done)
    requires forall z | z in done :: EdgeItem(z.i, z.iq) != x
    modifies emf
    ensures Mended(e, nq, fine, owner, me, CorrOf(corr), descs, E0, EmfOf(emf), done')
    ensures forall z :: z in done' <==> z in done || (EdgeItem(z.i, z.iq) == x && MendRange(e, owner, me, descs, z))
  {
    hide Mended, EmfOf, CorrOf, EdgesReady, LinesApart;
    ghost var C := CorrOf(corr);
    done' := done;
    for s := 0 to |descs[x.iq]|
      invariant Mended(e, nq, fine, owner, me, C, descs, E0, EmfOf(emf), done') && CorrOf(corr) == C
      invariant forall z :: z in done' <==> z in done || (EdgeItem(z.i, z.iq) == x && MendRange(e, owner, me, descs, z) && z.s < s)
    {
      for c := 0 to |descs[x.iq][s].quads|
        invariant Mended(e, nq, fine, owner, me, C, descs, E0, EmfOf(emf), done') && CorrOf(corr) == C
        invariant forall z :: z in done' <==> z in done || (EdgeItem(z.i, z.iq) == x && MendRange(e, owner, me, descs, z) && (z.s < s || (z.s == s && z.c < c)))
      {
        if owner(descs[x.iq][s].quads[c]) == me {
          MendOne(e, nq, fine, owner, me, emf, descs, corr, Mend(x.i, x.iq, s, c), E0, done');
          done' := done' + {Mend(x.i, x.iq, s, c)};
        }
      }
    }
  }
}
