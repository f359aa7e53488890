/** Packing of the fine face fluxes into the flat send buffer. */
module FluxBuffers {
  import opened Sums
  import opened Arithmetic
  import opened Grid
  import opened RefluxKeys
  import opened Conservation
  import opened CompositeGrid

  /** Position of element (i, j) of variable v in slot bid of the message starting at
      offset; n x n elements per variable, nvars variables per slot. */
  function BufIx(n: nat, nvars: nat, offset: nat, i: nat, j: nat, v: nat, bid: nat): nat {
    offset + (i + n * j + n * n * v + n * n * nvars * bid)
  }

  /** The strides count in mixed radix. */
  lemma BufIxNested(n: nat, nvars: nat, offset: nat, i: nat, j: nat, v: nat, bid: nat)
    ensures BufIx(n, nvars, offset, i, j, v, bid) == offset + Mixed(n, i, Mixed(n, j, Mixed(nvars, v, bid)))
  {
    assert n * (v + nvars * bid) == n * v + n * nvars * bid by {
      assert n * nvars * bid == n * (nvars * bid);
    }
    assert n * (n * (v + nvars * bid)) == n * n * v + n * n * nvars * bid by {
      var x := n * nvars * bid;
      assert n * (n * v + x) == n * (n * v) + n * x;
      assert n * (n * v) == n * n * v;
      assert n * x == n * n * nvars * bid by {
        assert n * (n * nvars * bid) == (n * (n * nvars)) * bid;
        assert n * (n * nvars) == n * n * nvars;
      }
    }
  }

  lemma SlotVolume(n: nat, nvars: nat, count: nat)
    ensures n * (n * (nvars * count)) == MessageSize(count, n * n * nvars)
  {
    assert n * (n * (nvars * count)) == (n * n) * (nvars * count);
    assert (n * n) * (nvars * count) == (n * n * nvars) * count;
  }

  /** Slot bid < count lies inside the message. */
  lemma BufIxBound(n: nat, nvars: nat, offset: nat, i: nat, j: nat, v: nat, bid: nat, count: nat)
    requires i < n && j < n && v < nvars && bid < count
    ensures offset <= BufIx(n, nvars, offset, i, j, v, bid) < offset + MessageSize(count, n * n * nvars)
  {
    BufIxNested(n, nvars, offset, i, j, v, bid);
    SlotVolume(n, nvars, count);
    hide BufIx, Mixed, MessageSize;
    MixedBound(nvars, v, bid, count);
    MixedBound(n, j, Mixed(nvars, v, bid), nvars * count);
    MixedBound(n, i, Mixed(n, j, Mixed(nvars, v, bid)), n * (nvars * count));
  }

  /** Different elements of a message have different positions. */
  lemma BufIxInjective(n: nat, nvars: nat, offset: nat, i: nat, j: nat, v: nat, bid: nat, i': nat, j': nat, v': nat, bid': nat)
    requires i < n && j < n && v < nvars && i' < n && j' < n && v' < nvars
    requires BufIx(n, nvars, offset, i, j, v, bid) == BufIx(n, nvars, offset, i', j', v', bid')
    ensures i == i' && j == j' && v == v' && bid == bid'
  {
    hide BufIx, Mixed;
    BufIxNested(n, nvars, offset, i, j, v, bid);
    BufIxNested(n, nvars, offset, i', j', v', bid');
    MixedInjective(n, i, Mixed(n, j, Mixed(nvars, v, bid)), i', Mixed(n, j', Mixed(nvars, v', bid')));
    MixedInjective(n, j, Mixed(nvars, v, bid), j', Mixed(nvars, v', bid'));
    MixedInjective(nvars, v, bid, v', bid');
  }

  /** The sums of the packing loops: along k, then j, then i, from the flux at x. */
  ghost function AlongK(F: FluxField, x: FluxIx, a: int, b: int): (g: int -> real)
    ensures forall c :: g(c) == F(FluxIx(x.i + a, x.j + b, x.k + c, x.v, x.d, x.q))
  {
    c => F(FluxIx(x.i + a, x.j + b, x.k + c, x.v, x.d, x.q))
  }

  ghost function AlongJ(F: FluxField, x: FluxIx, a: int, nk: int): (g: int -> real)
    ensures forall b :: g(b) == Sum(AlongK(F, x, a, b), 0, nk)
  {
    b => Sum(AlongK(F, x, a, b), 0, nk)
  }

  ghost function AlongI(F: FluxField, x: FluxIx, nj: int, nk: int): (g: int -> real)
    ensures forall a :: g(a) == Sum(AlongJ(F, x, a, nk), 0, nj)
  {
    a => Sum(AlongJ(F, x, a, nk), 0, nj)
  }

  lemma SumOfOne(f: int -> real)
    ensures Sum(f, 0, 1) == f(0)
  {
    assert Sum(f, 0, 0) == 0.0;
  }

  lemma SumOfTwo(f: int -> real)
    ensures Sum(f, 0, 2) == f(0) + f(1)
  {
    SumOfOne(f);
  }

  /** Two steps in every direction but the normal one cover the 2 x 2 block. */
  lemma LoopsCoverBlock(e: Extents, F: FluxField, r: FaceRef, a: int, b: int, v: int)
    requires r.f < 6
    ensures var d := r.f / 2;
      Sum(AlongI(F, FaceIx(e, r.f, a, b, v, r.q), if d != 1 then 2 else 1, if d != 2 then 2 else 1), 0, if d != 0 then 2 else 1)
      == Block(OnFace(e, F, v, r), a, b)
  {
    var x, d := FaceIx(e, r.f, a, b, v, r.q), r.f / 2;
    var ni, nj, nk := if d != 0 then 2 else 1, if d != 1 then 2 else 1, if d != 2 then 2 else 1;
    hide Sum, FacePlane;
    forall f: int -> real ensures Sum(f, 0, 1) == f(0) { SumOfOne(f); }
    forall f: int -> real ensures Sum(f, 0, 2) == f(0) + f(1) { SumOfTwo(f); }
    var f00, f01, f10, f11 := AlongK(F, x, 0, 0), AlongK(F, x, 0, 1), AlongK(F, x, 1, 0), AlongK(F, x, 1, 1);
    var g0, g1, h := AlongJ(F, x, 0, nk), AlongJ(F, x, 1, nk), AlongI(F, x, nj, nk);
    assert h(0) == g0(0) + if nj == 2 then g0(1) else 0.0;
    assert h(1) == g1(0) + if nj == 2 then g1(1) else 0.0;
  }

  ghost predicate FluxShape(e: Extents, nq: nat, fluxes: array6<real>) {
    && fluxes.Length0 >= e.nx + 1 + 2 * e.ngz && fluxes.Length1 >= e.nx + 1 + 2 * e.ngz && fluxes.Length2 >= e.nx + 1 + 2 * e.ngz
    && fluxes.Length3 >= e.nvars && fluxes.Length4 == 3 && fluxes.Length5 == nq
  }

  /** The sum of the four fluxes of the 2 x 2 block at (a, b) of face r. */
  method SumFace(e: Extents, nq: nat, fluxes: array6<real>, r: FaceRef, a: nat, b: nat, v: nat) returns (flux: real)
    requires FluxShape(e, nq, fluxes) && r.q < nq && r.f < 6 && v < e.nvars && a + 2 <= e.nx && b + 2 <= e.nx
    ensures flux == Block(OnFace(e, Fluxes(fluxes), v, r), a, b)
  {
    hide Sum, Block;
    var x, d := FaceIx(e, r.f, a, b, v, r.q), r.f / 2;
    var ni, nj, nk := if d != 0 then 2 else 1, if d != 1 then 2 else 1, if d != 2 then 2 else 1;
    LoopsCoverBlock(e, Fluxes(fluxes), r, a, b, v);
    ghost var F := Fluxes(fluxes);
    assert 0 <= x.i && x.i + ni <= fluxes.Length0 && 0 <= x.j && x.j + nj <= fluxes.Length1 && 0 <= x.k && x.k + nk <= fluxes.Length2;
    hide FaceIx, FacePlane, OnFace, Fluxes;
    flux := SumOver(e, nq, fluxes, x, ni, nj, nk);
  }

  lemma EmptySum(f: int -> real)
    ensures Sum(f, 0, 0) == 0.0
  {
  }

  lemma SumStep(f: int -> real, n: nat)
    ensures Sum(f, 0, n + 1) == Sum(f, 0, n) + f(n)
  {
  }

  /** The innermost loop of the packing and correction kernels. */
  method AddAlongK(e: Extents, nq: nat, fluxes: array6<real>, x: FluxIx, ii: nat, jj: nat, nk: nat, start: real) returns (flux: real)
    requires FluxShape(e, nq, fluxes) && 0 <= x.q < nq && 0 <= x.v < e.nvars && 0 <= x.d < 3
    requires 0 <= x.i && x.i + ii < fluxes.Length0 && 0 <= x.j && x.j + jj < fluxes.Length1 && 0 <= x.k && x.k + nk <= fluxes.Length2
    ensures flux == start + Sum(AlongK(Fluxes(fluxes), x, ii, jj), 0, nk)
  {
    hide Sum;
    ghost var F := Fluxes(fluxes);
    flux := start;
    EmptySum(AlongK(F, x, ii, jj));
    for kk := 0 to nk
      invariant flux == start + Sum(AlongK(F, x, ii, jj), 0, kk)
    {
      flux := flux + fluxes[x.i + ii, x.j + jj, x.k + kk, x.v, x.d, x.q];
      SumStep(AlongK(F, x, ii, jj), kk);
    }
  }

  /** The triple loop of the packing and correction kernels. */
  method SumOver(e: Extents, nq: nat, fluxes: array6<real>, x: FluxIx, ni: nat, nj: nat, nk: nat) returns (flux: real)
    requires FluxShape(e, nq, fluxes) && 0 <= x.q < nq && 0 <= x.v < e.nvars && 0 <= x.d < 3
    requires 0 <= x.i && x.i + ni <= fluxes.Length0 && 0 <= x.j && x.j + nj <= fluxes.Length1 && 0 <= x.k && x.k + nk <= fluxes.Length2
    ensures flux == Sum(AlongI(Fluxes(fluxes), x, nj, nk), 0, ni)
  {
    hide Sum, Fluxes;
    ghost var F := Fluxes(fluxes);
    flux := 0.0;
    EmptySum(AlongI(F, x, nj, nk));
    for ii := 0 to ni
      invariant flux == Sum(AlongI(F, x, nj, nk), 0, ii)
    {
      ghost var fi := flux;
      EmptySum(AlongJ(F, x, ii, nk));
      for jj := 0 to nj
        invariant flux == fi + Sum(AlongJ(F, x, ii, nk), 0, jj)
      {
        flux := AddAlongK(e, nq, fluxes, x, ii, jj, nk, flux);
        SumStep(AlongJ(F, x, ii, nk), jj);
      }
      SumStep(AlongI(F, x, nj, nk), ii);
    }
  }

  /** Loop index of the packing kernel: element (i, j) of variable v of send descriptor iq. */
  datatype FillItem = FillItem(i: nat, j: nat, v: nat, iq: nat)

  ghost predicate FillRange(e: Extents, snd: seq<SendDesc>, x: FillItem) {
    x.i < e.nx / 2 && x.j < e.nx / 2 && x.v < e.nvars && x.iq < |snd|
  }

  /** The send descriptors address slots inside their messages, and a slot belongs to one face. */
  ghost predicate Addressed(nq: nat, snd: seq<SendDesc>, counts: seq<nat>) {
    && (forall m | 0 <= m < |snd| :: snd[m].rank < |counts| && snd[m].bufId < counts[snd[m].rank] && snd[m].qid < nq && snd[m].elem < 6)
    && forall m, n | 0 <= m < |snd| && 0 <= n < |snd| && snd[m].rank == snd[n].rank && snd[m].bufId == snd[n].bufId ::
         snd[m].qid == snd[n].qid && snd[m].elem == snd[n].elem
  }

  function SlotSize(e: Extents): nat { e.nx / 2 * (e.nx / 2) * e.nvars }

  ghost function FillIx(e: Extents, snd: seq<SendDesc>, counts: seq<nat>, x: FillItem): nat
    requires x.iq < |snd| && snd[x.iq].rank < |counts|
  {
    BufIx(e.nx / 2, e.nvars, Offset(counts, SlotSize(e), snd[x.iq].rank), x.i, x.j, x.v, snd[x.iq].bufId)
  }

  /** What belongs in the buffer for x: the mean of the four fine fluxes on coarse element (i, j). */
  ghost function Packed(e: Extents, F: FluxField, snd: seq<SendDesc>, x: FillItem): real
    requires x.iq < |snd|
  {
    0.25 * Block(OnFace(e, F, x.v, FaceRef(snd[x.iq].qid, snd[x.iq].elem)), 2 * x.i, 2 * x.j)
  }

  lemma FillIxBound(e: Extents, nq: nat, snd: seq<SendDesc>, counts: seq<nat>, x: FillItem)
    requires Addressed(nq, snd, counts) && FillRange(e, snd, x)
    ensures FillIx(e, snd, counts, x) < Offset(counts, SlotSize(e), |counts|)
  {
    hide BufIx, MessageSize;
    var d := snd[x.iq];
    BufIxBound(e.nx / 2, e.nvars, Offset(counts, SlotSize(e), d.rank), x.i, x.j, x.v, d.bufId, counts[d.rank]);
    OffsetMonotone(counts, SlotSize(e), d.rank, |counts|);
  }

  /** Two loop indices that write one position write one value. */
  lemma FillIxDetermines(e: Extents, nq: nat, F: FluxField, snd: seq<SendDesc>, counts: seq<nat>, x: FillItem, y: FillItem)
    requires Addressed(nq, snd, counts) && FillRange(e, snd, x) && FillRange(e, snd, y)
    requires FillIx(e, snd, counts, x) == FillIx(e, snd, counts, y)
    ensures Packed(e, F, snd, x) == Packed(e, F, snd, y)
  {
    hide BufIx, MessageSize, Block;
    var c, d, n := snd[x.iq], snd[y.iq], e.nx / 2;
    BufIxBound(n, e.nvars, Offset(counts, SlotSize(e), c.rank), x.i, x.j, x.v, c.bufId, counts[c.rank]);
    BufIxBound(n, e.nvars, Offset(counts, SlotSize(e), d.rank), y.i, y.j, y.v, d.bufId, counts[d.rank]);
    if c.rank < d.rank {
      OffsetMonotone(counts, SlotSize(e), c.rank, d.rank);
    } else if d.rank < c.rank {
      OffsetMonotone(counts, SlotSize(e), d.rank, c.rank);
    } else {
      BufIxInjective(n, e.nvars, Offset(counts, SlotSize(e), c.rank), x.i, x.j, x.v, c.bufId, y.i, y.j, y.v, d.bufId);
    }
  }

  /** Every element of every send descriptor is in its place. */
  ghost predicate Filled(e: Extents, F: FluxField, snd: seq<SendDesc>, counts: seq<nat>, sbuf: seq<real>) {
    forall x | FillRange(e, snd, x) && snd[x.iq].rank < |counts| && FillIx(e, snd, counts, x) < |sbuf| ::
      sbuf[FillIx(e, snd, counts, x)] == Packed(e, F, snd, x)
  }

  method FillFluxBuffers(e: Extents, nq: nat, fluxes: array6<real>, snd: seq<SendDesc>, ghost counts: seq<nat>, offsets: seq<nat>,
                         sbuf: array<real>, order: seq<FillItem>)
    requires e.Valid() && FluxShape(e, nq, fluxes) && Addressed(nq, snd, counts)
    requires |offsets| == |counts| && forall r | 0 <= r < |counts| :: offsets[r] == Offset(counts, SlotSize(e), r)
    requires sbuf.Length == Offset(counts, SlotSize(e), |counts|)
    requires Schedule(order, (x: FillItem) => FillRange(e, snd, x))
    modifies sbuf
    ensures Filled(e, Fluxes(fluxes), snd, counts, sbuf[..])
  {
    ghost var F, P := Fluxes(fluxes), (x: FillItem) => FillRange(e, snd, x);
    hide Packed, FillIx, Fluxes, SlotSize, Offset;
    for n := 0 to |order|
      invariant forall x | x in order[..n] :: FillRange(e, snd, x) && FillIx(e, snd, counts, x) < sbuf.Length
                  && sbuf[FillIx(e, snd, counts, x)] == Packed(e, F, snd, x)
    {
      var x := order[n];
      ScheduleStep(order, P, n);
      FillIxBound(e, nq, snd, counts, x);
      var at, flux := FillOne(e, nq, fluxes, snd, counts, offsets, x);
      forall y | y in order[..n] && FillIx(e, snd, counts, y) == at ensures Packed(e, F, snd, y) == flux {
        FillIxDetermines(e, nq, F, snd, counts, x, y);
      }
      sbuf[at] := flux;
    }
    forall x | FillRange(e, snd, x) ensures x in order[..|order|] {
      assert order[..|order|] == order && P(x);
    }
  }

  /** The kernel body: where element x goes and what is written there. */
  method FillOne(e: Extents, nq: nat, fluxes: array6<real>, snd: seq<SendDesc>, ghost counts: seq<nat>, offsets: seq<nat>, x: FillItem)
    returns (at: nat, flux: real)
    requires e.Valid() && FluxShape(e, nq, fluxes) && Addressed(nq, snd, counts) && FillRange(e, snd, x)
    requires |offsets| == |counts| && forall r | 0 <= r < |counts| :: offsets[r] == Offset(counts, SlotSize(e), r)
    ensures at == FillIx(e, snd, counts, x) && flux == Packed(e, Fluxes(fluxes), snd, x)
  {
    hide Block, OnFace, Fluxes, BufIx, Offset, SlotSize;
    var d := snd[x.iq];
    flux := SumFace(e, nq, fluxes, FaceRef(d.qid, d.elem), 2 * x.i, 2 * x.j, x.v);
    flux := 0.25 * flux;
    at := BufIx(e.nx / 2, e.nvars, offsets[d.rank], x.i, x.j, x.v, d.bufId);
  }
}
