/** The finite-volume update: sources and flux divergence added in place. */
module FluxUpdate {
  import opened Sums
  import opened Grid

  /** Loop index of the update kernel: one cell of one quadrant. */
  datatype CellItem = CellItem(i: int, j: int, k: int, q: int)

  ghost function Interior(e: Extents, nq: nat): CellItem -> bool {
    (x: CellItem) =>
      && e.ngz <= x.i < e.ngz + e.nx && e.ngz <= x.j < e.ngz + e.nx && e.ngz <= x.k < e.ngz + e.nx
      && 0 <= x.q < nq
  }

  /** The net flux into cell x along axis d: lower face minus upper face. */
  ghost function Net(F: FluxField, d: int, x: CellIx): real {
    F(FluxIx(x.i, x.j, x.k, x.v, d, x.q))
    - F(FluxIx(if d == 0 then x.i + 1 else x.i, if d == 1 then x.j + 1 else x.j, if d == 2 then x.k + 1 else x.k, x.v, d, x.q))
  }

  /** The flux divergence in cell x with inverse spacings idx(d, q). */
  ghost function Divergence(F: FluxField, idx: Spacing, x: CellIx): real {
    (Net(F, 0, x) * idx(0, x.q) + Net(F, 1, x) * idx(1, x.q)) + Net(F, 2, x) * idx(2, x.q)
  }

  /** U1 is U0 after one substep: every interior cell gains its source and c times its flux divergence. */
  ghost predicate Updated(e: Extents, nq: nat, U0: CellField, U1: CellField, S: CellField, F: FluxField, idx: Spacing, c: real) {
    forall x: CellIx | Interior(e, nq)(CellItem(x.i, x.j, x.k, x.q)) && 0 <= x.v < e.nvars ::
      U1(x) == U0(x) + S(x) + c * Divergence(F, idx, x)
  }

  /** D(x) is what a substep of weight c adds to cell x. */
  ghost predicate IsIncrement(D: CellField, S: CellField, F: FluxField, idx: Spacing, c: real) {
    forall x {:trigger Divergence(F, idx, x)} :: D(x) == S(x) + c * Divergence(F, idx, x)
  }

  lemma IncrementExists(S: CellField, F: FluxField, idx: Spacing, c: real) returns (D: CellField)
    ensures IsIncrement(D, S, F, idx, c)
  {
    D := x => S(x) + c * Divergence(F, idx, x);
  }

  lemma UpdatedBy(e: Extents, nq: nat, U0: CellField, U1: CellField, D: CellField, S: CellField, F: FluxField, idx: Spacing, c: real)
    requires IsIncrement(D, S, F, idx, c)
    requires forall x: CellIx | Interior(e, nq)(CellOf(x)) && 0 <= x.v < e.nvars :: U1(x) == U0(x) + D(x)
    ensures Updated(e, nq, U0, U1, S, F, idx, c)
  {
  }

  ghost predicate Shapes(e: Extents, nq: nat, state: array5<real>, fluxes: array6<real>, sources: array5<real>, idx: array2<real>) {
    && state.Length0 >= e.nx + 2 * e.ngz && state.Length1 >= e.nx + 2 * e.ngz && state.Length2 >= e.nx + 2 * e.ngz
    && state.Length3 >= e.nvars && state.Length4 == nq
    && sources.Length0 == state.Length0 && sources.Length1 == state.Length1 && sources.Length2 == state.Length2
    && sources.Length3 == state.Length3 && sources.Length4 == nq
    && fluxes.Length0 >= e.nx + 1 + 2 * e.ngz && fluxes.Length1 >= e.nx + 1 + 2 * e.ngz && fluxes.Length2 >= e.nx + 1 + 2 * e.ngz
    && fluxes.Length3 >= e.nvars && fluxes.Length4 == 3 && fluxes.Length5 == nq
    && idx.Length0 == 3 && idx.Length1 == nq
  }

  function CellOf(x: CellIx): CellItem { CellItem(x.i, x.j, x.k, x.q) }

  /** The weighted flux divergence of one variable in one cell. */
  method CellGain(e: Extents, nq: nat, fluxes: array6<real>, idx: array2<real>, dt: real, dtfact: real,
                  c: CellItem, v: nat, ghost s: real, ghost D: CellField, ghost S: CellField) returns (gain: real)
    requires fluxes.Length0 >= e.nx + 1 + 2 * e.ngz && fluxes.Length1 >= e.nx + 1 + 2 * e.ngz && fluxes.Length2 >= e.nx + 1 + 2 * e.ngz
    requires fluxes.Length3 >= e.nvars && fluxes.Length4 == 3 && fluxes.Length5 == nq && idx.Length0 == 3 && idx.Length1 == nq
    requires Interior(e, nq)(c) && v < e.nvars
    requires s == S(CellIx(c.i, c.j, c.k, v, c.q)) && IsIncrement(D, S, Fluxes(fluxes), Table(idx), dt * dtfact)
    ensures s + gain == D(CellIx(c.i, c.j, c.k, v, c.q))
  {
    hide Cells, Fluxes, Table;
    var dFx := (fluxes[c.i, c.j, c.k, v, 0, c.q] - fluxes[c.i + 1, c.j, c.k, v, 0, c.q]) * idx[0, c.q];
    var dFy := (fluxes[c.i, c.j, c.k, v, 1, c.q] - fluxes[c.i, c.j + 1, c.k, v, 1, c.q]) * idx[1, c.q];
    var dFz := (fluxes[c.i, c.j, c.k, v, 2, c.q] - fluxes[c.i, c.j, c.k + 1, v, 2, c.q]) * idx[2, c.q];
    var div := (dFx + dFy) + dFz;
    ghost var x := CellIx(c.i, c.j, c.k, v, c.q);
    assert dFx == Net(Fluxes(fluxes), 0, x) * idx[0, c.q];
    assert dFy == Net(Fluxes(fluxes), 1, x) * idx[1, c.q];
    assert dFz == Net(Fluxes(fluxes), 2, x) * idx[2, c.q];
    assert div == Divergence(Fluxes(fluxes), Table(idx), CellIx(c.i, c.j, c.k, v, c.q));
    gain := dt * dtfact * div;
  }

  /** The kernel body for one variable of one cell. */
  method UpdateVariable(e: Extents, nq: nat, state: array5<real>, fluxes: array6<real>, sources: array5<real>,
                        idx: array2<real>, dt: real, dtfact: real, c: CellItem, v: nat, ghost D: CellField)
    requires Shapes(e, nq, state, fluxes, sources, idx) && sources != state && Interior(e, nq)(c) && v < e.nvars
    requires IsIncrement(D, Cells(sources), Fluxes(fluxes), Table(idx), dt * dtfact)
    modifies state
    ensures forall x: CellIx | InCells(state, x) :: Cells(state)(x) == old(Cells(state))(x)
              + if x == CellIx(c.i, c.j, c.k, v, c.q) then D(x) else 0.0
  {
    hide Divergence, Net, IsIncrement, Cells, Fluxes, Table;
    ghost var s := sources[c.i, c.j, c.k, v, c.q];
    var gain := CellGain(e, nq, fluxes, idx, dt, dtfact, c, v, s, D, Cells(sources));
    state[c.i, c.j, c.k, v, c.q] := state[c.i, c.j, c.k, v, c.q] + sources[c.i, c.j, c.k, v, c.q];
    state[c.i, c.j, c.k, v, c.q] := state[c.i, c.j, c.k, v, c.q] + gain;
  }

  /** The kernel body: all variables of one cell. */
  method UpdateCell(e: Extents, nq: nat, state: array5<real>, fluxes: array6<real>, sources: array5<real>,
                    idx: array2<real>, dt: real, dtfact: real, c: CellItem, ghost D: CellField)
    requires Shapes(e, nq, state, fluxes, sources, idx) && sources != state && Interior(e, nq)(c)
    requires IsIncrement(D, Cells(sources), Fluxes(fluxes), Table(idx), dt * dtfact)
    modifies state
    ensures forall x: CellIx | InCells(state, x) :: Cells(state)(x) == old(Cells(state))(x)
              + if CellOf(x) == c && x.v < e.nvars then D(x) else 0.0
  {
    hide Divergence, Net, IsIncrement, Cells, Fluxes, Table;
    for v := 0 to e.nvars
      invariant forall x: CellIx | InCells(state, x) :: Cells(state)(x) == old(Cells(state))(x)
                  + if CellOf(x) == c && x.v < v then D(x) else 0.0
    {
      UpdateVariable(e, nq, state, fluxes, sources, idx, dt, dtfact, c, v, D);
    }
  }

  /** One full substep over all quadrants; cells are visited in an arbitrary order. */
  method AddFluxesAndSources(e: Extents, nq: nat, state: array5<real>, fluxes: array6<real>, sources: array5<real>,
                             idx: array2<real>, dt: real, dtfact: real, order: seq<CellItem>)
    requires Shapes(e, nq, state, fluxes, sources, idx) && sources != state
    requires Schedule(order, Interior(e, nq))
    modifies state
    ensures Updated(e, nq, old(Cells(state)), Cells(state), Cells(sources), Fluxes(fluxes), Table(idx), dt * dtfact)
    ensures forall x: CellIx | InCells(state, x) && !(Interior(e, nq)(CellOf(x)) && x.v < e.nvars) ::
              Cells(state)(x) == old(Cells(state))(x)
  {
    hide Divergence, Net, IsIncrement, Updated, Cells, Fluxes, Table;
    ghost var U, S, F, I, c := Cells(state), Cells(sources), Fluxes(fluxes), Table(idx), dt * dtfact;
    ghost var D := IncrementExists(S, F, I, c);
    for n := 0 to |order|
      invariant forall x: CellIx | InCells(state, x) :: Cells(state)(x) == U(x)
                  + if CellOf(x) in order[..n] && x.v < e.nvars then D(x) else 0.0
    {
      ScheduleStep(order, Interior(e, nq), n);
      UpdateCell(e, nq, state, fluxes, sources, idx, dt, dtfact, order[n], D);
    }
    assert order[..|order|] == order;
    UpdatedBy(e, nq, U, Cells(state), D, S, F, I, c);
  }
}
