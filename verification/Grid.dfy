/** The block-structured grid: quadrants of nx^3 cells with ngz ghost layers, the
    index conventions of their cell and face arrays, and the interfaces between them. */
module Grid {

  /** nx cells per axis (even), ngz ghost layers, nvars conserved variables. */
  datatype Extents = Extents(nx: nat, ngz: nat, nvars: nat) {
    ghost predicate Valid() { nx % 2 == 0 && nx > 0 }
  }

  /** Cell (i, j, k) of variable v in quadrant q. */
  datatype CellIx = CellIx(i: int, j: int, k: int, v: int, q: int)

  /** Lower face of cell (i, j, k) in direction d, variable v, quadrant q. */
  datatype FluxIx = FluxIx(i: int, j: int, k: int, v: int, d: int, q: int)

  type CellField = CellIx -> real
  type FluxField = FluxIx -> real

  /** A number per direction and quadrant: cell widths dx(d, q) or their inverses. */
  type Spacing = (int, int) -> real

  ghost predicate InCells(a: array5<real>, x: CellIx) {
    && 0 <= x.i < a.Length0 && 0 <= x.j < a.Length1 && 0 <= x.k < a.Length2
    && 0 <= x.v < a.Length3 && 0 <= x.q < a.Length4
  }

  ghost predicate InFluxes(a: array6<real>, x: FluxIx) {
    && 0 <= x.i < a.Length0 && 0 <= x.j < a.Length1 && 0 <= x.k < a.Length2
    && 0 <= x.v < a.Length3 && 0 <= x.d < a.Length4 && 0 <= x.q < a.Length5
  }

  /** The contents of a cell array as a value. */
  ghost function Cells(a: array5<real>): (f: CellField)
    reads a
    ensures forall x | InCells(a, x) :: f(x) == a[x.i, x.j, x.k, x.v, x.q]
  {
    var m := imap x: CellIx | InCells(a, x) :: a[x.i, x.j, x.k, x.v, x.q];
    x => if x in m then m[x] else 0.0
  }

  /** The contents of a face-flux array as a value. */
  ghost function Fluxes(a: array6<real>): (f: FluxField)
    reads a
    ensures forall x | InFluxes(a, x) :: f(x) == a[x.i, x.j, x.k, x.v, x.d, x.q]
  {
    var m := imap x: FluxIx | InFluxes(a, x) :: a[x.i, x.j, x.k, x.v, x.d, x.q];
    x => if x in m then m[x] else 0.0
  }

  /** The contents of a table of per-direction, per-quadrant numbers. */
  ghost function Table(a: array2<real>): (f: Spacing)
    reads a
    ensures forall d, q | 0 <= d < a.Length0 && 0 <= q < a.Length1 :: f(d, q) == a[d, q]
  {
    var m := imap x: (int, int) | 0 <= x.0 < a.Length0 && 0 <= x.1 < a.Length1 :: a[x.0, x.1];
    (d, q) => if (d, q) in m then m[(d, q)] else 0.0
  }

  /** A parallel_for over the index set P is a loop over some duplicate-free
      enumeration of P, in an order nobody controls. */
  ghost predicate Schedule<T(!new)>(order: seq<T>, P: T -> bool) {
    && (forall x :: x in order <==> P(x))
    && forall m, n | 0 <= m < n < |order| :: order[m] != order[n]
  }

  lemma ScheduleStep<T(!new)>(order: seq<T>, P: T -> bool, n: nat)
    requires Schedule(order, P) && n < |order|
    ensures P(order[n]) && order[n] !in order[..n] && order[..n + 1] == order[..n] + [order[n]]
  {
    assert order[n] in order;
  }

  /** The interior cell at offset (a, b, c) from the first interior cell. */
  function CellAt(e: Extents, a: int, b: int, c: int, v: int, q: int): CellIx {
    CellIx(e.ngz + a, e.ngz + b, e.ngz + c, v, q)
  }

  /** Faces are numbered 0..5: direction f / 2, upper side iff f is odd. The
      plane of face f in staggered indices. */
  function FacePlane(e: Extents, f: nat): int {
    if f % 2 == 1 then e.ngz + e.nx else e.ngz
  }

  /** The flux through cell face (a, b) of quadrant face f; a and b run along
      the two other directions in ascending order of axis. */
  function FaceIx(e: Extents, f: nat, a: int, b: int, v: int, q: int): FluxIx {
    var p := FacePlane(e, f);
    if f / 2 == 0 then FluxIx(p, e.ngz + a, e.ngz + b, v, 0, q)
    else if f / 2 == 1 then FluxIx(e.ngz + a, p, e.ngz + b, v, 1, q)
    else FluxIx(e.ngz + a, e.ngz + b, p, v, 2, q)
  }

  /** Which of the four fine quadrants on a coarse face covers coarse cell (i, j). */
  function Child(e: Extents, i: int, j: int): nat {
    (if 2 * i >= e.nx then 1 else 0) + (if 2 * j >= e.nx then 2 else 0)
  }

  /** The face on the other side of an interface: f xor 1. */
  function Opposite(f: nat): nat {
    if f % 2 == 1 then f - 1 else f + 1
  }

  /** Face f of quadrant q. */
  datatype FaceRef = FaceRef(q: nat, f: nat)

  /** The three kinds of interface: two quadrants of one level, one coarse face
      against four fine ones (in z-order), and the outer boundary. */
  datatype Interface =
    | SameLevel(a: FaceRef, b: FaceRef)
    | Hanging(coarse: FaceRef, fine: seq<FaceRef>)
    | Outer(a: FaceRef)
  {
    function Faces(): seq<FaceRef> {
      match this
      case SameLevel(a, b) => [a, b]
      case Hanging(c, fine) => [c] + fine
      case Outer(a) => [a]
    }
  }

  ghost function AllFaces(nq: nat): seq<FaceRef> {
    if nq == 0 then []
    else AllFaces(nq - 1) + [FaceRef(nq - 1, 0), FaceRef(nq - 1, 1), FaceRef(nq - 1, 2),
                             FaceRef(nq - 1, 3), FaceRef(nq - 1, 4), FaceRef(nq - 1, 5)]
  }

  ghost function Flatten(ifaces: seq<Interface>): seq<FaceRef> {
    if ifaces == [] then [] else ifaces[0].Faces() + Flatten(ifaces[1..])
  }

  ghost predicate Geometric(iface: Interface, dx: Spacing) {
    match iface
    case SameLevel(a, b) =>
      && a.f < 6 && b.f == Opposite(a.f)
      && forall d | 0 <= d < 3 :: dx(d, a.q) == dx(d, b.q)
    case Hanging(c, fine) =>
      && |fine| == 4 && c.f < 6
      && forall n | 0 <= n < 4 :: fine[n].f == Opposite(c.f) && forall d | 0 <= d < 3 :: dx(d, c.q) == 2.0 * dx(d, fine[n].q)
    case Outer(_) => true
  }

  /** Every face of every quadrant belongs to exactly one interface, and each
      interface is one the iterator can report. */
  ghost predicate Composite(nq: nat, ifaces: seq<Interface>, dx: Spacing) {
    && multiset(Flatten(ifaces)) == multiset(AllFaces(nq))
    && forall n | 0 <= n < |ifaces| :: Geometric(ifaces[n], dx)
  }
}
