/** Concurrent compaction: each thread with a tagged face claims a slot by an atomic
    fetch-and-add and then stores its face there, interleaved with all others at will. */
module FofcLists {
  import opened Arithmetic
  import opened Grid
  import opened Fofc
  import Ordering

  /** Where the thread of one face stands. */
  datatype Pc = Idle | Claimed(slot: nat) | Stored(slot: nat)

  /** The shared counter, the list written so far, and the threads of all tagged faces;
      what a face is does not matter here. */
  datatype Push<T> = Push(count: nat, list: map<nat, T>, pc: map<T, Pc>)

  ghost predicate Init<T(!new)>(faces: set<T>, s: Push<T>) {
    s.count == 0 && s.list == map[] && s.pc.Keys == faces && forall f | f in s.pc :: s.pc[f] == Idle
  }

  ghost predicate Claim<T(!new)>(s: Push<T>, s': Push<T>, f: T) {
    f in s.pc && s.pc[f] == Idle && s' == Push(s.count + 1, s.list, s.pc[f := Claimed(s.count)])
  }

  ghost predicate Store<T(!new)>(s: Push<T>, s': Push<T>, f: T) {
    f in s.pc && s.pc[f].Claimed? && s' == Push(s.count, s.list[s.pc[f].slot := f], s.pc[f := Stored(s.pc[f].slot)])
  }

  ghost predicate Next<T(!new)>(s: Push<T>, s': Push<T>) { exists f :: Claim(s, s', f) || Store(s, s', f) }

  ghost predicate Trace<T(!new)>(faces: set<T>, states: seq<Push<T>>) {
    states != [] && Init(faces, states[0]) && forall n | 0 <= n < |states| - 1 :: Next(states[n], states[n + 1])
  }

  ghost function Busy<T(!new)>(s: Push<T>): set<T> { set f | f in s.pc && s.pc[f] != Idle }

  /** Slots of busy threads are distinct and are exactly the numbers handed out. */
  ghost predicate Slots<T(!new)>(faces: set<T>, s: Push<T>) {
    && s.pc.Keys == faces && s.count == |Busy(s)|
    && (forall f | f in s.pc && s.pc[f] != Idle :: s.pc[f].slot < s.count)
    && (forall f, g | f in s.pc && g in s.pc && s.pc[f] != Idle && s.pc[g] != Idle && s.pc[f].slot == s.pc[g].slot :: f == g)
    && (forall n | 0 <= n < s.count :: Taken(s, n))
  }

  /** The list holds what the finished threads stored. */
  ghost predicate Listing<T(!new)>(s: Push<T>) {
    && (forall f | f in s.pc && s.pc[f].Stored? :: s.pc[f].slot in s.list && s.list[s.pc[f].slot] == f)
    && (forall n | n in s.list :: s.list[n] in s.pc && s.pc[s.list[n]] == Stored(n))
  }

  ghost predicate Inv<T(!new)>(faces: set<T>, s: Push<T>) { Slots(faces, s) && Listing(s) }

  /** Slot n belongs to some thread. */
  ghost predicate Taken<T(!new)>(s: Push<T>, n: nat) { exists f :: f in s.pc && s.pc[f] != Idle && s.pc[f].slot == n }

  lemma NextKeeps<T(!new)>(faces: set<T>, s: Push<T>, s': Push<T>)
    requires Inv(faces, s) && Next(s, s')
    ensures Inv(faces, s')
  {
    var f :| Claim(s, s', f) || Store(s, s', f);
    if Claim(s, s', f) { ClaimKeeps(faces, s, s', f); } else { StoreKeeps(faces, s, s', f); }
  }

  lemma TakenStays<T(!new)>(s: Push<T>, s': Push<T>, n: nat)
    requires Taken(s, n)
    requires forall g | g in s.pc && s.pc[g] != Idle :: g in s'.pc && s'.pc[g] != Idle && s'.pc[g].slot == s.pc[g].slot
    ensures Taken(s', n)
  {
    var g :| g in s.pc && s.pc[g] != Idle && s.pc[g].slot == n;
    assert s'.pc[g].slot == n;
  }

  lemma ClaimKeeps<T(!new)>(faces: set<T>, s: Push<T>, s': Push<T>, f: T)
    requires Inv(faces, s) && Claim(s, s', f)
    ensures Inv(faces, s')
  {
    ClaimSlots(faces, s, s', f);
    ClaimLists(s, s', f);
  }

  lemma BusyAfterClaim<T(!new)>(s: Push<T>, s': Push<T>, f: T)
    requires Claim(s, s', f)
    ensures |Busy(s')| == |Busy(s)| + 1
  {
    assert Busy(s') == Busy(s) + {f};
  }

  lemma ClaimSlots<T(!new)>(faces: set<T>, s: Push<T>, s': Push<T>, f: T)
    requires Slots(faces, s) && Claim(s, s', f)
    ensures Slots(faces, s')
  {
    BusyAfterClaim(s, s', f);
    forall n | 0 <= n < s'.count ensures Taken(s', n) {
      if n < s.count { TakenStays(s, s', n); } else { assert s'.pc[f].slot == n; }
    }
    hide Taken, Busy;
  }

  lemma ClaimLists<T(!new)>(s: Push<T>, s': Push<T>, f: T)
    requires Listing(s) && Claim(s, s', f)
    ensures Listing(s')
  {
  }

  lemma StoreKeeps<T(!new)>(faces: set<T>, s: Push<T>, s': Push<T>, f: T)
    requires Inv(faces, s) && Store(s, s', f)
    ensures Inv(faces, s')
  {
    assert Busy(s') == Busy(s);
    forall n | 0 <= n < s'.count ensures Taken(s', n) { TakenStays(s, s', n); }
    hide Taken;
    assert Slots(faces, s') by { hide Listing; }
    StoreLists(faces, s, s', f);
  }

  lemma StoreLists<T(!new)>(faces: set<T>, s: Push<T>, s': Push<T>, f: T)
    requires Slots(faces, s) && Listing(s) && Store(s, s', f)
    ensures Listing(s')
  {
    var n := s.pc[f].slot;
    assert n !in s.list;
    assert forall g | g in s.pc && g != f && s.pc[g] != Idle :: s.pc[g].slot != n;
    hide Slots, Taken, Busy;
  }

  lemma {:induction false} ReachableInv<T(!new)>(faces: set<T>, states: seq<Push<T>>, n: nat)
    requires Trace(faces, states) && n < |states|
    ensures Inv(faces, states[n])
  {
    if n == 0 {
      assert Busy(states[0]) == {};
    } else {
      ReachableInv(faces, states, n - 1);
      assert Next(states[n - 1], states[n - 1 + 1]);
      NextKeeps(faces, states[n - 1], states[n]);
    }
  }

  /** At every moment of every interleaving no slot beyond the number of tagged faces is used. */
  lemma NeverOverflows<T(!new)>(faces: set<T>, states: seq<Push<T>>, n: nat)
    requires Trace(faces, states) && n < |states|
    ensures states[n].count <= |faces|
    ensures forall f | f in states[n].pc && states[n].pc[f] != Idle :: states[n].pc[f].slot < |faces|
  {
    ReachableInv(faces, states, n);
    Ordering.SubsetSize(Busy(states[n]), faces);
  }

  /** When all threads are through, the list holds every tagged face exactly once, in slots 0 to count - 1. */
  lemma ListIsExact<T(!new)>(faces: set<T>, states: seq<Push<T>>)
    requires Trace(faces, states)
    requires var s := states[|states| - 1]; forall f | f in s.pc :: s.pc[f].Stored?
    ensures var s := states[|states| - 1];
      && s.count == |faces| && (forall n :: n in s.list <==> 0 <= n < s.count)
      && (forall n | n in s.list :: s.list[n] in faces)
      && (forall f | f in faces :: exists n :: n in s.list && s.list[n] == f)
      && (forall m, n | m in s.list && n in s.list && s.list[m] == s.list[n] :: m == n)
  {
    var s := states[|states| - 1];
    ReachableInv(faces, states, |states| - 1);
    assert Busy(s) == faces;
    forall n ensures n in s.list <==> 0 <= n < s.count {
      if n in s.list { assert s.pc[s.list[n]] == Stored(n); }
      if 0 <= n < s.count {
        assert Taken(s, n);
        var f :| f in s.pc && s.pc[f] != Idle && s.pc[f].slot == n;
      }
    }
    forall f | f in faces ensures exists n :: n in s.list && s.list[n] == f {
      assert s.pc[f].slot in s.list;
    }
  }

  /** The space reserved for the list of one direction. */
  function Capacity(e: Extents, nq: nat): nat { (e.nx + 1 + 2 * e.ngz) * (e.nx + 2 * e.ngz) * (e.nx + 2 * e.ngz) * nq }

  /** A number for each face of the range, nx + 1 along the normal and nx + 2 across. */
  ghost function Code(e: Extents, d: int, f: Face): int {
    var n := e.nx + 2;
    var a := if d == 0 then f.i - e.ngz else if d == 1 then f.j - e.ngz else f.k - e.ngz;
    var b := (if d == 0 then f.j else f.i) - (e.ngz - 1);
    var c := (if d == 2 then f.j else f.k) - (e.ngz - 1);
    if a >= 0 && b >= 0 && c >= 0 && f.q >= 0 then Mixed(e.nx + 1, a, Mixed(n, b, Mixed(n, c, f.q))) else 0
  }

  lemma CodeBound(e: Extents, nq: nat, d: int, f: Face)
    requires PushRange(e, nq, d, f) && 0 <= d < 3
    ensures 0 <= Code(e, d, f) < (e.nx + 1) * ((e.nx + 2) * ((e.nx + 2) * nq))
  {
    var n := e.nx + 2;
    var a := if d == 0 then f.i - e.ngz else if d == 1 then f.j - e.ngz else f.k - e.ngz;
    var b := (if d == 0 then f.j else f.i) - (e.ngz - 1);
    var c := (if d == 2 then f.j else f.k) - (e.ngz - 1);
    assert Code(e, d, f) == Mixed(e.nx + 1, a, Mixed(n, b, Mixed(n, c, f.q)));
    hide Mixed, Code;
    MixedBound(n, c, f.q, nq);
    MixedBound(n, b, Mixed(n, c, f.q), n * nq);
    MixedBound(e.nx + 1, a, Mixed(n, b, Mixed(n, c, f.q)), n * (n * nq));
  }

  lemma CodeInjective(e: Extents, nq: nat, d: int, f: Face, g: Face)
    requires PushRange(e, nq, d, f) && PushRange(e, nq, d, g) && 0 <= d < 3 && Code(e, d, f) == Code(e, d, g)
    ensures f == g
  {
    var n := e.nx + 2;
    var a := if d == 0 then f.i - e.ngz else if d == 1 then f.j - e.ngz else f.k - e.ngz;
    var b := (if d == 0 then f.j else f.i) - (e.ngz - 1);
    var c := (if d == 2 then f.j else f.k) - (e.ngz - 1);
    var a' := if d == 0 then g.i - e.ngz else if d == 1 then g.j - e.ngz else g.k - e.ngz;
    var b' := (if d == 0 then g.j else g.i) - (e.ngz - 1);
    var c' := (if d == 2 then g.j else g.k) - (e.ngz - 1);
    assert Mixed(e.nx + 1, a, Mixed(n, b, Mixed(n, c, f.q))) == Mixed(e.nx + 1, a', Mixed(n, b', Mixed(n, c', g.q)));
    hide Mixed, Code;
    MixedInjective(e.nx + 1, a, Mixed(n, b, Mixed(n, c, f.q)), a', Mixed(n, b', Mixed(n, c', g.q)));
    MixedInjective(n, b, Mixed(n, c, f.q), b', Mixed(n, c', g.q));
    MixedInjective(n, c, f.q, c', g.q);
  }

  lemma {:induction false} NumbersBelow(s: set<int>, n: nat)
    requires forall x | x in s :: 0 <= x < n
    ensures |s| <= n
  {
    if n == 0 {
      assert forall x :: x !in s;
      assert s == {};
    } else {
      NumbersBelow(s - {n - 1}, n - 1);
    }
  }

  lemma {:induction false} CodedSize(e: Extents, nq: nat, d: int, faces: set<Face>, codes: set<int>)
    requires 0 <= d < 3 && (forall f | f in faces :: PushRange(e, nq, d, f)) && codes == set f | f in faces :: Code(e, d, f)
    ensures |codes| == |faces|
  {
    hide Code, PushRange;
    if faces != {} {
      var f :| f in faces;
      var rest := faces - {f};
      var codes' := set g | g in rest :: Code(e, d, g);
      CodedSize(e, nq, d, rest, codes');
      forall g | g in rest ensures Code(e, d, g) != Code(e, d, f) {
        if Code(e, d, g) == Code(e, d, f) { CodeInjective(e, nq, d, g, f); }
      }
      assert codes == codes' + {Code(e, d, f)};
    }
  }

  lemma CapacitySuffices(e: Extents, nq: nat)
    requires e.ngz > 0
    ensures (e.nx + 1) * ((e.nx + 2) * ((e.nx + 2) * nq)) <= Capacity(e, nq)
  {
    var a, b, a', b' := e.nx + 1, e.nx + 2, e.nx + 1 + 2 * e.ngz, e.nx + 2 * e.ngz;
    Grow(nq, nq, b, b');
    Grow(b * nq, b' * nq, b, b');
    Grow(b * (b * nq), b' * (b' * nq), a, a');
    Regroup(a', b', nq);
  }

  lemma Regroup(a: nat, b: nat, c: nat)
    ensures a * (b * (b * c)) == a * b * b * c
  {
    assert b * (b * c) == (b * b) * c;
    assert a * ((b * b) * c) == (a * (b * b)) * c;
    assert a * (b * b) == a * b * b;
  }

  lemma Grow(x: nat, x': nat, n: nat, n': nat)
    requires x <= x' && n <= n'
    ensures n * x <= n' * x'
  {
    var d, c := n' - n, x' - x;
    assert n' * x' == n * x + n * c + d * x';
    assert n * c >= 0 && d * x' >= 0;
  }

  /** The reserved space is never exceeded, whatever is flagged and however the threads interleave. */
  lemma CapacityIsEnough(e: Extents, nq: nat, d: int, faces: set<Face>, states: seq<Push<Face>>, n: nat)
    requires e.ngz > 0 && 0 <= d < 3 && (forall f | f in faces :: PushRange(e, nq, d, f))
    requires Trace(faces, states) && n < |states|
    ensures states[n].count <= Capacity(e, nq)
    ensures forall f | f in states[n].pc && states[n].pc[f] != Idle :: states[n].pc[f].slot < Capacity(e, nq)
  {
    var codes := set f | f in faces :: Code(e, d, f);
    CodedSize(e, nq, d, faces, codes);
    forall f | f in faces ensures 0 <= Code(e, d, f) < (e.nx + 1) * ((e.nx + 2) * ((e.nx + 2) * nq)) { CodeBound(e, nq, d, f); }
    hide Code, Capacity, Trace;
    NumbersBelow(codes, (e.nx + 1) * ((e.nx + 2) * ((e.nx + 2) * nq)));
    CapacitySuffices(e, nq);
    NeverOverflows(faces, states, n);
  }

  ghost predicate Complete(s: Push<Face>) { forall g | g in s.pc :: s.pc[g].Stored? }

  ghost predicate Lists(s: Push<Face>, f: Face) { exists n :: n in s.list && s.list[n] == f }

  /** The last state of the compaction of direction d on a rank: tags as the tagging kernel leaves them, the
      tagged faces of the range compacted by some interleaving, all threads through. */
  ghost predicate Compacted(e: Extents, nq: nat, flag: Cell -> bv32, d: int, s: Push<Face>) {
    exists tagged: Face -> bool, faces, states ::
      && TagsOf(e, nq, flag, d, tagged) && RangeTagged(e, nq, d, tagged, faces)
      && Trace(faces, states) && s == states[|states| - 1] && Complete(s)
  }

  ghost predicate TagsOf(e: Extents, nq: nat, flag: Cell -> bv32, d: int, tagged: Face -> bool) {
    forall g | PushRange(e, nq, d, g) :: tagged(g) <==> exists c :: FlagRange(e, nq, c) && flag(c) != 0 && Touches(c, g)
  }

  /** What the tagging kernel leaves in its array is what compaction starts from. */
  lemma TagsLeft(e: Extents, nq: nat, flag: Cell -> bv32, d: int, tags: array5<bv32>)
    requires e.ngz > 0 && TagShape(e, nq, tags) && 0 <= d < 3
    requires forall f | InTags(tags, f) :: Tagged(tags)(f) <==> exists c :: FlagRange(e, nq, c) && flag(c) != 0 && Touches(c, f)
    ensures TagsOf(e, nq, flag, d, Tagged(tags))
  {
    hide Tagged, Touches;
    assert forall g | PushRange(e, nq, d, g) :: InTags(tags, g);
  }

  ghost predicate RangeTagged(e: Extents, nq: nat, d: int, tagged: Face -> bool, faces: set<Face>) {
    forall g :: g in faces <==> PushRange(e, nq, d, g) && tagged(g)
  }

  /** From cells to list: after tagging and complete compaction, a face is in the list of its direction
      exactly when it is in the update range and one of its two adjacent cells was flagged. */
  lemma ListedIffFlagged(e: Extents, nq: nat, flag: Cell -> bv32, d: int, s: Push<Face>, f: Face)
    requires 0 <= d < 3 && Compacted(e, nq, flag, d, s)
    ensures Lists(s, f) <==> PushRange(e, nq, d, f) && (flag(LowerCell(f)) != 0 || flag(UpperCell(f)) != 0)
  {
    hide PushRange;
    var tagged: Face -> bool, faces, states :| TagsOf(e, nq, flag, d, tagged) && RangeTagged(e, nq, d, tagged, faces)
      && Trace(faces, states) && s == states[|states| - 1] && Complete(s);
    hide Trace;
    if PushRange(e, nq, d, f) { TaggedIffAdjacentFlagged(e, nq, flag, d, f); }
    ListIsExact(faces, states);
  }

  /** Two quadrants of one level that hold the same states where they overlap recompute the same shared
      fluxes: the two copies of a shared face are both in range, and on the list of one rank exactly when on that of the other. */
  lemma SharedFacesListed<S(!new)>(e: Extents, U: Cell -> S, V: Cell -> S, bad: (Offset -> S) -> bv32, reach: nat, d: int,
                                   p: int, q: int, np: nat, nq: nat, s: Push<Face>, t: Push<Face>, a: int, b: int)
    requires 0 <= d < 3 && Local(bad, reach) && reach + 1 <= e.ngz && Mirrored(e, U, V, d, p, q)
    requires 0 <= p < np && 0 <= q < nq && -1 <= a <= e.nx && -1 <= b <= e.nx
    requires Compacted(e, np, FlagOf(bad, U), d, s) && Compacted(e, nq, FlagOf(bad, V), d, t)
    ensures var f, g := SideFace(e, d, e.nx, a, b, p), SideFace(e, d, 0, a, b, q);
      PushRange(e, np, d, f) && PushRange(e, nq, d, g) && (Lists(s, f) <==> Lists(t, g))
  {
    SharedFacesAgree(e, U, V, bad, reach, d, p, q, a, b);
    var f, g := SideFace(e, d, e.nx, a, b, p), SideFace(e, d, 0, a, b, q);
    assert PushRange(e, np, d, f) && PushRange(e, nq, d, g);
    hide *;
    ListedIffFlagged(e, np, FlagOf(bad, U), d, s, f);
    ListedIffFlagged(e, nq, FlagOf(bad, V), d, t, g);
  }
}
