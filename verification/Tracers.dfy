/** The tracer container of one rank: parallel field arrays and an id counter;
    compaction and appending rebuild and grow them in place. */
module Tracers {

  datatype Vec3 = Vec3(x: real, y: real, z: real)

  /** The sampled fluid quantities of one particle. */
  datatype Sample = Sample(alpha: real, beta: Vec3, v: Vec3, W: real, rho: real, temp: real, ye: real, entropy: real, press: real, eps: real, B: Vec3)

  /** One particle, all fields together. */
  datatype Particle = Particle(pos: Vec3, id: nat, status: nat, ownerRank: int, ownerQuad: int, sample: Sample)

  const DEFAULT_STATUS: nat := 0
  const UINT32_MAX: nat := 0xFFFF_FFFF
  const ZERO3 := Vec3(0.0, 0.0, 0.0)
  const ZERO_SAMPLE := Sample(0.0, ZERO3, ZERO3, 0.0, 0.0, 0.0, 0.0, 0.0, 0.0, 0.0, ZERO3)

  const WORD: nat := 0x1_0000_0000

  /** Bitwise or. */
  function BitOr(a: nat, b: nat): nat
    decreases a + b
  {
    if a == 0 then b else if b == 0 then a
    else 2 * BitOr(a / 2, b / 2) + if a % 2 == 1 || b % 2 == 1 then 1 else 0
  }

  /** The id of serial number w on a rank: the rank in the high word, or-ed with w. */
  function MakeId(rank: nat, w: nat): nat {
    BitOr(rank, w / WORD) * WORD + w % WORD
  }

  /** Serial numbers below 2^32 leave the rank intact. */
  lemma MakeIdSmall(rank: nat, w: nat)
    requires w < WORD
    ensures MakeId(rank, w) == rank * WORD + w
  {
  }

  /** The particles an append creates. */
  ghost function Fresh(rank: nat, base: nat, newPos: seq<Vec3>): (s: seq<Particle>)
    ensures |s| == |newPos| && forall k | 0 <= k < |newPos| :: s[k] == Particle(newPos[k], MakeId(rank, base + k), DEFAULT_STATUS, rank, -1, ZERO_SAMPLE)
  {
    seq(|newPos|, k requires 0 <= k < |newPos| => Particle(newPos[k], MakeId(rank, base + k), DEFAULT_STATUS, rank, -1, ZERO_SAMPLE))
  }

  /** A larger copy of a field array, the new places set to zero. */
  method Grow<T(0)>(a: array<T>, size: nat, zero: T) returns (b: array<T>)
    requires a.Length <= size
    ensures fresh(b) && b.Length == size
    ensures forall i | 0 <= i < size :: b[i] == if i < a.Length then a[i] else zero
  {
    b := new T[size](_ => zero);
    for i := 0 to a.Length
      invariant forall k | 0 <= k < size :: b[k] == if k < i then a[k] else zero
    {
      b[i] := a[i];
    }
  }

  /** The live particles, in order. */
  ghost function Live(s: seq<Particle>): seq<Particle> {
    if s == [] then [] else Live(s[..|s| - 1]) + if s[|s| - 1].status == DEFAULT_STATUS then [s[|s| - 1]] else []
  }

  /** How many of the first i statuses are live. */
  ghost function LiveBefore(s: seq<Particle>, i: nat): nat
    requires i <= |s|
  {
    |Live(s[..i])|
  }

  lemma LiveStep(s: seq<Particle>, i: nat)
    requires i < |s|
    ensures Live(s[..i + 1]) == Live(s[..i]) + if s[i].status == DEFAULT_STATUS then [s[i]] else []
  {
    assert s[..i + 1][..i] == s[..i];
  }

  lemma {:induction false} LivePrefix(s: seq<Particle>, i: nat, j: nat)
    requires i <= j <= |s|
    ensures Live(s[..i]) <= Live(s[..j])
    ensures LiveBefore(s, i) <= i
    decreases j
  {
    if i < j {
      LivePrefix(s, i, j - 1);
      LiveStep(s, j - 1);
    } else if i > 0 {
      LivePrefix(s, i - 1, i - 1);
      LiveStep(s, i - 1);
    } else {
      assert s[..0] == [];
    }
  }

  /** Live particle i lands at the number of live ones before it. */
  lemma LiveAt(s: seq<Particle>, i: nat)
    requires i < |s| && s[i].status == DEFAULT_STATUS
    ensures LiveBefore(s, i) < |Live(s)| && Live(s)[LiveBefore(s, i)] == s[i]
  {
    LiveStep(s, i);
    LivePrefix(s, i + 1, |s|);
    assert s[..|s|] == s;
  }

  /** Every place of the compacted sequence is some live particle's. */
  lemma {:induction false} LiveCovered(s: seq<Particle>, p: nat) returns (i: nat)
    requires p < |Live(s)|
    ensures i < |s| && s[i].status == DEFAULT_STATUS && LiveBefore(s, i) == p
  {
    var n := |s| - 1;
    assert s[..n + 1] == s;
    LiveStep(s, n);
    if p < |Live(s[..n])| {
      i := LiveCovered(s[..n], p);
      assert s[..n][..i] == s[..i];
    } else {
      i := n;
    }
  }

  lemma {:induction false} AllLive(s: seq<Particle>)
    ensures |Live(s)| <= |s|
    ensures |Live(s)| == |s| ==> Live(s) == s
  {
    if s != [] { AllLive(s[..|s| - 1]); }
  }

  /** The visited live particles stand where they belong in t. */
  ghost predicate Placed(s: seq<Particle>, t: seq<Particle>, visited: seq<nat>) {
    forall i {:trigger LiveBefore(s, i)} | 0 <= i < |s| && i in visited && s[i].status == DEFAULT_STATUS ::
      LiveBefore(s, i) < |t| && t[LiveBefore(s, i)] == s[i]
  }

  lemma PlacedStep(s: seq<Particle>, t: seq<Particle>, visited: seq<nat>, i: nat)
    requires Placed(s, t, visited) && i < |s| && |t| == |Live(s)|
    ensures s[i].status != DEFAULT_STATUS ==> Placed(s, t, visited + [i])
    ensures s[i].status == DEFAULT_STATUS ==> LiveBefore(s, i) < |t| && Placed(s, t[LiveBefore(s, i) := s[i]], visited + [i])
  {
    if s[i].status == DEFAULT_STATUS {
      LiveAt(s, i);
      var t' := t[LiveBefore(s, i) := s[i]];
      forall k | 0 <= k < |s| && k in visited + [i] && s[k].status == DEFAULT_STATUS ensures LiveBefore(s, k) < |t'| && t'[LiveBefore(s, k)] == s[k] {
        LiveAt(s, k);
      }
    }
  }

  lemma StartPlaced(s: seq<Particle>, t: seq<Particle>)
    ensures Placed(s, t, [])
  {
  }

  lemma AllPlaced(s: seq<Particle>, t: seq<Particle>, visited: seq<nat>)
    requires Placed(s, t, visited) && |t| == |Live(s)| && forall i | 0 <= i < |s| :: i in visited
    ensures t == Live(s)
  {
    forall p | 0 <= p < |t| ensures t[p] == Live(s)[p] {
      var i := LiveCovered(s, p);
      LiveAt(s, i);
    }
  }

  class TracerContainer {
    var n: nat
    var nextLocalId: nat
    var pos: array<Vec3>
    var id: array<nat>
    var status: array<nat>
    var ownerRank: array<int>
    var ownerQuad: array<int>
    var sample: array<Sample>

    ghost predicate Valid()
      reads this
    {
      && pos.Length == id.Length == status.Length == ownerRank.Length == ownerQuad.Length == sample.Length == n
      && id != status && ownerRank != ownerQuad && nextLocalId <= UINT32_MAX
    }

    ghost function Contents(): (s: seq<Particle>)
      reads this, pos, id, status, ownerRank, ownerQuad, sample
      requires Valid()
      ensures |s| == n && forall i | 0 <= i < n :: s[i] == Particle(pos[i], id[i], status[i], ownerRank[i], ownerQuad[i], sample[i])
    {
      seq(n, i requires 0 <= i < n && Valid() reads this, pos, id, status, ownerRank, ownerQuad, sample =>
        Particle(pos[i], id[i], status[i], ownerRank[i], ownerQuad[i], sample[i]))
    }

    /** Exclusive scan: for each particle, the number of live ones before it. */
    method Scan() returns (writeIdx: array<nat>, totalAlive: nat)
      requires Valid()
      ensures fresh(writeIdx) && writeIdx.Length == n && totalAlive == |Live(Contents())|
      ensures forall i | 0 <= i < n :: writeIdx[i] == LiveBefore(Contents(), i)
    {
      ghost var s := Contents();
      writeIdx := new nat[n];
      totalAlive := 0;
      for i := 0 to n
        invariant totalAlive == LiveBefore(s, i) && Contents() == s
        invariant forall k | 0 <= k < i :: writeIdx[k] == LiveBefore(s, k)
      {
        LiveStep(s, i);
        writeIdx[i] := totalAlive;
        if status[i] == DEFAULT_STATUS { totalAlive := totalAlive + 1; }
      }
      assert s[..n] == s;
    }
  
    /** An all-zero container of size count, its counter at zero. */
    constructor Sized(count: nat)
      ensures Valid() && n == count && nextLocalId == 0
      ensures fresh(pos) && fresh(id) && fresh(status) && fresh(ownerRank) && fresh(ownerQuad) && fresh(sample)
      ensures forall i | 0 <= i < count :: Contents()[i] == Particle(ZERO3, 0, 0, 0, 0, ZERO_SAMPLE)
    {
      n, nextLocalId := count, 0;
      pos := new Vec3[count](_ => ZERO3);
      id := new nat[count](_ => 0);
      status := new nat[count](_ => 0);
      ownerRank := new int[count](_ => 0);
      ownerQuad := new int[count](_ => 0);
      sample := new Sample[count](_ => ZERO_SAMPLE);
    }

    /** None of the arrays of the two containers coincide. */
    ghost predicate Apart(nu: TracerContainer)
      reads this, nu
    {
      && nu != this && nu.pos != pos && nu.sample != sample
      && nu.id != id && nu.id != status && nu.status != id && nu.status != status
      && nu.ownerRank != ownerRank && nu.ownerRank != ownerQuad && nu.ownerQuad != ownerRank && nu.ownerQuad != ownerQuad
    }

    /** Copy every field of particle i to place j of another container. */
    method CopyTo(i: nat, nu: TracerContainer, j: nat)
      requires Valid() && nu.Valid() && Apart(nu) && i < n && j < nu.n
      modifies nu.pos, nu.id, nu.status, nu.ownerRank, nu.ownerQuad, nu.sample
      ensures Contents() == old(Contents()) && nu.Contents() == old(nu.Contents())[j := Contents()[i]]
    {
      nu.pos[j] := pos[i];
      nu.id[j] := id[i];
      nu.status[j] := status[i];
      nu.ownerRank[j] := ownerRank[i];
      nu.ownerQuad[j] := ownerQuad[i];
      nu.sample[j] := sample[i];
    }

    /** Gather the live particles, in an arbitrary order of the threads. */
    method Gather(nu: TracerContainer, writeIdx: array<nat>, order: seq<nat>)
      requires Valid() && nu.Valid() && Apart(nu) && nu.n == |Live(Contents())| && writeIdx.Length == n
      requires writeIdx != nu.id && writeIdx != nu.status
      requires forall i | 0 <= i < n :: writeIdx[i] == LiveBefore(Contents(), i)
      requires forall i :: i in order <==> 0 <= i < n
      modifies nu.pos, nu.id, nu.status, nu.ownerRank, nu.ownerQuad, nu.sample
      ensures Contents() == old(Contents()) && nu.Contents() == Live(Contents())
    {
      hide LiveBefore, Live, Placed;
      ghost var s := Contents();
      StartPlaced(s, nu.Contents());
      for m := 0 to |order|
        invariant Contents() == s && Placed(s, nu.Contents(), order[..m])
        invariant forall i | 0 <= i < n :: writeIdx[i] == LiveBefore(s, i)
      {
        assert order[m] in order && order[..m + 1] == order[..m] + [order[m]];
        var i := order[m];
        PlacedStep(s, nu.Contents(), order[..m], i);
        if status[i] == DEFAULT_STATUS {
          CopyTo(i, nu, writeIdx[i]);
        }
      }
      assert order[..|order|] == order;
      AllPlaced(s, nu.Contents(), order);
    }

    /** Take over the arrays and the counter of another container. */
    method MoveFrom(nu: TracerContainer)
      requires nu.Valid()
      modifies this
      ensures Valid() && Contents() == old(nu.Contents()) && n == old(nu.n) && nextLocalId == old(nu.nextLocalId)
    {
      pos, id, status, ownerRank, ownerQuad, sample := nu.pos, nu.id, nu.status, nu.ownerRank, nu.ownerQuad, nu.sample;
      n, nextLocalId := nu.n, nu.nextLocalId;
    }

    /** Drop the particles that are not live; every field moves with its particle, the order
        is kept, and the id counter is not given back. */
    method Compact(order: seq<nat>) returns (culled: nat)
      requires Valid() && forall i :: i in order <==> 0 <= i < n
      modifies this
      ensures Valid() && nextLocalId == old(nextLocalId)
      ensures Contents() == Live(old(Contents())) && culled == old(n) - n
    {
      if n == 0 { return 0; }
      hide Live, LiveBefore;
      ghost var s := Contents();
      AllLive(s);
      var writeIdx, totalAlive := Scan();
      if totalAlive == n { return 0; }
      var nu := new TracerContainer.Sized(totalAlive);
      nu.nextLocalId := nextLocalId;
      assert Contents() == s && Apart(nu) && writeIdx != nu.id && writeIdx != nu.status;
      Gather(nu, writeIdx, order);
      culled := n - totalAlive;
      MoveFrom(nu);
    }
  
    /** Reserve k consecutive serial numbers; more than the 32-bit counter has left is an abort. */
    method NextIdRange(k: nat) returns (aborted: bool, first: nat)
      requires nextLocalId <= UINT32_MAX
      modifies this`nextLocalId
      ensures aborted <==> k > UINT32_MAX - old(nextLocalId)
      ensures aborted ==> nextLocalId == old(nextLocalId)
      ensures !aborted ==> first == old(nextLocalId) && nextLocalId == first + k <= UINT32_MAX
    {
      if k > UINT32_MAX - nextLocalId { return true, 0; }
      first := nextLocalId;
      nextLocalId := nextLocalId + k;
      aborted := false;
    }

    /** Grow every field to newSize, keeping the particles there are. */
    method ResizePreserving(newSize: nat)
      requires Valid() && n <= newSize
      modifies this
      ensures Valid() && n == newSize && nextLocalId == old(nextLocalId)
      ensures forall i | 0 <= i < newSize :: Contents()[i] == if i < old(n) then old(Contents())[i] else Particle(ZERO3, 0, 0, 0, 0, ZERO_SAMPLE)
      ensures newSize > old(n) ==> fresh(pos) && fresh(id) && fresh(status) && fresh(ownerRank) && fresh(ownerQuad) && fresh(sample)
    {
      if newSize == n { return; }
      ghost var s := Contents();
      var pos' := Grow(pos, newSize, ZERO3);
      var id' := Grow(id, newSize, 0);
      var status' := Grow(status, newSize, 0);
      var ownerRank' := Grow(ownerRank, newSize, 0);
      var ownerQuad' := Grow(ownerQuad, newSize, 0);
      var sample' := Grow(sample, newSize, ZERO_SAMPLE);
      assert forall i | 0 <= i < newSize :: Particle(pos'[i], id'[i], status'[i], ownerRank'[i], ownerQuad'[i], sample'[i])
               == if i < |s| then s[i] else Particle(ZERO3, 0, 0, 0, 0, ZERO_SAMPLE);
      Adopt(newSize, pos', id', status', ownerRank', ownerQuad', sample');
    }

    /** Replace the field arrays. */
    method Adopt(size: nat, p: array<Vec3>, i: array<nat>, s: array<nat>, r: array<int>, q: array<int>, sm: array<Sample>)
      requires p.Length == i.Length == s.Length == r.Length == q.Length == sm.Length == size && i != s && r != q && nextLocalId <= UINT32_MAX
      modifies this
      ensures Valid() && n == size && nextLocalId == old(nextLocalId)
      ensures pos == p && id == i && status == s && ownerRank == r && ownerQuad == q && sample == sm
      ensures forall k | 0 <= k < size :: Contents()[k] == Particle(p[k], i[k], s[k], r[k], q[k], sm[k])
    {
      pos, id, status, ownerRank, ownerQuad, sample := p, i, s, r, q, sm;
      n := size;
    }

    /** Write a new particle at place i. */
    method Store(i: nat, p: Vec3, pid: nat, rank: nat)
      requires Valid() && i < n
      modifies pos, id, status, ownerRank, ownerQuad
      ensures Valid() && Contents() == old(Contents())[i := Particle(p, pid, DEFAULT_STATUS, rank, -1, old(Contents())[i].sample)]
    {
      pos[i] := p;
      id[i] := pid;
      status[i] := DEFAULT_STATUS;
      ownerRank[i] := rank;
      ownerQuad[i] := -1;
    }

    /** Append new particles with fresh ids. The number reserved is the size cut to 32 bits. */
    method Append(rank: nat, newPos: seq<Vec3>) returns (aborted: bool)
      requires Valid()
      modifies this
      ensures Valid()
      ensures aborted <==> |newPos| % WORD > UINT32_MAX - old(nextLocalId)
      ensures aborted ==> Contents() == old(Contents()) && nextLocalId == old(nextLocalId)
      ensures !aborted ==> Contents() == old(Contents()) + Fresh(rank, old(nextLocalId), newPos)
      ensures !aborted ==> nextLocalId == old(nextLocalId) + |newPos| % WORD
    {
      if |newPos| == 0 {
        return false;
      }
      hide MakeId;
      var nOld, base := n, 0;
      aborted, base := NextIdRange(|newPos| % WORD);
      if aborted { return; }
      ResizePreserving(nOld + |newPos|);
      FillNew(nOld, rank, base, newPos);
    }

    /** Fill the places from nOld on with new particles. */
    method FillNew(nOld: nat, rank: nat, base: nat, newPos: seq<Vec3>)
      requires Valid() && n == nOld + |newPos| && forall i | nOld <= i < n :: Contents()[i].sample == ZERO_SAMPLE
      modifies pos, id, status, ownerRank, ownerQuad
      ensures Valid() && Contents() == old(Contents())[..nOld] + Fresh(rank, base, newPos)
    {
      hide MakeId;
      ghost var t := Contents();
      for k := 0 to |newPos|
        invariant Valid() && |Contents()| == |t|
        invariant forall i | 0 <= i < |t| :: Contents()[i] == if nOld <= i < nOld + k then Fresh(rank, base, newPos)[i - nOld] else t[i]
      {
        Store(nOld + k, newPos[k], MakeId(rank, base + k), rank);
      }
    }
  }
}
