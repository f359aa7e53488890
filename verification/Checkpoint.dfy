/** Checkpoints of the particles: one global sequence on file, cut into nearly equal
    slices when it is read back by any number of ranks. */
module Checkpoint {
  import opened Arithmetic

  datatype Slice = Slice(offset: nat, count: nat)

  /** The slice of rank r: the first n % nproc ranks take one element more. */
  function EqualSlice(n: nat, r: nat, nproc: nat): (s: Slice)
    requires nproc > 0 && r < nproc
    ensures n / nproc <= s.count <= n / nproc + 1
  {
    var base, extras := n / nproc, n % nproc;
    assert base >= 0 && r * base >= 0;
    Slice(r * base + (if r < extras then r else extras), base + if r < extras then 1 else 0)
  }

  /** Slices are consecutive, start at 0 and end at n. */
  lemma SlicesTile(n: nat, r: nat, nproc: nat)
    requires nproc > 0 && r < nproc
    ensures r == 0 ==> EqualSlice(n, r, nproc).offset == 0
    ensures var s := EqualSlice(n, r, nproc); s.offset + s.count == if r + 1 < nproc then EqualSlice(n, r + 1, nproc).offset else n
  {
    var base, extras := n / nproc, n % nproc;
    assert (r + 1) * base == r * base + base;
    if r + 1 == nproc {
      assert nproc * base + extras == n;
    }
  }

  /** The ranks that take one more come first: no rank has a larger slice than one before it. */
  lemma CountsNeverIncrease(n: nat, r: nat, q: nat, nproc: nat)
    requires r <= q < nproc
    ensures EqualSlice(n, q, nproc).count <= EqualSlice(n, r, nproc).count
  {
  }

  /** The documented formula [r n / nproc, (r + 1) n / nproc) is a different partition: five
      elements on three ranks start rank 1 at 2, not at 1. */
  lemma SliceIsNotTheDocumentedOne()
    ensures EqualSlice(5, 1, 3).offset == 2 && 1 * 5 / 3 == 1
  {
  }

  ghost function Concat<T>(parts: seq<seq<T>>): seq<T> {
    if parts == [] then [] else Concat(parts[..|parts| - 1]) + parts[|parts| - 1]
  }

  /** The file holds the ranks' particles one rank after the other. */
  ghost function Saved<T>(ranks: seq<seq<T>>): seq<T> { Concat(ranks) }

  ghost function Sizes<T>(ranks: seq<seq<T>>): (s: seq<nat>)
    ensures |s| == |ranks| && forall a | 0 <= a < |ranks| :: s[a] == |ranks[a]|
  {
    seq(|ranks|, a requires 0 <= a < |ranks| => |ranks[a]|)
  }

  /** Particle i of rank a stands on file at the rank's offset plus i, where the offset is the
      number of particles on the ranks before it; nothing else is on file. */
  lemma {:induction false} SavedAt<T>(ranks: seq<seq<T>>, a: nat, i: nat)
    requires a < |ranks| && i < |ranks[a]|
    ensures PrefixSum(Sizes(ranks), a) + i < |Saved(ranks)|
    ensures Saved(ranks)[PrefixSum(Sizes(ranks), a) + i] == ranks[a][i]
  {
    var init := ranks[..|ranks| - 1];
    SavedLength(init);
    PrefixOfInit(ranks, if a < |init| then a else |init|);
    if a < |init| {
      SavedAt(init, a, i);
    }
  }

  lemma {:induction false} SavedLength<T>(ranks: seq<seq<T>>)
    ensures |Saved(ranks)| == PrefixSum(Sizes(ranks), |ranks|)
  {
    if ranks != [] {
      SavedLength(ranks[..|ranks| - 1]);
      PrefixOfInit(ranks, |ranks| - 1);
    }
  }

  lemma {:induction false} PrefixOfInit<T>(ranks: seq<seq<T>>, n: nat)
    requires n < |ranks|
    ensures PrefixSum(Sizes(ranks[..|ranks| - 1]), n) == PrefixSum(Sizes(ranks), n)
  {
    if n > 0 { PrefixOfInit(ranks, n - 1); }
  }

  /** What rank r of nproc reads. */
  ghost function LoadedBy<T>(file: seq<T>, r: nat, nproc: nat): seq<T>
    requires nproc > 0 && r < nproc
  {
    SliceInRange(|file|, r, nproc);
    var s := EqualSlice(|file|, r, nproc);
    file[s.offset..s.offset + s.count]
  }

  ghost function Loaded<T>(file: seq<T>, nproc: nat): (ranks: seq<seq<T>>)
    requires nproc > 0
    ensures |ranks| == nproc && forall r | 0 <= r < nproc :: ranks[r] == LoadedBy(file, r, nproc)
  {
    seq(nproc, r requires 0 <= r < nproc => LoadedBy(file, r, nproc))
  }

  lemma {:induction false} SliceInRange(n: nat, r: nat, nproc: nat)
    requires nproc > 0 && r < nproc
    ensures EqualSlice(n, r, nproc).offset + EqualSlice(n, r, nproc).count <= n
    decreases nproc - r
  {
    SlicesTile(n, r, nproc);
    if r + 1 < nproc { SliceInRange(n, r + 1, nproc); }
  }

  /** Where the slices of ranks k and above start. */
  ghost function SliceStart(n: nat, k: nat, nproc: nat): (x: nat)
    requires nproc > 0 && k <= nproc
    ensures x <= n
  {
    if k < nproc then SliceInRange(n, k, nproc); EqualSlice(n, k, nproc).offset else n
  }

  lemma SliceIs<T>(file: seq<T>, k: nat, nproc: nat)
    requires nproc > 0 && k < nproc
    ensures SliceStart(|file|, k, nproc) <= SliceStart(|file|, k + 1, nproc)
    ensures LoadedBy(file, k, nproc) == file[SliceStart(|file|, k, nproc)..SliceStart(|file|, k + 1, nproc)]
    ensures SliceStart(|file|, 0, nproc) == 0 && SliceStart(|file|, nproc, nproc) == |file|
  {
    SlicesTile(|file|, k, nproc);
    SlicesTile(|file|, 0, nproc);
  }

  /** The first k ranks read the file up to where rank k starts. */
  lemma {:induction false} PrefixLoaded<T>(file: seq<T>, nproc: nat, k: nat)
    requires nproc > 0 && k <= nproc
    ensures Concat(Loaded(file, nproc)[..k]) == file[..SliceStart(|file|, k, nproc)]
  {
    hide SliceStart, LoadedBy, EqualSlice, Loaded;
    SliceIs(file, 0, nproc);
    if k > 0 {
      var ranks := Loaded(file, nproc);
      PrefixLoaded(file, nproc, k - 1);
      SliceIs(file, k - 1, nproc);
      assert ranks[..k][..k - 1] == ranks[..k - 1];
    }
  }

  /** Round trip: whatever is saved by any number of ranks is read back, in the same global
      order, by any number of ranks. */
  lemma SaveLoadRoundTrip<T>(ranks: seq<seq<T>>, nproc: nat)
    requires nproc > 0
    ensures Concat(Loaded(Saved(ranks), nproc)) == Saved(ranks)
  {
    PrefixLoaded(Saved(ranks), nproc, nproc);
    SliceIs(Saved(ranks), 0, nproc);
    assert Loaded(Saved(ranks), nproc)[..nproc] == Loaded(Saved(ranks), nproc);
  }

  /** Where each particle comes back: the one rank a saved as its i-th is read by the rank whose slice
      covers its place on file, at its place in that slice. */
  lemma ComesBackAt<T>(ranks: seq<seq<T>>, nproc: nat, a: nat, i: nat) returns (r: nat, j: nat)
    requires nproc > 0 && a < |ranks| && i < |ranks[a]|
    ensures r < nproc && EqualSlice(|Saved(ranks)|, r, nproc).offset + j == PrefixSum(Sizes(ranks), a) + i
    ensures j < |Loaded(Saved(ranks), nproc)[r]| && Loaded(Saved(ranks), nproc)[r][j] == ranks[a][i]
  {
    SavedAt(ranks, a, i);
    var n, x := |Saved(ranks)|, PrefixSum(Sizes(ranks), a) + i;
    hide Saved, Sizes, EqualSlice;
    r := 0;
    SlicesTile(n, 0, nproc);
    while EqualSlice(n, r, nproc).offset + EqualSlice(n, r, nproc).count <= x
      invariant r < nproc && EqualSlice(n, r, nproc).offset <= x
      decreases nproc - r
    {
      SlicesTile(n, r, nproc);
      r := r + 1;
    }
    j := x - EqualSlice(n, r, nproc).offset;
    SliceInRange(n, r, nproc);
  }
}
