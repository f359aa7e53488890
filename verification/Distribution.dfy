/** Migration of particles: the plan each rank derives from the destinations of its
    particles, the packed send buffer, and what the all-to-all exchange delivers. */
module Distribution {
  import opened Arithmetic

  /** How many of the particles go to rank r. */
  ghost function Count(ranks: seq<int>, r: int): nat {
    if ranks == [] then 0 else Count(ranks[..|ranks| - 1], r) + if ranks[|ranks| - 1] == r then 1 else 0
  }

  /** How many go to the ranks below r. */
  ghost function Below(ranks: seq<int>, r: nat): nat {
    if r == 0 then 0 else Below(ranks, r - 1) + Count(ranks, r - 1)
  }

  /** The place of particle i in the send buffer; -1 if its destination is no rank. */
  ghost function Slot(ranks: seq<int>, nproc: nat, i: nat): int
    requires i < |ranks|
  {
    if 0 <= ranks[i] < nproc then Below(ranks, ranks[i]) + Count(ranks[..i], ranks[i]) else -1
  }

  /** The elements bound for rank r, in their original order. */
  ghost function Select<T>(src: seq<T>, ranks: seq<int>, r: int): seq<T>
    requires |src| == |ranks|
  {
    if src == [] then [] else Select(src[..|src| - 1], ranks[..|ranks| - 1], r) + if ranks[|ranks| - 1] == r then [src[|src| - 1]] else []
  }

  /** The messages of one rank, one after the other. */
  ghost function Packed<T>(src: seq<T>, ranks: seq<int>, nproc: nat): seq<T>
    requires |src| == |ranks|
  {
    if nproc == 0 then [] else Packed(src, ranks, nproc - 1) + Select(src, ranks, nproc - 1)
  }

  lemma {:induction false} CountPrefix(ranks: seq<int>, i: nat, j: nat, r: int)
    requires i <= j <= |ranks|
    ensures Count(ranks[..i], r) <= Count(ranks[..j], r)
    ensures i < j && ranks[i] == r ==> Count(ranks[..i], r) < Count(ranks[..j], r)
    decreases j
  {
    if i < j {
      assert ranks[..j][..j - 1] == ranks[..j - 1];
      CountPrefix(ranks, i, j - 1, r);
    }
  }

  lemma {:induction false} BelowMonotone(ranks: seq<int>, r: nat, t: nat)
    requires r < t
    ensures Below(ranks, r) + Count(ranks, r) <= Below(ranks, t)
  {
    if r + 1 < t { BelowMonotone(ranks, r, t - 1); }
  }

  lemma SlotInGroup(ranks: seq<int>, nproc: nat, i: nat)
    requires i < |ranks| && 0 <= ranks[i] < nproc
    ensures Below(ranks, ranks[i]) <= Slot(ranks, nproc, i) < Below(ranks, ranks[i] + 1) <= Below(ranks, nproc)
  {
    CountPrefix(ranks, i, |ranks|, ranks[i]);
    assert ranks[..|ranks|] == ranks;
    if ranks[i] + 1 < nproc { BelowMonotone(ranks, ranks[i] + 1, nproc); }
  }

  /** Grouped by destination and stable: slots are ordered by (destination, index), so no two coincide. */
  lemma SlotsOrdered(ranks: seq<int>, nproc: nat, i: nat, j: nat)
    requires i < |ranks| && j < |ranks| && 0 <= ranks[i] < nproc && 0 <= ranks[j] < nproc
    requires ranks[i] < ranks[j] || (ranks[i] == ranks[j] && i < j)
    ensures Slot(ranks, nproc, i) < Slot(ranks, nproc, j)
  {
    SlotInGroup(ranks, nproc, i);
    SlotInGroup(ranks, nproc, j);
    if ranks[i] < ranks[j] {
      if ranks[i] + 1 < ranks[j] { BelowMonotone(ranks, ranks[i] + 1, ranks[j]); }
    } else {
      CountPrefix(ranks, i, j, ranks[i]);
    }
  }

  lemma {:induction false} NthOfRank(ranks: seq<int>, r: int, k: nat) returns (i: nat)
    requires k < Count(ranks, r)
    ensures i < |ranks| && ranks[i] == r && Count(ranks[..i], r) == k
  {
    var n := |ranks| - 1;
    if k < Count(ranks[..n], r) {
      i := NthOfRank(ranks[..n], r, k);
      assert ranks[..n][..i] == ranks[..i];
    } else {
      i := n;
    }
  }

  /** Every place of the send buffer is some particle's: the permutation is onto. */
  lemma {:induction false} SlotsCover(ranks: seq<int>, nproc: nat, p: nat) returns (i: nat)
    requires p < Below(ranks, nproc)
    ensures i < |ranks| && 0 <= ranks[i] < nproc && Slot(ranks, nproc, i) == p
  {
    if p < Below(ranks, nproc - 1) {
      i := SlotsCover(ranks, nproc - 1, p);
    } else {
      i := NthOfRank(ranks, nproc - 1, p - Below(ranks, nproc - 1));
    }
  }

  lemma {:induction false} SelectLength<T>(src: seq<T>, ranks: seq<int>, r: int)
    requires |src| == |ranks|
    ensures |Select(src, ranks, r)| == Count(ranks, r)
  {
    if src != [] { SelectLength(src[..|src| - 1], ranks[..|ranks| - 1], r); }
  }

  lemma {:induction false} SelectAt<T>(src: seq<T>, ranks: seq<int>, i: nat)
    requires |src| == |ranks| && i < |src|
    ensures Count(ranks[..i], ranks[i]) < |Select(src, ranks, ranks[i])| && Select(src, ranks, ranks[i])[Count(ranks[..i], ranks[i])] == src[i]
  {
    var n := |src| - 1;
    if i < n {
      SelectAt(src[..n], ranks[..n], i);
      assert ranks[..n][..i] == ranks[..i];
    } else {
      SelectLength(src[..n], ranks[..n], ranks[i]);
    }
  }

  lemma {:induction false} PackedLength<T>(src: seq<T>, ranks: seq<int>, nproc: nat)
    requires |src| == |ranks|
    ensures |Packed(src, ranks, nproc)| == Below(ranks, nproc)
  {
    hide Select, Count;
    if nproc > 0 {
      PackedLength(src, ranks, nproc - 1);
      SelectLength(src, ranks, nproc - 1);
    }
  }

  /** The message for rank r inside the send buffer. */
  lemma {:induction false} PackedGroup<T>(src: seq<T>, ranks: seq<int>, nproc: nat, r: nat)
    requires |src| == |ranks| && r < nproc
    ensures Below(ranks, r + 1) == Below(ranks, r) + Count(ranks, r) <= |Packed(src, ranks, nproc)|
    ensures Packed(src, ranks, nproc)[Below(ranks, r)..Below(ranks, r + 1)] == Select(src, ranks, r)
  {
    hide Select, Count;
    var init := Packed(src, ranks, nproc - 1);
    PackedLength(src, ranks, nproc - 1);
    SelectLength(src, ranks, nproc - 1);
    if r < nproc - 1 {
      PackedGroup(src, ranks, nproc - 1, r);
      assert Packed(src, ranks, nproc)[..|init|] == init;
    }
  }

  /** Particle i is packed at its slot. */
  lemma PackedAt<T>(src: seq<T>, ranks: seq<int>, nproc: nat, i: nat)
    requires |src| == |ranks| && i < |src| && 0 <= ranks[i] < nproc
    ensures 0 <= Slot(ranks, nproc, i) < |Packed(src, ranks, nproc)| && Packed(src, ranks, nproc)[Slot(ranks, nproc, i)] == src[i]
  {
    hide Packed, Select, Count;
    var r := ranks[i];
    PackedGroup(src, ranks, nproc, r);
    SlotInGroup(ranks, nproc, i);
    SelectAt(src, ranks, i);
    var group := Packed(src, ranks, nproc)[Below(ranks, r)..Below(ranks, r + 1)];
    assert group[Count(ranks[..i], r)] == Packed(src, ranks, nproc)[Slot(ranks, nproc, i)];
  }

  method CountDestinations(nproc: nat, ranks: seq<int>) returns (counts: seq<nat>)
    ensures |counts| == nproc && forall r | 0 <= r < nproc :: counts[r] == Count(ranks, r)
  {
    counts := seq(nproc, _ => 0);
    for i := 0 to |ranks|
      invariant |counts| == nproc && forall r | 0 <= r < nproc :: counts[r] == Count(ranks[..i], r)
    {
      assert ranks[..i + 1][..i] == ranks[..i];
      var r := ranks[i];
      if r >= 0 && r < nproc { counts := counts[r := counts[r] + 1]; }
    }
    assert ranks[..|ranks|] == ranks;
  }

  method PrefixOffsets(nproc: nat, counts: seq<nat>) returns (offsets: seq<nat>)
    requires |counts| == nproc
    ensures |offsets| == nproc && forall r | 0 <= r < nproc :: offsets[r] == PrefixSum(counts, r)
  {
    offsets := seq(nproc, _ => 0);
    var r := 1;
    while r < nproc
      invariant 1 <= r && |offsets| == nproc && forall t | 0 <= t < r && t < nproc :: offsets[t] == PrefixSum(counts, t)
    {
      offsets := offsets[r := offsets[r - 1] + counts[r - 1]];
      r := r + 1;
    }
  }

  lemma {:induction false} PrefixIsBelow(ranks: seq<int>, counts: seq<nat>, r: nat)
    requires r <= |counts| && forall t | 0 <= t < |counts| :: counts[t] == Count(ranks, t)
    ensures PrefixSum(counts, r) == Below(ranks, r)
  {
    if r > 0 { PrefixIsBelow(ranks, counts, r - 1); }
  }

  method FillPermutation(nproc: nat, ranks: seq<int>, offsets: seq<nat>) returns (perm: seq<int>)
    requires |offsets| == nproc && forall r | 0 <= r < nproc :: offsets[r] == Below(ranks, r)
    ensures |perm| == |ranks| && forall i | 0 <= i < |ranks| :: perm[i] == Slot(ranks, nproc, i)
  {
    var cursor := seq(nproc, _ => 0);
    perm := seq(|ranks|, _ => 0);
    for i := 0 to |ranks|
      invariant |cursor| == nproc && forall r | 0 <= r < nproc :: cursor[r] == Count(ranks[..i], r)
      invariant |perm| == |ranks| && forall k | 0 <= k < i :: perm[k] == Slot(ranks, nproc, k)
    {
      assert ranks[..i + 1][..i] == ranks[..i];
      hide Below;
      var r := ranks[i];
      if r < 0 || r >= nproc {
        perm := perm[i := -1];
      } else {
        perm := perm[i := offsets[r] + cursor[r]];
        cursor := cursor[r := cursor[r] + 1];
      }
    }
  }

  /** Copying each particle to its slot, in an arbitrary order, packs the messages. */
  method Pack<T(0)>(src: seq<T>, ghost ranks: seq<int>, ghost nproc: nat, perm: seq<int>, total: nat, order: seq<nat>) returns (sbuf: array<T>)
    requires |src| == |ranks| == |perm| && total == Below(ranks, nproc)
    requires forall i | 0 <= i < |ranks| :: perm[i] == Slot(ranks, nproc, i)
    requires (forall i :: i in order <==> 0 <= i < |src|) && forall m, n | 0 <= m < n < |order| :: order[m] != order[n]
    ensures fresh(sbuf) && sbuf[..] == Packed(src, ranks, nproc)
  {
    sbuf := new T[total];
    PackedLength(src, ranks, nproc);
    ghost var P := Packed(src, ranks, nproc);
    for n := 0 to |order|
      invariant forall i {:trigger Slot(ranks, nproc, i)} | 0 <= i < |src| && i in order[..n] && 0 <= ranks[i] < nproc ::
                  0 <= Slot(ranks, nproc, i) < total && sbuf[Slot(ranks, nproc, i)] == P[Slot(ranks, nproc, i)]
    {
      hide Slot, Packed;
      assert order[n] in order;
      var i := order[n];
      if 0 <= ranks[i] < nproc {
        PackedAt(src, ranks, nproc, i);
      }
      var slot := perm[i];
      SlotSign(ranks, nproc, i);
      if slot >= 0 { sbuf[slot] := src[i]; }
    }
    assert order[..|order|] == order;
    forall p | 0 <= p < total ensures sbuf[p] == P[p] {
      var i := SlotsCover(ranks, nproc, p);
      assert i in order;
    }
  }

  lemma SlotSign(ranks: seq<int>, nproc: nat, i: nat)
    requires i < |ranks|
    ensures Slot(ranks, nproc, i) >= 0 <==> 0 <= ranks[i] < nproc
  {
  }

  /** A rank's plan, as the constructor computes it in loops over its destinations. */
  class DistributionPlan {
    var nproc: nat
    var nInput: nat
    var sendCounts: seq<nat>
    var sendOffsets: seq<nat>
    var totalSend: nat
    var recvCounts: seq<nat>
    var recvOffsets: seq<nat>
    var totalRecv: nat
    var sendPerm: seq<int>

    ghost predicate For(ranks: seq<int>)
      reads this
    {
      && nproc > 0 && nInput == |ranks| && |sendCounts| == |sendOffsets| == nproc && |sendPerm| == nInput
      && (forall r | 0 <= r < nproc :: sendCounts[r] == Count(ranks, r) && sendOffsets[r] == Below(ranks, r))
      && totalSend == Below(ranks, nproc)
      && forall i | 0 <= i < nInput :: sendPerm[i] == Slot(ranks, nproc, i)
    }

    /** incoming is what the all-to-all exchange of the counts returned. */
    constructor (nproc: nat, exportRanks: seq<int>, incoming: seq<nat>)
      requires nproc > 0 && |incoming| == nproc
      ensures For(exportRanks) && this.nproc == nproc
      ensures recvCounts == incoming && |recvOffsets| == nproc && totalRecv == PrefixSum(incoming, nproc)
      ensures forall r | 0 <= r < nproc :: recvOffsets[r] == PrefixSum(incoming, r)
    {
      var counts := CountDestinations(nproc, exportRanks);
      var offsets := PrefixOffsets(nproc, counts);
      forall r | 0 <= r <= nproc ensures PrefixSum(counts, r) == Below(exportRanks, r) { PrefixIsBelow(exportRanks, counts, r); }
      hide Below, Count;
      var landing := PrefixOffsets(nproc, incoming);
      var perm := FillPermutation(nproc, exportRanks, offsets);
      this.nproc, nInput, sendCounts, sendOffsets := nproc, |exportRanks|, counts, offsets;
      totalSend := offsets[nproc - 1] + counts[nproc - 1];
      recvCounts, recvOffsets := incoming, landing;
      totalRecv := landing[nproc - 1] + incoming[nproc - 1];
      sendPerm := perm;
    }
  }
}
