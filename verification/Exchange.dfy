/** The all-to-all exchange over all ranks: nothing is lost or invented, and arrivals
    are ordered by source rank and by index on it. */
module Exchange {
  import opened Arithmetic
  import opened Distribution

  /** What rank b has received from the first k ranks. */
  ghost function Received<T>(srcs: seq<seq<T>>, dests: seq<seq<int>>, b: nat, k: nat): seq<T>
    requires k <= |srcs| == |dests| && forall a | 0 <= a < |srcs| :: |srcs[a]| == |dests[a]|
  {
    if k == 0 then [] else Received(srcs, dests, b, k - 1) + Select(srcs[k - 1], dests[k - 1], b)
  }

  ghost predicate Shaped<T>(srcs: seq<seq<T>>, dests: seq<seq<int>>) {
    |srcs| == |dests| && forall a | 0 <= a < |srcs| :: |srcs[a]| == |dests[a]|
  }

  /** Rank b's buffer after the exchange: message by message what each source packed for it. */
  lemma {:induction false} ExchangeDelivers<T>(srcs: seq<seq<T>>, dests: seq<seq<int>>, b: nat, incoming: seq<nat>, dst: seq<T>, k: nat)
    requires Shaped(srcs, dests) && b < |srcs| && |incoming| == |srcs| && k <= |srcs|
    requires forall a | 0 <= a < |srcs| :: incoming[a] == Count(dests[a], b)
    requires |dst| == PrefixSum(incoming, |srcs|)
    requires forall a | 0 <= a < |srcs| :: Arrives(srcs[a], dests[a], |srcs|, b, dst, PrefixSum(incoming, a))
    ensures PrefixSum(incoming, k) <= |dst| && dst[..PrefixSum(incoming, k)] == Received(srcs, dests, b, k)
  {
    hide *;
    ReceivedStep(srcs, dests, b, incoming, k);
    PrefixMonotone(incoming, k, |incoming|);
    if k > 0 {
      var lo, hi := PrefixSum(incoming, k - 1), PrefixSum(incoming, k);
      ExchangeDelivers(srcs, dests, b, incoming, dst, k - 1);
      MessageIs(srcs[k - 1], dests[k - 1], |srcs|, b, dst, lo);
      JoinSlices(dst, lo, hi);
    }
  }

  lemma ReceivedStep<T>(srcs: seq<seq<T>>, dests: seq<seq<int>>, b: nat, incoming: seq<nat>, k: nat)
    requires Shaped(srcs, dests) && |incoming| == |srcs| && k <= |srcs|
    ensures |srcs| == |dests| && forall a | 0 <= a < |srcs| :: |srcs[a]| == |dests[a]|
    ensures k == 0 ==> PrefixSum(incoming, k) == 0 && Received(srcs, dests, b, k) == []
    ensures k > 0 ==> PrefixSum(incoming, k) == PrefixSum(incoming, k - 1) + incoming[k - 1]
    ensures k > 0 ==> Received(srcs, dests, b, k) == Received(srcs, dests, b, k - 1) + Select(srcs[k - 1], dests[k - 1], b)
  {
    hide Select;
  }

  lemma JoinSlices<T>(s: seq<T>, lo: nat, hi: nat)
    requires lo <= hi <= |s|
    ensures s[..hi] == s[..lo] + s[lo..hi]
  {
  }

  lemma MessageIs<T>(src: seq<T>, ranks: seq<int>, nproc: nat, b: nat, dst: seq<T>, offset: nat)
    requires |src| == |ranks| && b < nproc && Arrives(src, ranks, nproc, b, dst, offset)
    ensures offset + Count(ranks, b) <= |dst| && dst[offset..offset + Count(ranks, b)] == Select(src, ranks, b)
  {
    PackedGroup(src, ranks, nproc, b);
    hide Packed, Select, Count, Below;
  }

  /** The exchange copies the message a rank packed for b to b's buffer at offset. */
  ghost predicate Arrives<T>(src: seq<T>, ranks: seq<int>, nproc: nat, b: nat, dst: seq<T>, offset: nat)
    requires |src| == |ranks|
  {
    var lo, hi := Below(ranks, b), Below(ranks, b + 1);
    && hi == lo + Count(ranks, b) && hi <= |Packed(src, ranks, nproc)| && offset + Count(ranks, b) <= |dst|
    && dst[offset..offset + Count(ranks, b)] == Packed(src, ranks, nproc)[lo..hi]
  }

  /** The elements of one rank whose destination is a rank. */
  ghost function Addressed<T>(src: seq<T>, ranks: seq<int>, nproc: nat): multiset<T>
    requires |src| == |ranks|
  {
    if src == [] then multiset{}
    else Addressed(src[..|src| - 1], ranks[..|ranks| - 1], nproc) + if 0 <= ranks[|ranks| - 1] < nproc then multiset{src[|src| - 1]} else multiset{}
  }

  ghost function AllAddressed<T>(srcs: seq<seq<T>>, dests: seq<seq<int>>, nproc: nat, k: nat): multiset<T>
    requires Shaped(srcs, dests) && k <= |srcs|
  {
    if k == 0 then multiset{} else AllAddressed(srcs, dests, nproc, k - 1) + Addressed(srcs[k - 1], dests[k - 1], nproc)
  }

  /** What the ranks below nproc received together. */
  ghost function AllReceived<T>(srcs: seq<seq<T>>, dests: seq<seq<int>>, nproc: nat, k: nat): multiset<T>
    requires Shaped(srcs, dests) && k <= |srcs|
  {
    if nproc == 0 then multiset{} else AllReceived(srcs, dests, nproc - 1, k) + multiset(Received(srcs, dests, nproc - 1, k))
  }

  lemma {:induction false} OneMoreRank<T>(src: seq<T>, ranks: seq<int>, nproc: nat)
    requires |src| == |ranks|
    ensures Addressed(src, ranks, nproc + 1) == Addressed(src, ranks, nproc) + multiset(Select(src, ranks, nproc))
  {
    if src != [] {
      OneMoreRank(src[..|src| - 1], ranks[..|ranks| - 1], nproc);
    }
  }

  lemma {:induction false} OneMoreRankEverywhere<T>(srcs: seq<seq<T>>, dests: seq<seq<int>>, nproc: nat, k: nat)
    requires Shaped(srcs, dests) && k <= |srcs|
    ensures AllAddressed(srcs, dests, nproc + 1, k) == AllAddressed(srcs, dests, nproc, k) + multiset(Received(srcs, dests, nproc, k))
  {
    hide Select, Addressed;
    if k > 0 {
      OneMoreRankEverywhere(srcs, dests, nproc, k - 1);
      OneMoreRank(srcs[k - 1], dests[k - 1], nproc);
    }
  }

  lemma {:induction false} NoneAddressed<T>(src: seq<T>, ranks: seq<int>)
    requires |src| == |ranks|
    ensures Addressed(src, ranks, 0) == multiset{}
  {
    if src != [] { NoneAddressed(src[..|src| - 1], ranks[..|ranks| - 1]); }
  }

  lemma {:induction false} NoneAddressedEverywhere<T>(srcs: seq<seq<T>>, dests: seq<seq<int>>, k: nat)
    requires Shaped(srcs, dests) && k <= |srcs|
    ensures AllAddressed(srcs, dests, 0, k) == multiset{}
  {
    if k > 0 {
      NoneAddressedEverywhere(srcs, dests, k - 1);
      NoneAddressed(srcs[k - 1], dests[k - 1]);
    }
  }

  /** Conservation: together the ranks receive exactly the validly addressed elements. */
  lemma {:induction false} ExchangeConserves<T>(srcs: seq<seq<T>>, dests: seq<seq<int>>, nproc: nat, k: nat)
    requires Shaped(srcs, dests) && k <= |srcs|
    ensures AllReceived(srcs, dests, nproc, k) == AllAddressed(srcs, dests, nproc, k)
  {
    hide Received, AllAddressed;
    if nproc == 0 {
      NoneAddressedEverywhere(srcs, dests, k);
    } else {
      ExchangeConserves(srcs, dests, nproc - 1, k);
      OneMoreRankEverywhere(srcs, dests, nproc - 1, k);
    }
  }

  /** Where an element came from. */
  datatype Origin = Origin(source: nat, index: nat)

  ghost predicate Earlier(x: Origin, y: Origin) {
    x.source < y.source || (x.source == y.source && x.index < y.index)
  }

  /** srcs labelled by origin. */
  ghost predicate Labelled(srcs: seq<seq<Origin>>) {
    forall a, i | 0 <= a < |srcs| && 0 <= i < |srcs[a]| :: srcs[a][i] == Origin(a, i)
  }

  lemma {:induction false} SelectOrdered(src: seq<Origin>, ranks: seq<int>, b: int, a: nat)
    requires |src| == |ranks| && forall i | 0 <= i < |src| :: src[i] == Origin(a, i)
    ensures forall m | 0 <= m < |Select(src, ranks, b)| :: Select(src, ranks, b)[m].source == a && Select(src, ranks, b)[m].index < |src|
    ensures forall m, n | 0 <= m < n < |Select(src, ranks, b)| :: Earlier(Select(src, ranks, b)[m], Select(src, ranks, b)[n])
  {
    if src != [] { SelectOrdered(src[..|src| - 1], ranks[..|ranks| - 1], b, a); }
  }

  /** Arrivals are in the order of source rank, and of index within one source. */
  lemma {:induction false} ArrivalsOrdered(srcs: seq<seq<Origin>>, dests: seq<seq<int>>, b: nat, k: nat)
    requires Shaped(srcs, dests) && Labelled(srcs) && k <= |srcs|
    ensures forall m | 0 <= m < |Received(srcs, dests, b, k)| :: Received(srcs, dests, b, k)[m].source < k
    ensures forall m, n | 0 <= m < n < |Received(srcs, dests, b, k)| :: Earlier(Received(srcs, dests, b, k)[m], Received(srcs, dests, b, k)[n])
  {
    hide Select;
    if k > 0 {
      ArrivalsOrdered(srcs, dests, b, k - 1);
      SelectOrdered(srcs[k - 1], dests[k - 1], b, k - 1);
    }
  }

  ghost function Mapped<T, U>(f: T -> U, s: seq<T>): (t: seq<U>)
    ensures |t| == |s| && forall i | 0 <= i < |s| :: t[i] == f(s[i])
  {
    seq(|s|, i requires 0 <= i < |s| => f(s[i]))
  }

  /** Fields migrated one by one with the same plan stay together. */
  lemma {:induction false} FieldsStayTogether<T, U>(f: T -> U, src: seq<T>, ranks: seq<int>, b: int)
    requires |src| == |ranks|
    ensures Select(Mapped(f, src), ranks, b) == Mapped(f, Select(src, ranks, b))
  {
    if src != [] {
      var n := |src| - 1;
      FieldsStayTogether(f, src[..n], ranks[..n], b);
      assert Mapped(f, src)[..n] == Mapped(f, src[..n]);
    }
  }
}
