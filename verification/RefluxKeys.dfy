/** Numbering of the slots of the refluxing buffers. Every rank collects the keys it
    sends to and receives from each other rank, sorts and deduplicates them, and takes
    the positions as buffer ids; nothing is negotiated. */
module RefluxKeys {
  import opened Ordering
  import opened Ranks

  /** A face or edge element of a quadrant. */
  datatype Key = Key(qid: nat, elem: nat)

  predicate Less(a: Key, b: Key) {
    a.qid < b.qid || (a.qid == b.qid && a.elem < b.elem)
  }

  /** One element to pack: its buffer id in the message for a rank. */
  datatype SendDesc = SendDesc(rank: nat, bufId: nat, qid: nat, elem: nat)

  predicate SendLess(a: SendDesc, b: SendDesc) {
    || a.rank < b.rank
    || (a.rank == b.rank && (a.bufId < b.bufId
       || (a.bufId == b.bufId && (a.qid < b.qid || (a.qid == b.qid && a.elem < b.elem)))))
  }

  lemma KeyOrder()
    ensures StrictTotal(Less) && StrictTotal(SendLess)
  {
  }

  /** The slot of key k among the keys exchanged with one rank. */
  ghost function SlotOf(keys: set<Key>, k: Key): nat {
    Slot(Less, keys, k)
  }

  /** Slots ascend with the quadrant and, within one, with the element. */
  lemma SlotsAscend(keys: set<Key>, a: Key, b: Key)
    requires a in keys && b in keys
    ensures SlotOf(keys, a) < SlotOf(keys, b) <==> a.qid < b.qid || (a.qid == b.qid && a.elem < b.elem)
  {
    KeyOrder();
    hide StrictTotal, Slot;
    SlotOrder(Less, keys, a, b);
  }

  ghost function Union<D(!new), T>(f: D -> set<T>, s: seq<D>): set<T> {
    if s == [] then {} else Union(f, s[..|s| - 1]) + f(s[|s| - 1])
  }

  lemma {:induction false} InUnion<D(!new), T>(f: D -> set<T>, s: seq<D>, x: T)
    ensures x in Union(f, s) <==> exists d :: d in s && x in f(d)
  {
    if s != [] {
      InUnion(f, s[..|s| - 1], x);
      assert s == s[..|s| - 1] + [s[|s| - 1]];
    }
  }

  lemma UnionStep<D(!new), T>(f: D -> set<T>, s: seq<D>, n: nat)
    requires n < |s|
    ensures Union(f, s[..n + 1]) == Union(f, s[..n]) + f(s[n])
  {
    assert s[..n + 1][..n] == s[..n];
  }

  /** Append key k to the vector for rank b. */
  method Push(keys: seq<seq<Key>>, b: nat, k: Key) returns (keys': seq<seq<Key>>)
    requires b < |keys|
    ensures |keys'| == |keys|
    ensures forall c | 0 <= c < |keys| :: Elements(keys'[c]) == Elements(keys[c]) + if c == b then {k} else {}
  {
    keys' := keys[b := keys[b] + [k]];
    assert Elements(keys[b] + [k]) == Elements(keys[b]) + {k};
  }

  /** index gives every key its slot. */
  ghost predicate Indexes(index: map<Key, nat>, keys: set<Key>) {
    index.Keys == keys && forall k | k in keys :: index[k] == SlotOf(keys, k)
  }

  /** lookup and counts number, for every rank, the keys in keys. */
  ghost predicate Numbered(keys: seq<set<Key>>, lookup: seq<map<Key, nat>>, counts: seq<nat>) {
    && |lookup| == |counts| == |keys|
    && forall r | 0 <= r < |keys| ::
         Indexes(lookup[r], keys[r]) && counts[r] == |keys[r]|
  }

  ghost function KeySets(keys: seq<seq<Key>>): (s: seq<set<Key>>)
    ensures |s| == |keys| && forall r | 0 <= r < |keys| :: s[r] == Elements(keys[r])
  {
    seq(|keys|, r requires 0 <= r < |keys| => Elements(keys[r]))
  }

  method SortAndDedup(keys: seq<seq<Key>>) returns (lookup: seq<map<Key, nat>>, counts: seq<nat>)
    ensures Numbered(KeySets(keys), lookup, counts)
  {
    KeyOrder();
    hide StrictTotal, Increasing, Slot;
    lookup, counts := [], [];
    for r := 0 to |keys|
      invariant Numbered(KeySets(keys)[..r], lookup, counts)
    {
      var vec := SortUnique(Less, keys[r]);
      DistinctCount(Less, vec);
      var index := Index(Less, vec);
      lookup, counts := lookup + [index], counts + [|vec|];
    }
    assert KeySets(keys)[..|keys|] == KeySets(keys);
  }

  /** The elements of a message of count slots. */
  function MessageSize(count: nat, size: nat): nat { count * size }

  /** Where the message for rank r starts: the sizes of the messages before it. */
  ghost function Offset(counts: seq<nat>, size: nat, r: nat): nat
    requires r <= |counts|
  {
    if r == 0 then 0 else Offset(counts, size, r - 1) + MessageSize(counts[r - 1], size)
  }

  /** Element t of the message that starts at offset. */
  ghost function Element(buf: seq<real>, offset: nat, t: nat): real {
    if offset + t < |buf| then buf[offset + t] else 0.0
  }

  method OffsetsAndSizes(counts: seq<nat>, size: nat) returns (total: nat, sizes: seq<nat>, offsets: seq<nat>)
    ensures |sizes| == |offsets| == |counts|
    ensures total == Offset(counts, size, |counts|)
    ensures forall r | 0 <= r < |counts| :: sizes[r] == MessageSize(counts[r], size) && offsets[r] == Offset(counts, size, r)
  {
    hide MessageSize;
    sizes, offsets, total := [], [], 0;
    for r := 0 to |counts|
      invariant |sizes| == r && total == Offset(counts, size, r)
      invariant forall t | 0 <= t < r :: sizes[t] == MessageSize(counts[t], size)
    {
      total := total + MessageSize(counts[r], size);
      sizes := sizes + [MessageSize(counts[r], size)];
    }
    for r := 0 to |counts|
      invariant |offsets| == r
      invariant forall t | 0 <= t < r :: offsets[t] == Offset(counts, size, t)
    {
      offsets := offsets + [if r == 0 then 0 else offsets[r - 1] + sizes[r - 1]];
    }
  }

  /** The intervals [Offset(r), Offset(r) + counts[r] size) follow each other. */
  lemma {:induction false} OffsetMonotone(counts: seq<nat>, size: nat, r: nat, t: nat)
    requires r < t <= |counts|
    ensures Offset(counts, size, r) + MessageSize(counts[r], size) <= Offset(counts, size, t)
  {
    hide MessageSize;
    if r < t - 1 { OffsetMonotone(counts, size, r, t - 1); }
  }

  /** Every position of the buffer belongs to exactly one message: the messages tile [0, total). */
  lemma {:induction false} MessagesTile(counts: seq<nat>, size: nat, x: nat) returns (r: nat)
    requires x < Offset(counts, size, |counts|)
    ensures r < |counts| && Offset(counts, size, r) <= x < Offset(counts, size, r) + MessageSize(counts[r], size)
    ensures forall t | 0 <= t < |counts| && t != r :: !(Offset(counts, size, t) <= x < Offset(counts, size, t) + MessageSize(counts[t], size))
  {
    hide MessageSize;
    r := 0;
    while x >= Offset(counts, size, r + 1)
      invariant r < |counts| && Offset(counts, size, r) <= x
      decreases |counts| - r
    {
      r := r + 1;
    }
    forall t | 0 <= t < |counts| && t != r
      ensures !(Offset(counts, size, t) <= x < Offset(counts, size, t) + MessageSize(counts[t], size))
    {
      if t < r { OffsetMonotone(counts, size, t, r); } else { OffsetMonotone(counts, size, r, t); }
    }
  }

  /** Data of a quadrant that crosses ranks, and the key element both sides derive for it. */
  datatype Transfer = Transfer(q: nat, elem: nat)

  ghost function SenderKey(P: Partition): (f: Transfer -> Key)
    ensures forall t :: f(t) == Key(P.lid(t.q), t.elem)
  {
    (t: Transfer) => Key(P.lid(t.q), t.elem)
  }

  ghost function ReceiverKey(P: Partition, B: nat): (f: Transfer -> Key)
    ensures forall t :: f(t) == Key(P.view(B, t.q), t.elem)
  {
    (t: Transfer) => Key(P.view(B, t.q), t.elem)
  }

  /** The sender's and the receiver's numbering compare transfers alike. */
  lemma NumberingsCompareAlike(P: Partition, nq: nat, A: nat, B: nat, s: set<Transfer>)
    requires P.Valid(nq) && forall t | t in s :: t.q < nq && P.owner(t.q) == A
    ensures forall x, y | x in s && y in s :: Less(SenderKey(P)(x), SenderKey(P)(y)) <==> Less(ReceiverKey(P, B)(x), ReceiverKey(P, B)(y))
  {
    forall x, y | x in s && y in s
      ensures Less(SenderKey(P)(x), SenderKey(P)(y)) <==> Less(ReceiverKey(P, B)(x), ReceiverKey(P, B)(y))
    {
      assert P.lid(x.q) < P.lid(y.q) ==> P.view(B, x.q) < P.view(B, y.q);
      assert P.lid(y.q) < P.lid(x.q) ==> P.view(B, y.q) < P.view(B, x.q);
      assert P.lid(x.q) == P.lid(y.q) ==> x.q == y.q;
    }
  }

  /** If what A sends to B and what B receives from A are one set of transfers, each numbered
      its own way, both sides agree on the message size and on every slot, and no slot is shared. */
  lemma KeysAgree(P: Partition, nq: nat, A: nat, B: nat, s: set<Transfer>)
    requires P.Valid(nq) && forall t | t in s :: t.q < nq && P.owner(t.q) == A
    ensures var snd, rcv := Image(SenderKey(P), s), Image(ReceiverKey(P, B), s);
      && |snd| == |rcv|
      && (forall t | t in s :: SlotOf(snd, SenderKey(P)(t)) == SlotOf(rcv, ReceiverKey(P, B)(t)) < |snd|)
      && (forall t, u | t in s && u in s && SlotOf(snd, SenderKey(P)(t)) == SlotOf(snd, SenderKey(P)(u)) :: t == u)
  {
    KeyOrder();
    NumberingsCompareAlike(P, nq, A, B, s);
    var f, snd := SenderKey(P), Image(SenderKey(P), s);
    forall t, u | t in s && u in s && SlotOf(snd, f(t)) == SlotOf(snd, f(u)) ensures t == u {
      SlotInjective(Less, snd, f(t), f(u));
    }
    forall t | t in s ensures SlotOf(snd, f(t)) < |snd| {
      SlotBound(Less, snd, f(t));
    }
    hide StrictTotal, Slot, Image;
    SlotsAgree(Less, s, f, ReceiverKey(P, B));
  }
}
