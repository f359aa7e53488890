/** The builder of the ghost-zone exchange: keys are inserted call by call, numbered in
    sorted order, and the numbers written into the descriptors the packing kernels read. */
module HaloBuilder {
  import opened Ordering
  import opened Ranks
  import opened HaloKeys

  /** A descriptor: element e of group g of local quadrant iq. */
  datatype Desc = Desc(iq: nat, group: nat, e: nat)

  /** One call of append_keys: the request and the descriptor it came from. */
  datatype Call = Call(req: Request, desc: Desc)

  /** A buffer-id field of a descriptor: per child, and separately for coarse-buffer exchanges. */
  datatype Cell = Cell(desc: Desc, slot: nat, p2p: bool)

  /** A packing kernel for one child of a coarse element. */
  datatype Task = Task(rank: nat, desc: Desc, child: nat)

  /** The child index of the first call with key k. */
  ghost function FirstChild(r: nat, calls: seq<Call>, k: Ident): nat {
    if calls == [] then 0
    else
      var n := |calls| - 1;
      if (exists c :: c in calls[..n] && MirrorKey(r, c.req) == k) || MirrorKey(r, calls[n].req) != k
      then FirstChild(r, calls[..n], k) else calls[n].req.child
  }

  ghost function KeysOf(r: nat, calls: seq<Call>): set<Ident> { set c | c in calls :: MirrorKey(r, c.req) }

  /** The descriptors recorded under key k, in call order. */
  ghost function DescsOf(r: nat, calls: seq<Call>, k: Ident): seq<Desc> {
    if calls == [] then []
    else DescsOf(r, calls[..|calls| - 1], k) + if MirrorKey(r, calls[|calls| - 1].req) == k then [calls[|calls| - 1].desc] else []
  }

  /** A call for one child of a finer neighbour. */
  predicate Finer(c: Call) { c.req.hKind == c.req.mKind + 3 && !c.req.p2p }

  ghost function Tasks(calls: seq<Call>): seq<Task> {
    if calls == [] then []
    else Tasks(calls[..|calls| - 1]) + if Finer(calls[|calls| - 1]) then [Task(calls[|calls| - 1].req.other, calls[|calls| - 1].desc, calls[|calls| - 1].req.child)] else []
  }

  /** A counter that starts at zero. */
  function CountOf(counts: map<(nat, nat), nat>, kind: nat, rank: nat): nat {
    if (kind, rank) in counts then counts[(kind, rank)] else 0
  }

  lemma CountPut(counts: map<(nat, nat), nat>, kind: nat, rank: nat)
    ensures forall k: nat, q: nat :: CountOf(counts[(kind, rank) := CountOf(counts, kind, rank) + 1], k, q)
              == CountOf(counts, k, q) + if k == kind && q == rank then 1 else 0
  {
  }

  lemma KeyIs(r: nat, c: Call, key: Ident)
    requires key == Ident(c.req.other, c.req.mKind, c.req.miq, if c.req.other < r then c.req.otherElem else c.req.thisElem, c.req.p2p)
    ensures MirrorKey(r, c.req) == key
  {
  }

  lemma CallStep(r: nat, calls: seq<Call>, c: Call)
    ensures var key := MirrorKey(r, c.req);
      && KeysOf(r, calls + [c]) == KeysOf(r, calls) + {key}
      && (forall k :: FirstChild(r, calls + [c], k) == if k == key && key !in KeysOf(r, calls) then c.req.child else FirstChild(r, calls, k))
      && (forall k :: DescsOf(r, calls + [c], k) == DescsOf(r, calls, k) + if k == key then [c.desc] else [])
      && Tasks(calls + [c]) == Tasks(calls) + if Finer(c) then [Task(c.req.other, c.desc, c.req.child)] else []
  {
    assert (calls + [c])[..|calls|] == calls;
  }

  class Builder {
    var rank: nat
    /** Keys with the slot of their first insertion, and the descriptors inserted under each. */
    var mirror: map<Ident, nat>
    var mirrorDescs: map<Ident, seq<Desc>>
    var packFiner: seq<Task>
    /** Numbers per section and rank, and the buffer ids written. */
    var counts: map<(nat, nat), nat>
    var sendIds: map<Cell, nat>

    ghost predicate Holds(calls: seq<Call>)
      reads this
    {
      && mirror.Keys == KeysOf(rank, calls) && mirrorDescs.Keys == mirror.Keys
      && (forall k | k in mirror :: mirror[k] == FirstChild(rank, calls, k) && mirrorDescs[k] == DescsOf(rank, calls, k))
      && packFiner == Tasks(calls)
    }

    constructor (rank: nat)
      ensures Holds([]) && this.rank == rank && counts == map[] && sendIds == map[]
    {
      this.rank := rank;
      mirror, mirrorDescs, packFiner, counts, sendIds := map[], map[], [], map[], map[];
    }

    /** Insert the key of a call; a key that is there keeps its slot and gains a descriptor. */
    method AppendKeys(c: Call, ghost calls: seq<Call>)
      requires Holds(calls)
      modifies this
      ensures Holds(calls + [c]) && rank == old(rank) && counts == old(counts) && sendIds == old(sendIds)
    {
      CallStep(rank, calls, c);
      hide KeysOf, FirstChild, DescsOf, Tasks, MirrorKey;
      var e := if c.req.other < rank then c.req.otherElem else c.req.thisElem;
      var key := Ident(c.req.other, c.req.mKind, c.req.miq, e, c.req.p2p);
      KeyIs(rank, c, key);
      NoDescs(rank, calls, key);
      if key !in mirror {
        mirror := mirror[key := c.req.child];
        mirrorDescs := mirrorDescs[key := [c.desc]];
      } else {
        mirrorDescs := mirrorDescs[key := mirrorDescs[key] + [c.desc]];
      }
      if Finer(c) { packFiner := packFiner + [Task(c.req.other, c.desc, c.req.child)]; }
    }

    /** Number the keys section by section in their sorted order, and write each number into
        the cell that the key's slot names in every descriptor recorded under it. */
    method NumberKeys(keys: seq<Ident>, ghost calls: seq<Call>)
      requires Holds(calls) && Increasing(KeyLess, keys) && Elements(keys) == mirror.Keys && CellsApart(rank, calls)
      requires counts == map[] && sendIds == map[]
      modifies this`counts, this`sendIds
      ensures Holds(calls)
      ensures forall k | k in mirror :: (k.kind, k.rank) in counts && counts[(k.kind, k.rank)] == |Section(mirror.Keys, k.rank, k.kind)|
      ensures forall k, d | k in mirror && d in mirrorDescs[k] :: Cell(d, mirror[k], k.p2p) in sendIds && sendIds[Cell(d, mirror[k], k.p2p)] == Number(mirror.Keys, k)
    {
      KeyLessIsStrictTotal();
      hide StrictTotal, Increasing, Number, Section, KeyLess, Elements, KeysOf, FirstChild, DescsOf, Tasks;
      for n := 0 to |keys|
        invariant Holds(calls)
        invariant forall q: nat, kind: nat :: CountOf(counts, kind, q) == CountIn(keys[..n], q, kind)
        invariant forall m | 0 <= m < n :: (keys[m].kind, keys[m].rank) in counts
        invariant forall m, d | 0 <= m < n && keys[m] in mirror && d in mirrorDescs[keys[m]] ::
                    Cell(d, mirror[keys[m]], keys[m].p2p) in sendIds && sendIds[Cell(d, mirror[keys[m]], keys[m].p2p)] == Number(mirror.Keys, keys[m])
      {
        var key := keys[n];
        KeyAt(keys, n);
        var count := CountOf(counts, key.kind, key.rank);
        NumberIs(keys, n);
        CountStep(keys, n);
        CellsKept(rank, calls, keys, n);
        sendIds := WriteAll(sendIds, mirrorDescs[key], mirror[key], key.p2p, count);
        CountPut(counts, key.kind, key.rank);
        hide CountOf;
        ghost var was := counts;
        counts := counts[(key.kind, key.rank) := count + 1];
        forall q: nat, kind: nat ensures CountOf(counts, kind, q) == CountIn(keys[..n + 1], q, kind) {
          assert CountOf(counts, kind, q) == CountOf(was, kind, q) + if kind == key.kind && q == key.rank then 1 else 0;
          assert CountOf(was, kind, q) == CountIn(keys[..n], q, kind);
          assert CountIn(keys[..n + 1], q, kind) == CountIn(keys[..n], q, kind) + if key.rank == q && key.kind == kind then 1 else 0;
        }
      }
      assert keys[..|keys|] == keys;
      forall k | k in mirror
        ensures (k.kind, k.rank) in counts && counts[(k.kind, k.rank)] == |Section(mirror.Keys, k.rank, k.kind)|
        ensures exists m :: 0 <= m < |keys| && keys[m] == k
      {
        InElements(keys, k);
        CountAll(keys, k.rank, k.kind);
      }
    }
  }

  lemma KeyAt(keys: seq<Ident>, n: nat)
    requires n < |keys|
    ensures keys[n] in Elements(keys)
  {
  }

  lemma InElements(keys: seq<Ident>, k: Ident)
    requires k in Elements(keys)
    ensures exists m :: 0 <= m < |keys| && keys[m] == k
  {
  }

  /** register_index for every descriptor of one key. */
  method WriteAll(ids: map<Cell, nat>, descs: seq<Desc>, slot: nat, p2p: bool, count: nat) returns (ids': map<Cell, nat>)
    ensures forall d | d in descs :: Cell(d, slot, p2p) in ids' && ids'[Cell(d, slot, p2p)] == count
    ensures forall x | x in ids && !(x.slot == slot && x.p2p == p2p && x.desc in descs) :: x in ids' && ids'[x] == ids[x]
  {
    ids' := ids;
    for m := 0 to |descs|
      invariant forall d | d in descs[..m] :: Cell(d, slot, p2p) in ids' && ids'[Cell(d, slot, p2p)] == count
      invariant forall x | x in ids && !(x.slot == slot && x.p2p == p2p && x.desc in descs[..m]) :: x in ids' && ids'[x] == ids[x]
    {
      ids' := ids'[Cell(descs[m], slot, p2p) := count];
    }
    assert descs[..|descs|] == descs;
  }

  /** Different keys write different cells. */
  ghost predicate CellsApart(r: nat, calls: seq<Call>) {
    forall k, j, d | k in KeysOf(r, calls) && j in KeysOf(r, calls) && d in DescsOf(r, calls, k) && d in DescsOf(r, calls, j)
                  && FirstChild(r, calls, k) == FirstChild(r, calls, j) && k.p2p == j.p2p :: k == j
  }

  lemma CellsKept(r: nat, calls: seq<Call>, keys: seq<Ident>, n: nat)
    requires Increasing(KeyLess, keys) && Elements(keys) == KeysOf(r, calls) && CellsApart(r, calls) && n < |keys|
    ensures forall m, d | 0 <= m < n && d in DescsOf(r, calls, keys[m]) && d in DescsOf(r, calls, keys[n])
              && FirstChild(r, calls, keys[m]) == FirstChild(r, calls, keys[n]) :: keys[m].p2p != keys[n].p2p
  {
    KeyLessIsStrictTotal();
    hide DescsOf, FirstChild, KeysOf;
    forall m, d | 0 <= m < n && d in DescsOf(r, calls, keys[m]) && d in DescsOf(r, calls, keys[n])
        && FirstChild(r, calls, keys[m]) == FirstChild(r, calls, keys[n]) ensures keys[m].p2p != keys[n].p2p {
      assert keys[m] in Elements(keys) && keys[n] in Elements(keys) && KeyLess(keys[m], keys[n]);
    }
  }

  /** How many of the keys belong to one section. */
  ghost function CountIn(keys: seq<Ident>, rank: nat, kind: nat): nat {
    if keys == [] then 0
    else CountIn(keys[..|keys| - 1], rank, kind) + if keys[|keys| - 1].rank == rank && keys[|keys| - 1].kind == kind then 1 else 0
  }

  lemma CountStep(keys: seq<Ident>, n: nat)
    requires n < |keys|
    ensures forall rank, kind :: CountIn(keys[..n + 1], rank, kind) == CountIn(keys[..n], rank, kind) + if keys[n].rank == rank && keys[n].kind == kind then 1 else 0
  {
    assert keys[..n + 1][..n] == keys[..n];
  }

  lemma {:induction false} CountAll(keys: seq<Ident>, rank: nat, kind: nat)
    requires StrictTotal(KeyLess) && Increasing(KeyLess, keys)
    ensures CountIn(keys, rank, kind) == |Section(Elements(keys), rank, kind)|
  {
    hide KeyLess;
    if keys != [] {
      var n := |keys| - 1;
      var key := keys[n];
      CountAll(keys[..n], rank, kind);
      assert key !in keys[..n];
      assert Section(Elements(keys), rank, kind)
          == Section(Elements(keys[..n]), rank, kind) + if key.rank == rank && key.kind == kind then {key} else {};
    }
  }

  /** The running count of a section is the number of the next key in it. */
  lemma NumberIs(keys: seq<Ident>, n: nat)
    requires StrictTotal(KeyLess) && Increasing(KeyLess, keys) && n < |keys|
    ensures Number(Elements(keys), keys[n]) == CountIn(keys[..n], keys[n].rank, keys[n].kind)
  {
    var key := keys[n];
    CountAll(keys[..n], key.rank, key.kind);
    hide KeyLess;
    var all, low := Section(Elements(keys), key.rank, key.kind), Section(Elements(keys[..n]), key.rank, key.kind);
    forall k | k in Below(KeyLess, all, key) ensures k in low {
      var m :| 0 <= m < |keys| && keys[m] == k;
      assert m != n;
      assert keys[m] in keys[..n] || m > n;
    }
    forall k | k in low ensures k in Below(KeyLess, all, key) {
      var m :| 0 <= m < n && keys[..n][m] == k;
      assert keys[m] in keys && KeyLess(keys[m], keys[n]);
    }
    assert Below(KeyLess, all, key) == low;
  }

  lemma {:induction false} NoDescs(r: nat, calls: seq<Call>, k: Ident)
    ensures k !in KeysOf(r, calls) ==> DescsOf(r, calls, k) == []
    ensures forall d :: d in DescsOf(r, calls, k) ==> exists c :: c in calls && MirrorKey(r, c.req) == k && c.desc == d
  {
    if calls != [] {
      var n := |calls| - 1;
      NoDescs(r, calls[..n], k);
      assert calls == calls[..n] + [calls[n]];
    }
  }
}
