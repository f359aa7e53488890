/** Refluxing buffers of the coarse-fine faces: what each rank sends and receives,
    and the agreement of the two sides on slots and message sizes. */
module HangingFaces {
  import opened Ordering
  import opened Grid
  import opened Ranks
  import opened RefluxKeys

  /** One of the fine quadrants in a descriptor; bid is its slot in the receive buffer. */
  datatype FineQuad = FineQuad(qid: nat, bid: nat, owner: nat, isRemote: bool)

  datatype HangingDesc = HangingDesc(coarseQid: nat, coarseOwner: nat, coarseIsRemote: bool, coarseFace: nat,
                                     fineFace: nat, fine: seq<FineQuad>)

  /** One coarse face and the fine faces it borders, in global numbers. */
  datatype HangingFace = HangingFace(coarse: FaceRef, fine: seq<FaceRef>)

  /** What the face iterator records on rank r. */
  function DescOf(P: Partition, r: nat, h: HangingFace): HangingDesc {
    HangingDesc(P.Qid(r, h.coarse.q), P.owner(h.coarse.q), P.owner(h.coarse.q) != r, h.coarse.f,
                if h.fine == [] then 0 else h.fine[0].f,
                seq(|h.fine|, n requires 0 <= n < |h.fine| =>
                  FineQuad(P.Qid(r, h.fine[n].q), 0, P.owner(h.fine[n].q), P.owner(h.fine[n].q) != r)))
  }

  function Descs(P: Partition, r: nat, list: seq<HangingFace>): seq<HangingDesc> {
    seq(|list|, n requires 0 <= n < |list| => DescOf(P, r, list[n]))
  }

  ghost predicate InRange(d: HangingDesc, nproc: nat) {
    d.coarseOwner < nproc && forall ic | 0 <= ic < |d.fine| :: d.fine[ic].owner < nproc
  }

  /** Key elements: the face id seen from the smaller of the two ranks. */
  function SendKey(d: HangingDesc, r: nat, ic: nat): Key
    requires ic < |d.fine|
  {
    Key(d.fine[ic].qid, if d.coarseOwner < r then d.coarseFace else d.fineFace)
  }

  function RecvKey(d: HangingDesc, r: nat, ic: nat): Key
    requires ic < |d.fine|
  {
    Key(d.fine[ic].qid, if d.fine[ic].owner < r then d.fineFace else d.coarseFace)
  }

  predicate Sends(d: HangingDesc, ic: nat)
    requires ic < |d.fine|
  {
    d.coarseIsRemote && !d.fine[ic].isRemote
  }

  predicate Receives(d: HangingDesc, ic: nat)
    requires ic < |d.fine|
  {
    !d.coarseIsRemote && d.fine[ic].isRemote
  }

  /** Keys rank r sends to rank b, and receives from it, for the first n fine quadrants of d. */
  ghost function SendKeysUpTo(d: HangingDesc, r: nat, b: nat, n: nat): set<Key>
    requires n <= |d.fine|
  {
    set ic | 0 <= ic < n && Sends(d, ic) && d.coarseOwner == b :: SendKey(d, r, ic)
  }

  ghost function RecvKeysUpTo(d: HangingDesc, r: nat, b: nat, n: nat): set<Key>
    requires n <= |d.fine|
  {
    set ic | 0 <= ic < n && Receives(d, ic) && d.fine[ic].owner == b :: RecvKey(d, r, ic)
  }

  ghost function SendKeys(r: nat, b: nat): (f: HangingDesc -> set<Key>)
    ensures forall d :: f(d) == SendKeysUpTo(d, r, b, |d.fine|)
  {
    (d: HangingDesc) => SendKeysUpTo(d, r, b, |d.fine|)
  }

  ghost function RecvKeys(r: nat, b: nat): (f: HangingDesc -> set<Key>)
    ensures forall d :: f(d) == RecvKeysUpTo(d, r, b, |d.fine|)
  {
    (d: HangingDesc) => RecvKeysUpTo(d, r, b, |d.fine|)
  }

  ghost function AllSendKeys(descs: seq<HangingDesc>, r: nat, b: nat): set<Key> { Union(SendKeys(r, b), descs) }

  ghost function AllRecvKeys(descs: seq<HangingDesc>, r: nat, b: nat): set<Key> { Union(RecvKeys(r, b), descs) }

  lemma KeysStep(d: HangingDesc, r: nat, b: nat, n: nat)
    requires n < |d.fine|
    ensures SendKeysUpTo(d, r, b, n + 1) == SendKeysUpTo(d, r, b, n) + if Sends(d, n) && d.coarseOwner == b then {SendKey(d, r, n)} else {}
    ensures RecvKeysUpTo(d, r, b, n + 1) == RecvKeysUpTo(d, r, b, n) + if Receives(d, n) && d.fine[n].owner == b then {RecvKey(d, r, n)} else {}
  {
  }

  /** The pushes of one descriptor. */
  method CollectOne(r: nat, nproc: nat, d: HangingDesc, snd: seq<seq<Key>>, rcv: seq<seq<Key>>)
    returns (snd': seq<seq<Key>>, rcv': seq<seq<Key>>)
    requires |snd| == |rcv| == nproc && InRange(d, nproc)
    ensures |snd'| == nproc && forall b | 0 <= b < nproc :: Elements(snd'[b]) == Elements(snd[b]) + SendKeysUpTo(d, r, b, |d.fine|)
    ensures |rcv'| == nproc && forall b | 0 <= b < nproc :: Elements(rcv'[b]) == Elements(rcv[b]) + RecvKeysUpTo(d, r, b, |d.fine|)
  {
    snd', rcv' := snd, rcv;
    for ic := 0 to |d.fine|
      invariant |snd'| == nproc && forall b | 0 <= b < nproc :: Elements(snd'[b]) == Elements(snd[b]) + SendKeysUpTo(d, r, b, ic)
      invariant |rcv'| == nproc && forall b | 0 <= b < nproc :: Elements(rcv'[b]) == Elements(rcv[b]) + RecvKeysUpTo(d, r, b, ic)
    {
      hide SendKeysUpTo, RecvKeysUpTo, Elements;
      var f := d.fine[ic];
      forall b { KeysStep(d, r, b, ic); }
      if d.coarseIsRemote && !f.isRemote {
        var elem := if d.coarseOwner < r then d.coarseFace else d.fineFace;
        snd' := Push(snd', d.coarseOwner, Key(f.qid, elem));
      } else if !d.coarseIsRemote && f.isRemote {
        var elem := if f.owner < r then d.fineFace else d.coarseFace;
        rcv' := Push(rcv', f.owner, Key(f.qid, elem));
      }
    }
  }

  /** First pass: collect the keys of every descriptor. */
  method Collect(r: nat, nproc: nat, descs: seq<HangingDesc>) returns (snd: seq<seq<Key>>, rcv: seq<seq<Key>>)
    requires forall n | 0 <= n < |descs| :: InRange(descs[n], nproc)
    ensures |snd| == |rcv| == nproc
    ensures forall b | 0 <= b < nproc :: Elements(snd[b]) == AllSendKeys(descs, r, b) && Elements(rcv[b]) == AllRecvKeys(descs, r, b)
  {
    hide SendKeysUpTo, RecvKeysUpTo, InRange;
    snd, rcv := seq(nproc, _ => []), seq(nproc, _ => []);
    for n := 0 to |descs|
      invariant |snd| == |rcv| == nproc
      invariant forall b | 0 <= b < nproc :: Elements(snd[b]) == Union(SendKeys(r, b), descs[..n])
      invariant forall b | 0 <= b < nproc :: Elements(rcv[b]) == Union(RecvKeys(r, b), descs[..n])
    {
      snd, rcv := CollectOne(r, nproc, descs[n], snd, rcv);
      forall b | 0 <= b < nproc
        ensures Elements(snd[b]) == Union(SendKeys(r, b), descs[..n + 1])
        ensures Elements(rcv[b]) == Union(RecvKeys(r, b), descs[..n + 1])
      {
        UnionStep(SendKeys(r, b), descs, n);
        UnionStep(RecvKeys(r, b), descs, n);
      }
    }
    assert descs[..|descs|] == descs;
  }

  /** The slots rank r gives to fine quadrant ic of descriptor d. */
  ghost function SendSlot(descs: seq<HangingDesc>, r: nat, d: HangingDesc, ic: nat): nat
    requires ic < |d.fine|
  {
    SlotOf(AllSendKeys(descs, r, d.coarseOwner), SendKey(d, r, ic))
  }

  ghost function RecvSlot(descs: seq<HangingDesc>, r: nat, d: HangingDesc, ic: nat): nat
    requires ic < |d.fine|
  {
    SlotOf(AllRecvKeys(descs, r, d.fine[ic].owner), RecvKey(d, r, ic))
  }

  /** What rank r packs for the first n fine quadrants of d: own fine face, slot of the shared key. */
  ghost function MessagesUpTo(descs: seq<HangingDesc>, r: nat, d: HangingDesc, n: nat): set<SendDesc>
    requires n <= |d.fine|
  {
    set ic | 0 <= ic < n && Sends(d, ic) :: SendDesc(d.coarseOwner, SendSlot(descs, r, d, ic), d.fine[ic].qid, d.fineFace)
  }

  ghost function Messages(descs: seq<HangingDesc>, r: nat): (f: HangingDesc -> set<SendDesc>)
    ensures forall d :: f(d) == MessagesUpTo(descs, r, d, |d.fine|)
  {
    (d: HangingDesc) => MessagesUpTo(descs, r, d, |d.fine|)
  }

  /** d' is d with the receive slots of its remote fine quadrants filled in. */
  ghost predicate Slotted(descs: seq<HangingDesc>, r: nat, d: HangingDesc, d': HangingDesc) {
    && d' == d.(fine := d'.fine) && |d'.fine| == |d.fine|
    && forall ic | 0 <= ic < |d.fine| ::
         d'.fine[ic] == if Receives(d, ic) then d.fine[ic].(bid := RecvSlot(descs, r, d, ic)) else d.fine[ic]
  }

  /** The descriptors whose coarse side is local, in order. */
  function CoarseLocal(descs: seq<HangingDesc>): seq<HangingDesc> {
    if descs == [] then []
    else CoarseLocal(descs[..|descs| - 1]) + if descs[|descs| - 1].coarseIsRemote then [] else [descs[|descs| - 1]]
  }

  lemma MessagesStep(descs: seq<HangingDesc>, r: nat, d: HangingDesc, n: nat)
    requires n < |d.fine|
    ensures MessagesUpTo(descs, r, d, n + 1) == MessagesUpTo(descs, r, d, n)
              + if Sends(d, n) then {SendDesc(d.coarseOwner, SendSlot(descs, r, d, n), d.fine[n].qid, d.fineFace)} else {}
  {
  }

  lemma KeyCollected(descs: seq<HangingDesc>, r: nat, d: HangingDesc, ic: nat)
    requires d in descs && ic < |d.fine|
    ensures Sends(d, ic) ==> SendKey(d, r, ic) in AllSendKeys(descs, r, d.coarseOwner)
    ensures Receives(d, ic) ==> RecvKey(d, r, ic) in AllRecvKeys(descs, r, d.fine[ic].owner)
  {
    InUnion(SendKeys(r, d.coarseOwner), descs, SendKey(d, r, ic));
    InUnion(RecvKeys(r, d.fine[ic].owner), descs, RecvKey(d, r, ic));
  }

  /** The remote case: register the packing of every local fine quadrant. */
  method RegisterSends(r: nat, nproc: nat, ghost descs: seq<HangingDesc>, d: HangingDesc, lookup: seq<map<Key, nat>>, snd: seq<SendDesc>)
    returns (snd': seq<SendDesc>)
    requires d in descs && InRange(d, nproc) && |lookup| == nproc
    requires forall b | 0 <= b < nproc :: Indexes(lookup[b], AllSendKeys(descs, r, b))
    requires d.coarseIsRemote
    ensures Elements(snd') == Elements(snd) + MessagesUpTo(descs, r, d, |d.fine|)
  {
    assert MessagesUpTo(descs, r, d, 0) == Elements<SendDesc>([]);
    hide AllSendKeys, AllRecvKeys, MessagesUpTo, SlotOf, Elements;
    snd' := snd;
    ghost var mine := [];
    for ic := 0 to |d.fine|
      invariant snd' == snd + mine && Elements(mine) == MessagesUpTo(descs, r, d, ic)
    {
      MessagesStep(descs, r, d, ic);
      KeyCollected(descs, r, d, ic);
      if !d.fine[ic].isRemote {
        var key := Key(d.fine[ic].qid, if d.coarseOwner < r then d.coarseFace else d.fineFace);
        var msg := SendDesc(d.coarseOwner, lookup[d.coarseOwner][key], d.fine[ic].qid, d.fineFace);
        ElementsAppend(mine, msg);
        snd', mine := snd' + [msg], mine + [msg];
      }
    }
    ElementsConcat(snd, mine);
  }

  /** The local case: write the slot of every remote fine quadrant back into the descriptor. */
  method WriteSlots(r: nat, nproc: nat, ghost descs: seq<HangingDesc>, d: HangingDesc, lookup: seq<map<Key, nat>>)
    returns (d': HangingDesc)
    requires d in descs && InRange(d, nproc) && |lookup| == nproc
    requires forall b | 0 <= b < nproc :: Indexes(lookup[b], AllRecvKeys(descs, r, b))
    requires !d.coarseIsRemote
    ensures Slotted(descs, r, d, d')
  {
    hide AllSendKeys, AllRecvKeys, SlotOf;
    d' := d;
    for ic := 0 to |d.fine|
      invariant d' == d.(fine := d'.fine) && |d'.fine| == |d.fine|
      invariant forall m | 0 <= m < |d.fine| ::
                  d'.fine[m] == if m < ic && Receives(d, m) then d.fine[m].(bid := RecvSlot(descs, r, d, m)) else d.fine[m]
    {
      KeyCollected(descs, r, d, ic);
      if d.fine[ic].isRemote {
        var key := Key(d.fine[ic].qid, if d.fine[ic].owner < r then d.fineFace else d.coarseFace);
        d' := d'.(fine := d'.fine[ic := d'.fine[ic].(bid := lookup[d.fine[ic].owner][key])]);
      }
    }
  }

  /** The surviving descriptors are the coarse-local ones, each with its slots. */
  ghost predicate LocalWithSlots(descs: seq<HangingDesc>, r: nat, part: seq<HangingDesc>, local: seq<HangingDesc>) {
    && |local| == |CoarseLocal(part)|
    && forall n | 0 <= n < |local| :: Slotted(descs, r, CoarseLocal(part)[n], local[n])
  }

  lemma CoarseLocalStep(descs: seq<HangingDesc>, n: nat)
    requires n < |descs|
    ensures CoarseLocal(descs[..n + 1]) == CoarseLocal(descs[..n]) + if descs[n].coarseIsRemote then [] else [descs[n]]
  {
    assert descs[..n + 1][..n] == descs[..n];
  }

  /** Both passes over the descriptors of one rank. */
  method Build(r: nat, nproc: nat, descs: seq<HangingDesc>)
    returns (local: seq<HangingDesc>, snd: seq<SendDesc>, sendCounts: seq<nat>, recvCounts: seq<nat>)
    requires forall n | 0 <= n < |descs| :: InRange(descs[n], nproc)
    ensures LocalWithSlots(descs, r, descs, local)
    ensures Increasing(SendLess, snd) && Elements(snd) == Union(Messages(descs, r), descs)
    ensures |sendCounts| == |recvCounts| == nproc
    ensures forall b | 0 <= b < nproc :: sendCounts[b] == |AllSendKeys(descs, r, b)| && recvCounts[b] == |AllRecvKeys(descs, r, b)|
  {
    KeyOrder();
    hide StrictTotal, Increasing, AllSendKeys, AllRecvKeys, MessagesUpTo, Slotted, InRange, CoarseLocal;
    var sndKeys, rcvKeys := Collect(r, nproc, descs);
    var sendLookup, recvLookup;
    sendLookup, sendCounts := SortAndDedup(sndKeys);
    recvLookup, recvCounts := SortAndDedup(rcvKeys);
    local, snd := [], [];
    assert Elements(snd) == Union(Messages(descs, r), descs[..0]);
    LocalNone(descs, r);
    hide Elements, LocalWithSlots;
    for n := 0 to |descs|
      invariant LocalWithSlots(descs, r, descs[..n], local)
      invariant Elements(snd) == Union(Messages(descs, r), descs[..n])
    {
      var d := descs[n];
      UnionStep(Messages(descs, r), descs, n);
      if d.coarseIsRemote {
        snd := RegisterSends(r, nproc, descs, d, sendLookup, snd);
        LocalStep(descs, r, n, local, d);
      } else {
        NoMessagesIfLocal(descs, r, d);
        var d' := WriteSlots(r, nproc, descs, d, recvLookup);
        LocalStep(descs, r, n, local, d');
        local := local + [d'];
      }
    }
    assert descs[..|descs|] == descs;
    snd := SortUnique(SendLess, snd);
  }

  lemma LocalNone(descs: seq<HangingDesc>, r: nat)
    ensures LocalWithSlots(descs, r, descs[..0], [])
  {
  }

  lemma NoMessagesIfLocal(descs: seq<HangingDesc>, r: nat, d: HangingDesc)
    requires !d.coarseIsRemote
    ensures MessagesUpTo(descs, r, d, |d.fine|) == {}
  {
  }

  lemma LocalStep(descs: seq<HangingDesc>, r: nat, n: nat, local: seq<HangingDesc>, d': HangingDesc)
    requires n < |descs| && LocalWithSlots(descs, r, descs[..n], local)
    requires !descs[n].coarseIsRemote ==> Slotted(descs, r, descs[n], d')
    ensures LocalWithSlots(descs, r, descs[..n + 1], if descs[n].coarseIsRemote then local else local + [d'])
  {
    CoarseLocalStep(descs, n);
  }
}
