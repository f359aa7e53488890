/** Exchange across same-level faces: each side sends its own data and receives the other's. */
module FullFaces {
  import opened Ordering
  import opened Grid
  import opened Ranks
  import opened RefluxKeys

  datatype FullSide = FullSide(qid: nat, bid: nat, owner: nat, isRemote: bool, face: nat)

  datatype FullDesc = FullDesc(lower: FullSide, upper: FullSide) {
    function Side(n: int): FullSide { if n == 0 then lower else upper }
  }

  /** A face between two quadrants of one level, in global numbers. */
  datatype FullFace = FullFace(lower: FaceRef, upper: FaceRef) {
    function Side(n: int): FaceRef { if n == 0 then lower else upper }
  }

  function SideOf(P: Partition, r: nat, x: FaceRef): FullSide {
    FullSide(P.Qid(r, x.q), 0, P.owner(x.q), P.owner(x.q) != r, x.f)
  }

  /** What the face iterator records on rank r. */
  function DescOf(P: Partition, r: nat, h: FullFace): FullDesc {
    FullDesc(SideOf(P, r, h.lower), SideOf(P, r, h.upper))
  }

  function Descs(P: Partition, r: nat, list: seq<FullFace>): seq<FullDesc> {
    seq(|list|, n requires 0 <= n < |list| => DescOf(P, r, list[n]))
  }

  /** The face id seen from the smaller rank, for the remote side n of d. */
  function Elem(d: FullDesc, r: nat, n: nat): nat {
    if d.Side(n).owner < r then d.Side(n).face else d.Side(1 - n).face
  }

  function SendKey(d: FullDesc, r: nat, n: nat): Key
    requires n < 2
  {
    Key(d.Side(1 - n).qid, Elem(d, r, n))
  }

  function RecvKey(d: FullDesc, r: nat, n: nat): Key
    requires n < 2
  {
    Key(d.Side(n).qid, Elem(d, r, n))
  }

  predicate Remote(d: FullDesc, b: nat, n: nat) {
    d.Side(n).isRemote && d.Side(n).owner == b
  }

  /** Keys rank r sends to rank b, and receives from it, for the first count sides of d. */
  ghost function SendKeysUpTo(d: FullDesc, r: nat, b: nat, count: nat): set<Key>
    requires count <= 2
  {
    set n | 0 <= n < count && Remote(d, b, n) :: SendKey(d, r, n)
  }

  ghost function RecvKeysUpTo(d: FullDesc, r: nat, b: nat, count: nat): set<Key>
    requires count <= 2
  {
    set n | 0 <= n < count && Remote(d, b, n) :: RecvKey(d, r, n)
  }

  lemma KeysStep(d: FullDesc, r: nat, b: nat, n: nat)
    requires n < 2
    ensures SendKeysUpTo(d, r, b, n + 1) == SendKeysUpTo(d, r, b, n) + if Remote(d, b, n) then {SendKey(d, r, n)} else {}
    ensures RecvKeysUpTo(d, r, b, n + 1) == RecvKeysUpTo(d, r, b, n) + if Remote(d, b, n) then {RecvKey(d, r, n)} else {}
  {
  }

  ghost function SendKeys(r: nat, b: nat): (f: FullDesc -> set<Key>)
    ensures forall d :: f(d) == SendKeysUpTo(d, r, b, 2)
  {
    (d: FullDesc) => SendKeysUpTo(d, r, b, 2)
  }

  ghost function RecvKeys(r: nat, b: nat): (f: FullDesc -> set<Key>)
    ensures forall d :: f(d) == RecvKeysUpTo(d, r, b, 2)
  {
    (d: FullDesc) => RecvKeysUpTo(d, r, b, 2)
  }

  ghost function AllSendKeys(descs: seq<FullDesc>, r: nat, b: nat): set<Key> { Union(SendKeys(r, b), descs) }

  ghost function AllRecvKeys(descs: seq<FullDesc>, r: nat, b: nat): set<Key> { Union(RecvKeys(r, b), descs) }

  ghost predicate InRange(d: FullDesc, nproc: nat) { d.lower.owner < nproc && d.upper.owner < nproc }

  method CollectOne(r: nat, nproc: nat, d: FullDesc, snd: seq<seq<Key>>, rcv: seq<seq<Key>>)
    returns (snd': seq<seq<Key>>, rcv': seq<seq<Key>>)
    requires |snd| == |rcv| == nproc && InRange(d, nproc)
    ensures |snd'| == nproc && forall b | 0 <= b < nproc :: Elements(snd'[b]) == Elements(snd[b]) + SendKeys(r, b)(d)
    ensures |rcv'| == nproc && forall b | 0 <= b < nproc :: Elements(rcv'[b]) == Elements(rcv[b]) + RecvKeys(r, b)(d)
  {
    hide Elements;
    snd', rcv' := snd, rcv;
    for n := 0 to 2
      invariant |snd'| == nproc && forall b | 0 <= b < nproc ::
                  Elements(snd'[b]) == Elements(snd[b]) + SendKeysUpTo(d, r, b, n)
      invariant |rcv'| == nproc && forall b | 0 <= b < nproc ::
                  Elements(rcv'[b]) == Elements(rcv[b]) + RecvKeysUpTo(d, r, b, n)
    {
      hide SendKeysUpTo, RecvKeysUpTo;
      forall b { KeysStep(d, r, b, n); }
      var side, other := d.Side(n), d.Side(1 - n);
      if side.isRemote {
        var elem := if side.owner < r then side.face else other.face;
        snd' := Push(snd', side.owner, Key(other.qid, elem));
        rcv' := Push(rcv', side.owner, Key(side.qid, elem));
      }
    }
  }

  /** First pass: collect the keys of every descriptor. */
  method Collect(r: nat, nproc: nat, descs: seq<FullDesc>) returns (snd: seq<seq<Key>>, rcv: seq<seq<Key>>)
    requires forall n | 0 <= n < |descs| :: InRange(descs[n], nproc)
    ensures |snd| == |rcv| == nproc
    ensures forall b | 0 <= b < nproc :: Elements(snd[b]) == AllSendKeys(descs, r, b) && Elements(rcv[b]) == AllRecvKeys(descs, r, b)
  {
    hide InRange;
    snd, rcv := seq(nproc, _ => []), seq(nproc, _ => []);
    for n := 0 to |descs|
      invariant |snd| == |rcv| == nproc
      invariant forall b | 0 <= b < nproc :: Elements(snd[b]) == Union(SendKeys(r, b), descs[..n])
      invariant forall b | 0 <= b < nproc :: Elements(rcv[b]) == Union(RecvKeys(r, b), descs[..n])
    {
      snd, rcv := CollectOne(r, nproc, descs[n], snd, rcv);
      forall b | 0 <= b < nproc
        ensures Elements(snd[b]) == Union(SendKeys(r, b), descs[..n + 1])
        ensures Elements(rcv[b]) == Union(RecvKeys(r, b), descs[..n + 1])
      {
        UnionStep(SendKeys(r, b), descs, n);
        UnionStep(RecvKeys(r, b), descs, n);
      }
    }
    assert descs[..|descs|] == descs;
  }

  /** What rank r packs for the first count sides of d: its own face, in the slot of the shared key. */
  ghost function Message(descs: seq<FullDesc>, r: nat, d: FullDesc, n: nat): SendDesc
    requires n < 2
  {
    var b := d.Side(n).owner;
    SendDesc(b, SlotOf(AllSendKeys(descs, r, b), SendKey(d, r, n)), d.Side(1 - n).qid, d.Side(1 - n).face)
  }

  ghost function MessagesUpTo(descs: seq<FullDesc>, r: nat, d: FullDesc, count: nat): set<SendDesc>
    requires count <= 2
  {
    set n | 0 <= n < count && d.Side(n).isRemote :: Message(descs, r, d, n)
  }

  ghost function Messages(descs: seq<FullDesc>, r: nat): (f: FullDesc -> set<SendDesc>)
    ensures forall d :: f(d) == MessagesUpTo(descs, r, d, 2)
  {
    (d: FullDesc) => MessagesUpTo(descs, r, d, 2)
  }

  /** The side with its receive slot, if it is remote. */
  ghost function SlottedSide(descs: seq<FullDesc>, r: nat, d: FullDesc, n: nat): FullSide
    requires n < 2
  {
    if d.Side(n).isRemote then d.Side(n).(bid := SlotOf(AllRecvKeys(descs, r, d.Side(n).owner), RecvKey(d, r, n))) else d.Side(n)
  }

  ghost predicate Slotted(descs: seq<FullDesc>, r: nat, d: FullDesc, d': FullDesc) {
    d' == FullDesc(SlottedSide(descs, r, d, 0), SlottedSide(descs, r, d, 1))
  }

  lemma KeyCollected(descs: seq<FullDesc>, r: nat, d: FullDesc, n: nat)
    requires d in descs && n < 2 && d.Side(n).isRemote
    ensures SendKey(d, r, n) in AllSendKeys(descs, r, d.Side(n).owner) && RecvKey(d, r, n) in AllRecvKeys(descs, r, d.Side(n).owner)
  {
    InUnion(SendKeys(r, d.Side(n).owner), descs, SendKey(d, r, n));
    InUnion(RecvKeys(r, d.Side(n).owner), descs, RecvKey(d, r, n));
  }

  lemma MessagesStep(descs: seq<FullDesc>, r: nat, d: FullDesc, n: nat)
    requires n < 2
    ensures MessagesUpTo(descs, r, d, n + 1) == MessagesUpTo(descs, r, d, n) + if d.Side(n).isRemote then {Message(descs, r, d, n)} else {}
  {
  }

  /** What a remote side leads to: its slot, and the message that packs the own side. */
  method BuildSide(r: nat, nproc: nat, ghost descs: seq<FullDesc>, d: FullDesc, n: nat, sendLookup: seq<map<Key, nat>>, recvLookup: seq<map<Key, nat>>)
    returns (slotted: FullSide, msg: SendDesc)
    requires d in descs && InRange(d, nproc) && |sendLookup| == |recvLookup| == nproc && n < 2 && d.Side(n).isRemote
    requires forall b | 0 <= b < nproc :: Indexes(sendLookup[b], AllSendKeys(descs, r, b)) && Indexes(recvLookup[b], AllRecvKeys(descs, r, b))
    ensures slotted == SlottedSide(descs, r, d, n) && msg == Message(descs, r, d, n)
  {
    hide AllSendKeys, AllRecvKeys, SlotOf;
    KeyCollected(descs, r, d, n);
    var side, other := d.Side(n), d.Side(1 - n);
    var elem := if side.owner < r then side.face else other.face;
    msg := SendDesc(side.owner, sendLookup[side.owner][Key(other.qid, elem)], other.qid, other.face);
    slotted := side.(bid := recvLookup[side.owner][Key(side.qid, elem)]);
  }

  /** Second pass over one descriptor: register the own side to pack, write back the slot of the other. */
  method BuildOne(r: nat, nproc: nat, ghost descs: seq<FullDesc>, d: FullDesc, sendLookup: seq<map<Key, nat>>, recvLookup: seq<map<Key, nat>>, snd: seq<SendDesc>)
    returns (d': FullDesc, snd': seq<SendDesc>)
    requires d in descs && InRange(d, nproc) && |sendLookup| == |recvLookup| == nproc
    requires forall b | 0 <= b < nproc :: Indexes(sendLookup[b], AllSendKeys(descs, r, b)) && Indexes(recvLookup[b], AllRecvKeys(descs, r, b))
    ensures Slotted(descs, r, d, d') && Elements(snd') == Elements(snd) + MessagesUpTo(descs, r, d, 2)
  {
    d', snd' := d, snd;
    assert MessagesUpTo(descs, r, d, 0) == {};
    assert forall n | 0 <= n < 2 && !d.Side(n).isRemote :: SlottedSide(descs, r, d, n) == d.Side(n);
    hide AllSendKeys, AllRecvKeys, MessagesUpTo, Elements, Message, SlottedSide, Indexes, InRange;
    for n := 0 to 2
      invariant d' == FullDesc(if n > 0 then SlottedSide(descs, r, d, 0) else d.lower, if n > 1 then SlottedSide(descs, r, d, 1) else d.upper)
      invariant Elements(snd') == Elements(snd) + MessagesUpTo(descs, r, d, n)
    {
      MessagesStep(descs, r, d, n);
      if d.Side(n).isRemote {
        var slotted, msg := BuildSide(r, nproc, descs, d, n, sendLookup, recvLookup);
        ElementsAppend(snd', msg);
        snd' := snd' + [msg];
        d' := if n == 0 then d'.(lower := slotted) else d'.(upper := slotted);
      }
    }
  }

  /** Both passes over the descriptors of one rank. */
  method Build(r: nat, nproc: nat, descs: seq<FullDesc>)
    returns (slotted: seq<FullDesc>, snd: seq<SendDesc>, sendCounts: seq<nat>, recvCounts: seq<nat>)
    requires forall n | 0 <= n < |descs| :: InRange(descs[n], nproc)
    ensures |slotted| == |descs| && forall n | 0 <= n < |descs| :: Slotted(descs, r, descs[n], slotted[n])
    ensures Increasing(SendLess, snd) && Elements(snd) == Union(Messages(descs, r), descs)
    ensures |sendCounts| == |recvCounts| == nproc
    ensures forall b | 0 <= b < nproc :: sendCounts[b] == |AllSendKeys(descs, r, b)| && recvCounts[b] == |AllRecvKeys(descs, r, b)|
  {
    KeyOrder();
    hide StrictTotal, Increasing, AllSendKeys, AllRecvKeys, MessagesUpTo, Slotted, InRange;
    var sndKeys, rcvKeys := Collect(r, nproc, descs);
    var sendLookup, recvLookup;
    sendLookup, sendCounts := SortAndDedup(sndKeys);
    recvLookup, recvCounts := SortAndDedup(rcvKeys);
    slotted, snd := [], [];
    assert Elements(snd) == Union(Messages(descs, r), descs[..0]);
    hide Elements;
    for n := 0 to |descs|
      invariant |slotted| == n && forall k | 0 <= k < n :: Slotted(descs, r, descs[k], slotted[k])
      invariant Elements(snd) == Union(Messages(descs, r), descs[..n])
    {
      UnionStep(Messages(descs, r), descs, n);
      var d';
      d', snd := BuildOne(r, nproc, descs, descs[n], sendLookup, recvLookup, snd);
      slotted := slotted + [d'];
    }
    assert descs[..|descs|] == descs;
    snd := SortUnique(SendLess, snd);
  }

  ghost predicate Touches(P: Partition, r: nat, h: FullFace) {
    P.owner(h.lower.q) == r || P.owner(h.upper.q) == r
  }

  ghost predicate Listed(P: Partition, r: nat, faces: seq<FullFace>, list: seq<FullFace>) {
    forall h :: h in list <==> h in faces && Touches(P, r, h)
  }

  ghost predicate WellFormed(nq: nat, faces: seq<FullFace>) {
    forall h | h in faces :: h.lower.q < nq && h.upper.q < nq && h.lower.f < 6 && h.upper.f == Opposite(h.lower.f)
  }

  /** Side n of h lies on B and the other side, whose data A sends, on A. */
  ghost predicate Crosses(P: Partition, A: nat, B: nat, h: FullFace, n: nat) {
    P.owner(h.Side(1 - n).q) == A && P.owner(h.Side(n).q) == B
  }

  function KeyElem(A: nat, B: nat, h: FullFace, n: nat): nat {
    if A < B then h.Side(1 - n).f else h.Side(n).f
  }

  ghost function Transfers(P: Partition, faces: seq<FullFace>, A: nat, B: nat): set<Transfer> {
    set h, n | h in faces && 0 <= n < 2 && Crosses(P, A, B, h, n) :: Transfer(h.Side(1 - n).q, KeyElem(A, B, h, n))
  }

  lemma DescKeys(P: Partition, A: nat, B: nat, h: FullFace, n: nat)
    requires A != B && n < 2
    ensures var d := DescOf(P, A, h); Crosses(P, A, B, h, n) ==>
      Remote(d, B, n) && SendKey(d, A, n) == Key(P.lid(h.Side(1 - n).q), KeyElem(A, B, h, n))
    ensures var d := DescOf(P, A, h); Remote(d, B, n) && Touches(P, A, h) ==> Crosses(P, A, B, h, n)
    ensures var d := DescOf(P, B, h); Crosses(P, A, B, h, n) ==>
      Remote(d, A, 1 - n) && RecvKey(d, B, 1 - n) == Key(P.view(B, h.Side(1 - n).q), KeyElem(A, B, h, n))
    ensures var d := DescOf(P, B, h); Remote(d, A, 1 - n) && Touches(P, B, h) ==> Crosses(P, A, B, h, n)
  {
  }

  lemma SendSide(P: Partition, faces: seq<FullFace>, A: nat, B: nat, list: seq<FullFace>)
    requires Listed(P, A, faces, list) && A != B
    ensures AllSendKeys(Descs(P, A, list), A, B) == Image(SenderKey(P), Transfers(P, faces, A, B))
  {
    var descs, f := Descs(P, A, list), SenderKey(P);
    hide DescOf, Union, KeyElem;
    forall k | k in AllSendKeys(descs, A, B) ensures k in Image(f, Transfers(P, faces, A, B)) {
      InUnion(SendKeys(A, B), descs, k);
      var d :| d in descs && k in SendKeys(A, B)(d);
      var m :| 0 <= m < |list| && d == DescOf(P, A, list[m]);
      assert list[m] in list;
      var n :| 0 <= n < 2 && Remote(d, B, n) && k == SendKey(d, A, n);
      DescKeys(P, A, B, list[m], n);
      assert f(Transfer(list[m].Side(1 - n).q, KeyElem(A, B, list[m], n))) == k;
    }
    forall k | k in Image(f, Transfers(P, faces, A, B)) ensures k in AllSendKeys(descs, A, B) {
      var t :| t in Transfers(P, faces, A, B) && f(t) == k;
      var h, n :| h in faces && 0 <= n < 2 && Crosses(P, A, B, h, n) && t == Transfer(h.Side(1 - n).q, KeyElem(A, B, h, n));
      assert h in list;
      var m :| 0 <= m < |list| && list[m] == h;
      DescKeys(P, A, B, h, n);
      assert k in SendKeys(A, B)(descs[m]);
      InUnion(SendKeys(A, B), descs, k);
    }
  }

  lemma RecvSide(P: Partition, faces: seq<FullFace>, A: nat, B: nat, list: seq<FullFace>)
    requires Listed(P, B, faces, list) && A != B
    ensures AllRecvKeys(Descs(P, B, list), B, A) == Image(ReceiverKey(P, B), Transfers(P, faces, A, B))
  {
    var descs, f := Descs(P, B, list), ReceiverKey(P, B);
    hide DescOf, Union, KeyElem;
    forall k | k in AllRecvKeys(descs, B, A) ensures k in Image(f, Transfers(P, faces, A, B)) {
      InUnion(RecvKeys(B, A), descs, k);
      var d :| d in descs && k in RecvKeys(B, A)(d);
      var m :| 0 <= m < |list| && d == DescOf(P, B, list[m]);
      assert list[m] in list;
      var n :| 0 <= n < 2 && Remote(d, A, n) && k == RecvKey(d, B, n);
      DescKeys(P, A, B, list[m], 1 - n);
      assert f(Transfer(list[m].Side(n).q, KeyElem(A, B, list[m], 1 - n))) == k;
    }
    forall k | k in Image(f, Transfers(P, faces, A, B)) ensures k in AllRecvKeys(descs, B, A) {
      var t :| t in Transfers(P, faces, A, B) && f(t) == k;
      var h, n :| h in faces && 0 <= n < 2 && Crosses(P, A, B, h, n) && t == Transfer(h.Side(1 - n).q, KeyElem(A, B, h, n));
      assert h in list;
      var m :| 0 <= m < |list| && list[m] == h;
      DescKeys(P, A, B, h, n);
      assert k in RecvKeys(B, A)(descs[m]);
      InUnion(RecvKeys(B, A), descs, k);
    }
  }

  /** Sender and receiver agree on message sizes and slots, and a slot stands for one face. */
  lemma SlotAgreement(P: Partition, nq: nat, faces: seq<FullFace>, A: nat, B: nat, listA: seq<FullFace>, listB: seq<FullFace>)
    requires P.Valid(nq) && WellFormed(nq, faces) && A != B
    requires Listed(P, A, faces, listA) && Listed(P, B, faces, listB)
    ensures |AllSendKeys(Descs(P, A, listA), A, B)| == |AllRecvKeys(Descs(P, B, listB), B, A)|
    ensures forall h, n | h in faces && 0 <= n < 2 && Crosses(P, A, B, h, n) ::
              SlotOf(AllSendKeys(Descs(P, A, listA), A, B), SendKey(DescOf(P, A, h), A, n))
              == SlotOf(AllRecvKeys(Descs(P, B, listB), B, A), RecvKey(DescOf(P, B, h), B, 1 - n))
    ensures forall g, m, h, n | g in faces && 0 <= m < 2 && Crosses(P, A, B, g, m) && h in faces && 0 <= n < 2 && Crosses(P, A, B, h, n)
              && SlotOf(AllSendKeys(Descs(P, A, listA), A, B), SendKey(DescOf(P, A, g), A, m))
                 == SlotOf(AllSendKeys(Descs(P, A, listA), A, B), SendKey(DescOf(P, A, h), A, n)) ::
              g.Side(1 - m) == h.Side(1 - n)
  {
    var s := Transfers(P, faces, A, B);
    forall t | t in s ensures t.q < nq && P.owner(t.q) == A {}
    SendSide(P, faces, A, B, listA);
    RecvSide(P, faces, A, B, listB);
    hide SlotOf, Image, DescOf, Opposite;
    KeysAgree(P, nq, A, B, s);
    forall h, n | h in faces && 0 <= n < 2 && Crosses(P, A, B, h, n)
      ensures Transfer(h.Side(1 - n).q, KeyElem(A, B, h, n)) in s
      ensures SendKey(DescOf(P, A, h), A, n) == SenderKey(P)(Transfer(h.Side(1 - n).q, KeyElem(A, B, h, n)))
      ensures RecvKey(DescOf(P, B, h), B, 1 - n) == ReceiverKey(P, B)(Transfer(h.Side(1 - n).q, KeyElem(A, B, h, n)))
    {
      DescKeys(P, A, B, h, n);
    }
    forall g, m, h, n | g in faces && 0 <= m < 2 && Crosses(P, A, B, g, m) && h in faces && 0 <= n < 2 && Crosses(P, A, B, h, n)
        && SlotOf(AllSendKeys(Descs(P, A, listA), A, B), SendKey(DescOf(P, A, g), A, m))
           == SlotOf(AllSendKeys(Descs(P, A, listA), A, B), SendKey(DescOf(P, A, h), A, n))
      ensures g.Side(1 - m) == h.Side(1 - n)
    {
      assert Transfer(g.Side(1 - m).q, KeyElem(A, B, g, m)) == Transfer(h.Side(1 - n).q, KeyElem(A, B, h, n));
      OwnFace(nq, faces, A, B, g, m, h, n);
    }
  }

  /** Equal key elements mean equal own faces, whichever side's face number was taken. */
  lemma OwnFace(nq: nat, faces: seq<FullFace>, A: nat, B: nat, g: FullFace, m: nat, h: FullFace, n: nat)
    requires WellFormed(nq, faces) && g in faces && h in faces && m < 2 && n < 2
    requires KeyElem(A, B, g, m) == KeyElem(A, B, h, n)
    ensures g.Side(1 - m).f == h.Side(1 - n).f
  {
  }
}
