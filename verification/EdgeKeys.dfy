/** Exchange along edges. Around a hanging edge the fine octants send their line to every
    rank with another octant of the edge; around an edge without fine sides all octants do. */
module EdgeKeys {
  import opened Ordering
  import opened Ranks
  import opened RefluxKeys

  datatype Octant = Octant(qid: nat, bid: nat, owner: nat, isRemote: bool)

  /** One side of an edge: one coarse octant, or two fine ones along the edge. */
  datatype Side = Side(isFine: bool, edge: nat, octants: seq<Octant>)

  type EdgeDesc = seq<Side>

  /** A side in global quadrant numbers; offI and offJ mark a coarse side whose line runs
      through the middle of a face, half-way along the first or second transverse axis. */
  datatype GlobalSide = GlobalSide(isFine: bool, edge: nat, quads: seq<nat>, offI: bool, offJ: bool)

  type Edge = seq<GlobalSide>

  function OctantOf(P: Partition, r: nat, q: nat): Octant {
    Octant(P.Qid(r, q), 0, P.owner(q), P.owner(q) != r)
  }

  function SideOf(P: Partition, r: nat, s: GlobalSide): Side {
    Side(s.isFine, s.edge, seq(|s.quads|, n requires 0 <= n < |s.quads| => OctantOf(P, r, s.quads[n])))
  }

  /** What the edge and face iterators record on rank r. */
  function DescOf(P: Partition, r: nat, h: Edge): EdgeDesc {
    seq(|h|, n requires 0 <= n < |h| => SideOf(P, r, h[n]))
  }

  function Descs(P: Partition, r: nat, list: seq<Edge>): seq<EdgeDesc> {
    seq(|list|, n requires 0 <= n < |list| => DescOf(P, r, list[n]))
  }

  ghost predicate InRange(d: EdgeDesc, nproc: nat) {
    forall n, m | 0 <= n < |d| && 0 <= m < |d[n].octants| :: d[n].octants[m].owner < nproc
  }

  /** Some octant of the edge lies on rank b, which is not ours. */
  ghost predicate Reaches(d: EdgeDesc, b: nat) {
    exists s, o :: s in d && o in s.octants && o.isRemote && o.owner == b
  }

  ghost function LocalKeys(octants: seq<Octant>, edge: nat): set<Key> {
    set o | o in octants && !o.isRemote :: Key(o.qid, edge)
  }

  ghost function RemoteKeys(octants: seq<Octant>, edge: nat, a: nat): set<Key> {
    set o | o in octants && o.isRemote && o.owner == a :: Key(o.qid, edge)
  }

  /** The keys of the local octants of a side that takes part, and of its octants on rank a. */
  ghost function OwnKeys(fine: bool): (f: Side -> set<Key>)
    ensures forall s :: f(s) == if s.isFine == fine then LocalKeys(s.octants, s.edge) else {}
  {
    (s: Side) => if s.isFine == fine then LocalKeys(s.octants, s.edge) else {}
  }

  ghost function KeysFrom(fine: bool, a: nat): (f: Side -> set<Key>)
    ensures forall s :: f(s) == if s.isFine == fine then RemoteKeys(s.octants, s.edge, a) else {}
  {
    (s: Side) => if s.isFine == fine then RemoteKeys(s.octants, s.edge, a) else {}
  }

  ghost function SendKeys(fine: bool, b: nat): (f: EdgeDesc -> set<Key>)
    ensures forall d :: f(d) == if Reaches(d, b) then Union(OwnKeys(fine), d) else {}
  {
    (d: EdgeDesc) => if Reaches(d, b) then Union(OwnKeys(fine), d) else {}
  }

  ghost function RecvKeys(fine: bool, a: nat): (f: EdgeDesc -> set<Key>)
    ensures forall d :: f(d) == Union(KeysFrom(fine, a), d)
  {
    (d: EdgeDesc) => Union(KeysFrom(fine, a), d)
  }

  ghost function AllSendKeys(fine: bool, descs: seq<EdgeDesc>, b: nat): set<Key> { Union(SendKeys(fine, b), descs) }

  ghost function AllRecvKeys(fine: bool, descs: seq<EdgeDesc>, a: nat): set<Key> { Union(RecvKeys(fine, a), descs) }

  /** Send key k of a local octant to the rank of every remote octant of the edge. */
  method PushToAll(nproc: nat, d: EdgeDesc, k: Key, snd: seq<seq<Key>>) returns (snd': seq<seq<Key>>)
    requires |snd| == nproc && InRange(d, nproc)
    ensures |snd'| == nproc && forall b | 0 <= b < nproc :: Elements(snd'[b]) == Elements(snd[b]) + if Reaches(d, b) then {k} else {}
  {
    snd' := snd;
    for j := 0 to |d|
      invariant |snd'| == nproc
      invariant forall b | 0 <= b < nproc :: Elements(snd'[b]) == Elements(snd[b]) + if Reaches(d[..j], b) then {k} else {}
    {
      ghost var before := snd';
      for m := 0 to |d[j].octants|
        invariant |snd'| == nproc
        invariant forall b | 0 <= b < nproc :: Elements(snd'[b]) == Elements(before[b]) + if OneReaches(d[j].octants[..m], b) then {k} else {}
      {
        var o := d[j].octants[m];
        if o.isRemote {
          snd' := Push(snd', o.owner, k);
        }
        forall b { OneReachesStep(d[j].octants, m, b); }
      }
      assert d[j].octants[..|d[j].octants|] == d[j].octants;
      forall b { ReachesStep(d, j, b); }
    }
    assert d[..|d|] == d;
  }

  ghost predicate OneReaches(octants: seq<Octant>, b: nat) {
    exists o :: o in octants && o.isRemote && o.owner == b
  }

  lemma OneReachesStep(octants: seq<Octant>, m: nat, b: nat)
    requires m < |octants|
    ensures OneReaches(octants[..m + 1], b) <==> OneReaches(octants[..m], b) || (octants[m].isRemote && octants[m].owner == b)
  {
    assert octants[..m + 1] == octants[..m] + [octants[m]];
  }

  lemma ReachesStep(d: EdgeDesc, j: nat, b: nat)
    requires j < |d|
    ensures Reaches(d[..j + 1], b) <==> Reaches(d[..j], b) || OneReaches(d[j].octants, b)
  {
    assert d[..j + 1] == d[..j] + [d[j]];
  }

  lemma OctantsStep(octants: seq<Octant>, edge: nat, m: nat)
    requires m < |octants|
    ensures LocalKeys(octants[..m + 1], edge)
            == LocalKeys(octants[..m], edge) + if octants[m].isRemote then {} else {Key(octants[m].qid, edge)}
    ensures forall a :: RemoteKeys(octants[..m + 1], edge, a) == RemoteKeys(octants[..m], edge, a)
                          + if octants[m].isRemote && octants[m].owner == a then {Key(octants[m].qid, edge)} else {}
  {
    assert octants[..m + 1] == octants[..m] + [octants[m]];
  }

  /** keys grew by the set more(b) for every rank b. */
  ghost predicate Grown(keys': seq<seq<Key>>, keys: seq<seq<Key>>, more: int -> set<Key>) {
    && |keys'| == |keys|
    && forall b | 0 <= b < |keys| :: Elements(keys'[b]) == Elements(keys[b]) + more(b)
  }

  lemma GrownStep(keys'': seq<seq<Key>>, keys': seq<seq<Key>>, keys: seq<seq<Key>>, more: int -> set<Key>, again: int -> set<Key>, total: int -> set<Key>)
    requires Grown(keys', keys, more) && Grown(keys'', keys', again)
    requires forall b | 0 <= b < |keys| :: total(b) == more(b) + again(b)
    ensures Grown(keys'', keys, total)
  {
    forall b | 0 <= b < |keys| ensures Elements(keys''[b]) == Elements(keys[b]) + total(b) {
      assert Elements(keys''[b]) == (Elements(keys[b]) + more(b)) + again(b);
    }
  }

  ghost function ToReached(d: EdgeDesc, keys: set<Key>): (f: int -> set<Key>)
    ensures forall b :: f(b) == if b >= 0 && Reaches(d, b) then keys else {}
  {
    b => if b >= 0 && Reaches(d, b) then keys else {}
  }

  ghost function FromRank(octants: seq<Octant>, edge: nat): (f: int -> set<Key>)
    ensures forall a :: f(a) == if a >= 0 then RemoteKeys(octants, edge, a) else {}
  {
    a => if a >= 0 then RemoteKeys(octants, edge, a) else {}
  }

  ghost function OnlyRank(b: nat, k: Key): (f: int -> set<Key>)
    ensures forall c :: f(c) == if c == b then {k} else {}
  {
    c => if c == b then {k} else {}
  }

  ghost function FromSides(fine: bool, sides: seq<Side>): (f: int -> set<Key>)
    ensures forall a :: f(a) == if a >= 0 then Union(KeysFrom(fine, a), sides) else {}
  {
    a => if a >= 0 then Union(KeysFrom(fine, a), sides) else {}
  }

  /** The pushes of one side that takes part. */
  method CollectSide(nproc: nat, d: EdgeDesc, s: Side, snd: seq<seq<Key>>, rcv: seq<seq<Key>>)
    returns (snd': seq<seq<Key>>, rcv': seq<seq<Key>>)
    requires |snd| == |rcv| == nproc && InRange(d, nproc) && s in d
    ensures Grown(snd', snd, ToReached(d, LocalKeys(s.octants, s.edge)))
    ensures Grown(rcv', rcv, FromRank(s.octants, s.edge))
  {
    snd', rcv' := snd, rcv;
    hide Reaches;
    for m := 0 to |s.octants|
      invariant Grown(snd', snd, ToReached(d, LocalKeys(s.octants[..m], s.edge)))
      invariant Grown(rcv', rcv, FromRank(s.octants[..m], s.edge))
    {
      var o := s.octants[m];
      OctantsStep(s.octants, s.edge, m);
      hide LocalKeys, RemoteKeys, Grown;
      if o.isRemote {
        var rcv'' := PushGrown(rcv', o.owner, Key(o.qid, s.edge));
        GrownStep(rcv'', rcv', rcv, FromRank(s.octants[..m], s.edge), OnlyRank(o.owner, Key(o.qid, s.edge)), FromRank(s.octants[..m + 1], s.edge));
        rcv' := rcv'';
      } else {
        var snd'' := PushToAll(nproc, d, Key(o.qid, s.edge), snd');
        GrownStep(snd'', snd', snd, ToReached(d, LocalKeys(s.octants[..m], s.edge)), ToReached(d, {Key(o.qid, s.edge)}),
                  ToReached(d, LocalKeys(s.octants[..m + 1], s.edge)));
        snd' := snd'';
      }
    }
    assert s.octants[..|s.octants|] == s.octants;
  }

  method PushGrown(keys: seq<seq<Key>>, b: nat, k: Key) returns (keys': seq<seq<Key>>)
    requires b < |keys|
    ensures Grown(keys', keys, OnlyRank(b, k))
  {
    keys' := Push(keys, b, k);
  }

  /** The pushes of one edge; coarse octants of an edge with fine sides only listen. */
  method CollectOne(fine: bool, nproc: nat, d: EdgeDesc, snd: seq<seq<Key>>, rcv: seq<seq<Key>>)
    returns (snd': seq<seq<Key>>, rcv': seq<seq<Key>>)
    requires |snd| == |rcv| == nproc && InRange(d, nproc)
    ensures Grown(snd', snd, ToReached(d, Union(OwnKeys(fine), d)))
    ensures Grown(rcv', rcv, FromSides(fine, d))
  {
    snd', rcv' := snd, rcv;
    hide Reaches, LocalKeys, RemoteKeys;
    for j := 0 to |d|
      invariant Grown(snd', snd, ToReached(d, Union(OwnKeys(fine), d[..j])))
      invariant Grown(rcv', rcv, FromSides(fine, d[..j]))
    {
      UnionStep(OwnKeys(fine), d, j);
      forall a: nat ensures Union(KeysFrom(fine, a), d[..j + 1]) == Union(KeysFrom(fine, a), d[..j]) + KeysFrom(fine, a)(d[j]) {
        UnionStep(KeysFrom(fine, a), d, j);
      }
      if d[j].isFine == fine {
        var snd'', rcv'' := CollectSide(nproc, d, d[j], snd', rcv');
        hide Grown, Union;
        GrownStep(snd'', snd', snd, ToReached(d, Union(OwnKeys(fine), d[..j])), ToReached(d, LocalKeys(d[j].octants, d[j].edge)),
                  ToReached(d, Union(OwnKeys(fine), d[..j + 1])));
        GrownStep(rcv'', rcv', rcv, FromSides(fine, d[..j]), FromRank(d[j].octants, d[j].edge), FromSides(fine, d[..j + 1]));
        snd', rcv' := snd'', rcv'';
      }
    }
    assert d[..|d|] == d;
  }

  /** First pass: collect the keys of every edge. */
  method Collect(fine: bool, nproc: nat, descs: seq<EdgeDesc>) returns (snd: seq<seq<Key>>, rcv: seq<seq<Key>>)
    requires forall n | 0 <= n < |descs| :: InRange(descs[n], nproc)
    ensures |snd| == |rcv| == nproc
    ensures forall b | 0 <= b < nproc ::
              Elements(snd[b]) == AllSendKeys(fine, descs, b) && Elements(rcv[b]) == AllRecvKeys(fine, descs, b)
  {
    hide InRange, Reaches;
    snd, rcv := seq(nproc, _ => []), seq(nproc, _ => []);
    for n := 0 to |descs|
      invariant |snd| == |rcv| == nproc
      invariant forall b | 0 <= b < nproc :: Elements(snd[b]) == Union(SendKeys(fine, b), descs[..n])
      invariant forall b | 0 <= b < nproc :: Elements(rcv[b]) == Union(RecvKeys(fine, b), descs[..n])
    {
      snd, rcv := CollectOne(fine, nproc, descs[n], snd, rcv);
      forall b | 0 <= b < nproc
        ensures Elements(snd[b]) == Union(SendKeys(fine, b), descs[..n + 1])
        ensures Elements(rcv[b]) == Union(RecvKeys(fine, b), descs[..n + 1])
      {
        UnionStep(SendKeys(fine, b), descs, n);
        UnionStep(RecvKeys(fine, b), descs, n);
      }
    }
    assert descs[..|descs|] == descs;
  }

  // ---- second pass ----

  /** The packing of key k's line for rank b: the key's own line, in the key's slot. */
  ghost function MessageFor(fine: bool, descs: seq<EdgeDesc>, b: nat, k: Key): SendDesc {
    SendDesc(b, SlotOf(AllSendKeys(fine, descs, b), k), k.qid, k.elem)
  }

  /** What is packed for key k: one message for every remote octant of the edge. */
  ghost function ToOctant(fine: bool, descs: seq<EdgeDesc>, k: Key): (f: Octant -> set<SendDesc>)
    ensures forall x {:trigger f(x)} :: f(x) == if x.isRemote then {MessageFor(fine, descs, x.owner, k)} else {}
  {
    (x: Octant) => if x.isRemote then {MessageFor(fine, descs, x.owner, k)} else {}
  }

  ghost function ToSide(fine: bool, descs: seq<EdgeDesc>, k: Key): (f: Side -> set<SendDesc>)
    ensures forall t {:trigger f(t)} :: f(t) == Union(ToOctant(fine, descs, k), t.octants)
  {
    (t: Side) => Union(ToOctant(fine, descs, k), t.octants)
  }

  /** What is packed for the octants, sides and edges. */
  ghost function OctantMessages(fine: bool, descs: seq<EdgeDesc>, d: EdgeDesc, edge: nat): (f: Octant -> set<SendDesc>)
    ensures forall o {:trigger f(o)} :: f(o) == if o.isRemote then {} else Union(ToSide(fine, descs, Key(o.qid, edge)), d)
  {
    (o: Octant) => if o.isRemote then {} else Union(ToSide(fine, descs, Key(o.qid, edge)), d)
  }

  ghost function SideMessages(fine: bool, descs: seq<EdgeDesc>, d: EdgeDesc): (f: Side -> set<SendDesc>)
    ensures forall s {:trigger f(s)} :: f(s) == if s.isFine == fine then Union(OctantMessages(fine, descs, d, s.edge), s.octants) else {}
  {
    (s: Side) => if s.isFine == fine then Union(OctantMessages(fine, descs, d, s.edge), s.octants) else {}
  }

  ghost function Messages(fine: bool, descs: seq<EdgeDesc>): (f: EdgeDesc -> set<SendDesc>)
    ensures forall d {:trigger f(d)} :: f(d) == Union(SideMessages(fine, descs, d), d)
  {
    (d: EdgeDesc) => Union(SideMessages(fine, descs, d), d)
  }

  /** The octant with its receive slot, if its side takes part and it is remote. */
  ghost function SlottedOctant(fine: bool, descs: seq<EdgeDesc>, s: Side, o: Octant): Octant {
    if s.isFine == fine && o.isRemote then o.(bid := SlotOf(AllRecvKeys(fine, descs, o.owner), Key(o.qid, s.edge))) else o
  }

  ghost predicate SlottedSide(fine: bool, descs: seq<EdgeDesc>, s: Side, s': Side) {
    && s'.isFine == s.isFine && s'.edge == s.edge && |s'.octants| == |s.octants|
    && forall m | 0 <= m < |s.octants| :: s'.octants[m] == SlottedOctant(fine, descs, s, s.octants[m])
  }

  ghost predicate Slotted(fine: bool, descs: seq<EdgeDesc>, d: EdgeDesc, d': EdgeDesc) {
    |d'| == |d| && forall n | 0 <= n < |d| :: SlottedSide(fine, descs, d[n], d'[n])
  }

  lemma SendKeyCollected(fine: bool, descs: seq<EdgeDesc>, d: EdgeDesc, s: Side, o: Octant, b: nat)
    requires d in descs && s in d && s.isFine == fine && o in s.octants && !o.isRemote && Reaches(d, b)
    ensures Key(o.qid, s.edge) in AllSendKeys(fine, descs, b)
  {
    hide Reaches;
    InUnion(OwnKeys(fine), d, Key(o.qid, s.edge));
    InUnion(SendKeys(fine, b), descs, Key(o.qid, s.edge));
  }

  lemma RecvKeyCollected(fine: bool, descs: seq<EdgeDesc>, d: EdgeDesc, s: Side, o: Octant)
    requires d in descs && s in d && s.isFine == fine && o in s.octants && o.isRemote
    ensures Key(o.qid, s.edge) in AllRecvKeys(fine, descs, o.owner)
  {
    InUnion(KeysFrom(fine, o.owner), d, Key(o.qid, s.edge));
    InUnion(RecvKeys(fine, o.owner), descs, Key(o.qid, s.edge));
  }

  /** Register key k for every remote octant of one side of the edge. */
  method RegisterSide(fine: bool, nproc: nat, ghost descs: seq<EdgeDesc>, d: EdgeDesc, t: Side, k: Key, lookup: seq<map<Key, nat>>, snd: seq<SendDesc>)
    returns (snd': seq<SendDesc>)
    requires t in d && InRange(d, nproc) && |lookup| == nproc
    requires forall b | 0 <= b < nproc :: Indexes(lookup[b], AllSendKeys(fine, descs, b))
    requires forall b | Reaches(d, b) :: k in AllSendKeys(fine, descs, b)
    ensures Elements(snd') == Elements(snd) + ToSide(fine, descs, k)(t)
  {
    snd' := snd;
    hide AllSendKeys, Elements, SlotOf;
    for m := 0 to |t.octants|
      invariant Elements(snd') == Elements(snd) + Union(ToOctant(fine, descs, k), t.octants[..m])
    {
      var x := t.octants[m];
      UnionStep(ToOctant(fine, descs, k), t.octants, m);
      if x.isRemote {
        assert Reaches(d, x.owner);
        var msg := SendDesc(x.owner, lookup[x.owner][k], k.qid, k.elem);
        ElementsAppend(snd', msg);
        snd' := snd' + [msg];
      }
    }
    assert t.octants[..|t.octants|] == t.octants;
  }

  /** Register the line of a local octant for every remote octant of the edge. */
  method RegisterOctant(fine: bool, nproc: nat, ghost descs: seq<EdgeDesc>, d: EdgeDesc, k: Key, lookup: seq<map<Key, nat>>, snd: seq<SendDesc>)
    returns (snd': seq<SendDesc>)
    requires InRange(d, nproc) && |lookup| == nproc
    requires forall b | 0 <= b < nproc :: Indexes(lookup[b], AllSendKeys(fine, descs, b))
    requires forall b | Reaches(d, b) :: k in AllSendKeys(fine, descs, b)
    ensures Elements(snd') == Elements(snd) + Union(ToSide(fine, descs, k), d)
  {
    snd' := snd;
    hide AllSendKeys, Elements, Reaches, Indexes;
    for j := 0 to |d|
      invariant Elements(snd') == Elements(snd) + Union(ToSide(fine, descs, k), d[..j])
    {
      UnionStep(ToSide(fine, descs, k), d, j);
      snd' := RegisterSide(fine, nproc, descs, d, d[j], k, lookup, snd');
    }
    assert d[..|d|] == d;
  }

  /** Second pass over one side that takes part: pack its local octants, write back the slots of the others. */
  method BuildSide(fine: bool, nproc: nat, ghost descs: seq<EdgeDesc>, d: EdgeDesc, s: Side, sendLookup: seq<map<Key, nat>>, recvLookup: seq<map<Key, nat>>, snd: seq<SendDesc>)
    returns (s': Side, snd': seq<SendDesc>)
    requires d in descs && s in d && s.isFine == fine && InRange(d, nproc) && |sendLookup| == |recvLookup| == nproc
    requires forall b | 0 <= b < nproc :: Indexes(sendLookup[b], AllSendKeys(fine, descs, b)) && Indexes(recvLookup[b], AllRecvKeys(fine, descs, b))
    ensures SlottedSide(fine, descs, s, s') && Elements(snd') == Elements(snd) + Union(OctantMessages(fine, descs, d, s.edge), s.octants)
  {
    s', snd' := s, snd;
    hide AllSendKeys, AllRecvKeys, Elements, SlotOf, Reaches;
    for m := 0 to |s.octants|
      invariant s' == s.(octants := s'.octants) && |s'.octants| == |s.octants|
      invariant forall k | 0 <= k < |s.octants| :: s'.octants[k] == if k < m then SlottedOctant(fine, descs, s, s.octants[k]) else s.octants[k]
      invariant Elements(snd') == Elements(snd) + Union(OctantMessages(fine, descs, d, s.edge), s.octants[..m])
    {
      var o := s.octants[m];
      UnionStep(OctantMessages(fine, descs, d, s.edge), s.octants, m);
      if o.isRemote {
        RecvKeyCollected(fine, descs, d, s, o);
        s' := s'.(octants := s'.octants[m := o.(bid := recvLookup[o.owner][Key(o.qid, s.edge)])]);
      } else {
        forall b | Reaches(d, b) ensures Key(o.qid, s.edge) in AllSendKeys(fine, descs, b) { SendKeyCollected(fine, descs, d, s, o, b); }
        snd' := RegisterOctant(fine, nproc, descs, d, Key(o.qid, s.edge), sendLookup, snd');
      }
    }
    assert s.octants[..|s.octants|] == s.octants;
  }

  /** Second pass over one side, whether it takes part or not. */
  method BuildAny(fine: bool, nproc: nat, ghost descs: seq<EdgeDesc>, d: EdgeDesc, s: Side, sendLookup: seq<map<Key, nat>>, recvLookup: seq<map<Key, nat>>, snd: seq<SendDesc>)
    returns (s': Side, snd': seq<SendDesc>)
    requires d in descs && s in d && InRange(d, nproc) && |sendLookup| == |recvLookup| == nproc
    requires forall b | 0 <= b < nproc :: Indexes(sendLookup[b], AllSendKeys(fine, descs, b)) && Indexes(recvLookup[b], AllRecvKeys(fine, descs, b))
    ensures SlottedSide(fine, descs, s, s') && Elements(snd') == Elements(snd) + SideMessages(fine, descs, d)(s)
  {
    s', snd' := s, snd;
    if s.isFine == fine {
      hide *;
      s', snd' := BuildSide(fine, nproc, descs, d, s, sendLookup, recvLookup, snd);
    }
  }

  /** Second pass over one edge. */
  method BuildOne(fine: bool, nproc: nat, ghost descs: seq<EdgeDesc>, d: EdgeDesc, sendLookup: seq<map<Key, nat>>, recvLookup: seq<map<Key, nat>>, snd: seq<SendDesc>)
    returns (d': EdgeDesc, snd': seq<SendDesc>)
    requires d in descs && InRange(d, nproc) && |sendLookup| == |recvLookup| == nproc
    requires forall b | 0 <= b < nproc :: Indexes(sendLookup[b], AllSendKeys(fine, descs, b)) && Indexes(recvLookup[b], AllRecvKeys(fine, descs, b))
    ensures Slotted(fine, descs, d, d') && Elements(snd') == Elements(snd) + Union(SideMessages(fine, descs, d), d)
  {
    hide *;
    d', snd' := [], snd;
    ghost var f := SideMessages(fine, descs, d);
    UnionNone(f);
    for j := 0 to |d|
      invariant |d'| == j && forall n | 0 <= n < j :: SlottedSide(fine, descs, d[n], d'[n])
      invariant Elements(snd') == Elements(snd) + Union(f, d[..j])
    {
      UnionStep(f, d, j);
      ghost var before := Elements(snd');
      var s';
      s', snd' := BuildAny(fine, nproc, descs, d, d[j], sendLookup, recvLookup, snd');
      d' := d' + [s'];
      GrownBy(Elements(snd'), before, Elements(snd), Union(f, d[..j]), f(d[j]));
    }
    assert d[..|d|] == d;
    SlottedFrom(fine, descs, d, d');
  }

  lemma UnionNone<D(!new), T>(f: D -> set<T>)
    ensures Union(f, []) == {}
  {
  }

  lemma SlottedFrom(fine: bool, descs: seq<EdgeDesc>, d: EdgeDesc, d': EdgeDesc)
    requires |d'| == |d| && forall n | 0 <= n < |d| :: SlottedSide(fine, descs, d[n], d'[n])
    ensures Slotted(fine, descs, d, d')
  {
  }

  lemma GrownBy(new_: set<SendDesc>, before: set<SendDesc>, start: set<SendDesc>, u: set<SendDesc>, m: set<SendDesc>)
    requires before == start + u && new_ == before + m
    ensures new_ == start + (u + m)
  {
  }

  /** Both passes over the edges of one rank. */
  method Build(fine: bool, nproc: nat, descs: seq<EdgeDesc>)
    returns (slotted: seq<EdgeDesc>, snd: seq<SendDesc>, sendCounts: seq<nat>, recvCounts: seq<nat>)
    requires forall n | 0 <= n < |descs| :: InRange(descs[n], nproc)
    ensures |slotted| == |descs| && forall n | 0 <= n < |descs| :: Slotted(fine, descs, descs[n], slotted[n])
    ensures Increasing(SendLess, snd) && Elements(snd) == Union(Messages(fine, descs), descs)
    ensures |sendCounts| == |recvCounts| == nproc
    ensures forall b | 0 <= b < nproc :: sendCounts[b] == |AllSendKeys(fine, descs, b)| && recvCounts[b] == |AllRecvKeys(fine, descs, b)|
  {
    hide *;
    KeyOrder();
    var sndKeys, rcvKeys := Collect(fine, nproc, descs);
    var sendLookup, recvLookup;
    sendLookup, sendCounts := SortAndDedup(sndKeys);
    recvLookup, recvCounts := SortAndDedup(rcvKeys);
    NumberedFrom(fine, nproc, descs, sndKeys, rcvKeys, sendLookup, recvLookup, sendCounts, recvCounts);
    slotted, snd := [], [];
    ghost var f := Messages(fine, descs);
    UnionNone(f);
    NoElements();
    for n := 0 to |descs|
      invariant |slotted| == n && forall k | 0 <= k < n :: Slotted(fine, descs, descs[k], slotted[k])
      invariant Elements(snd) == Union(f, descs[..n])
    {
      UnionStep(f, descs, n);
      var d';
      d', snd := BuildOne(fine, nproc, descs, descs[n], sendLookup, recvLookup, snd);
      slotted := slotted + [d'];
    }
    assert descs[..|descs|] == descs;
    snd := SortUnique(SendLess, snd);
  }

  lemma NoElements()
    ensures Elements<SendDesc>([]) == {}
  {
  }

  /** What sorting and numbering the collected keys yields. */
  lemma NumberedFrom(fine: bool, nproc: nat, descs: seq<EdgeDesc>, snd: seq<seq<Key>>, rcv: seq<seq<Key>>,
                     sendLookup: seq<map<Key, nat>>, recvLookup: seq<map<Key, nat>>, sendCounts: seq<nat>, recvCounts: seq<nat>)
    requires |snd| == |rcv| == nproc
    requires forall b | 0 <= b < nproc :: Elements(snd[b]) == AllSendKeys(fine, descs, b) && Elements(rcv[b]) == AllRecvKeys(fine, descs, b)
    requires Numbered(KeySets(snd), sendLookup, sendCounts) && Numbered(KeySets(rcv), recvLookup, recvCounts)
    ensures |sendLookup| == |recvLookup| == |sendCounts| == |recvCounts| == nproc
    ensures forall b | 0 <= b < nproc :: Indexes(sendLookup[b], AllSendKeys(fine, descs, b)) && Indexes(recvLookup[b], AllRecvKeys(fine, descs, b))
    ensures forall b | 0 <= b < nproc :: sendCounts[b] == |AllSendKeys(fine, descs, b)| && recvCounts[b] == |AllRecvKeys(fine, descs, b)|
  {
    hide Elements, AllSendKeys, AllRecvKeys, Indexes;
  }
}
