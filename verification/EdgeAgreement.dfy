/** Agreement of sender and receiver on the slots of the edge buffers, for edges
    with fine sides (fine = true) and for edges without any (fine = false). */
module EdgeAgreement {
  import opened Ordering
  import opened Ranks
  import opened RefluxKeys
  import opened EdgeKeys

  /** Some octant of edge h lies on rank r. */
  ghost predicate Touches(P: Partition, r: nat, h: Edge) {
    exists s, q :: s in h && q in s.quads && P.owner(q) == r
  }

  ghost predicate Listed(P: Partition, r: nat, edges: seq<Edge>, list: seq<Edge>) {
    forall h :: h in list <==> h in edges && Touches(P, r, h)
  }

  ghost predicate WellFormed(nq: nat, edges: seq<Edge>) {
    forall h, s, q | h in edges && s in h && q in s.quads :: q < nq
  }

  /** The line of octant q on side s of edge h goes from A to B. */
  ghost predicate Crosses(P: Partition, fine: bool, A: nat, B: nat, h: Edge, s: GlobalSide, q: nat) {
    s in h && s.isFine == fine && q in s.quads && P.owner(q) == A && Touches(P, B, h)
  }

  ghost function Transfers(P: Partition, fine: bool, edges: seq<Edge>, A: nat, B: nat): set<Transfer> {
    set h, s, q | h in edges && s in h && q in s.quads && Crosses(P, fine, A, B, h, s, q) :: Transfer(q, s.edge)
  }

  lemma Recorded(P: Partition, r: nat, h: Edge, s: GlobalSide, q: nat)
    requires s in h && q in s.quads
    ensures SideOf(P, r, s) in DescOf(P, r, h) && OctantOf(P, r, q) in SideOf(P, r, s).octants
  {
    var n :| 0 <= n < |h| && h[n] == s;
    assert DescOf(P, r, h)[n] == SideOf(P, r, s);
    var m :| 0 <= m < |s.quads| && s.quads[m] == q;
    assert SideOf(P, r, s).octants[m] == OctantOf(P, r, q);
  }

  lemma Origin(P: Partition, r: nat, h: Edge, side: Side, o: Octant) returns (s: GlobalSide, q: nat)
    requires side in DescOf(P, r, h) && o in side.octants
    ensures s in h && side == SideOf(P, r, s) && q in s.quads && o == OctantOf(P, r, q)
  {
    var n :| 0 <= n < |h| && SideOf(P, r, h[n]) == side;
    s := h[n];
    var m :| 0 <= m < |s.quads| && o == OctantOf(P, r, s.quads[m]);
    q := s.quads[m];
  }

  lemma ReachesTouches(P: Partition, A: nat, B: nat, h: Edge)
    requires A != B
    ensures Reaches(DescOf(P, A, h), B) <==> Touches(P, B, h)
  {
    if Reaches(DescOf(P, A, h), B) {
      var side, o :| side in DescOf(P, A, h) && o in side.octants && o.isRemote && o.owner == B;
      var s, q := Origin(P, A, h, side, o);
    }
    if Touches(P, B, h) {
      var s, q :| s in h && q in s.quads && P.owner(q) == B;
      Recorded(P, A, h, s, q);
    }
  }

  lemma SendSide(P: Partition, fine: bool, edges: seq<Edge>, A: nat, B: nat, list: seq<Edge>)
    requires Listed(P, A, edges, list) && A != B
    ensures AllSendKeys(fine, Descs(P, A, list), B) == Image(SenderKey(P), Transfers(P, fine, edges, A, B))
  {
    var descs, f := Descs(P, A, list), SenderKey(P);
    hide DescOf, Union, Reaches, Touches, SideOf;
    forall k | k in AllSendKeys(fine, descs, B) ensures k in Image(f, Transfers(P, fine, edges, A, B)) {
      InUnion(SendKeys(fine, B), descs, k);
      var d :| d in descs && k in SendKeys(fine, B)(d);
      var m :| 0 <= m < |list| && d == DescOf(P, A, list[m]);
      assert list[m] in list;
      InUnion(OwnKeys(fine), d, k);
      var side :| side in d && k in OwnKeys(fine)(side);
      var o :| o in side.octants && !o.isRemote && k == Key(o.qid, side.edge);
      var s, q := Origin(P, A, list[m], side, o);
      ReachesTouches(P, A, B, list[m]);
      SideFields(P, A, s);
      assert Crosses(P, fine, A, B, list[m], s, q);
      assert f(Transfer(q, s.edge)) == k;
    }
    forall k | k in Image(f, Transfers(P, fine, edges, A, B)) ensures k in AllSendKeys(fine, descs, B) {
      var t :| t in Transfers(P, fine, edges, A, B) && f(t) == k;
      var h, s, q :| h in edges && s in h && q in s.quads && Crosses(P, fine, A, B, h, s, q) && t == Transfer(q, s.edge);
      TouchedBy(P, A, h, s, q);
      var m :| 0 <= m < |list| && list[m] == h;
      Recorded(P, A, h, s, q);
      ReachesTouches(P, A, B, h);
      SideFields(P, A, s);
      assert k in OwnKeys(fine)(SideOf(P, A, s));
      InUnion(OwnKeys(fine), descs[m], k);
      assert k in SendKeys(fine, B)(descs[m]);
      InUnion(SendKeys(fine, B), descs, k);
    }
  }

  lemma SideFields(P: Partition, r: nat, s: GlobalSide)
    ensures SideOf(P, r, s).edge == s.edge && SideOf(P, r, s).isFine == s.isFine
  {
  }

  lemma TouchedBy(P: Partition, r: nat, h: Edge, s: GlobalSide, q: nat)
    requires s in h && q in s.quads && P.owner(q) == r
    ensures Touches(P, r, h)
  {
  }

  lemma RecvSide(P: Partition, fine: bool, edges: seq<Edge>, A: nat, B: nat, list: seq<Edge>)
    requires Listed(P, B, edges, list) && A != B
    ensures AllRecvKeys(fine, Descs(P, B, list), A) == Image(ReceiverKey(P, B), Transfers(P, fine, edges, A, B))
  {
    var descs, f := Descs(P, B, list), ReceiverKey(P, B);
    hide DescOf, Union, Touches, SideOf;
    forall k | k in AllRecvKeys(fine, descs, A) ensures k in Image(f, Transfers(P, fine, edges, A, B)) {
      InUnion(RecvKeys(fine, A), descs, k);
      var d :| d in descs && k in RecvKeys(fine, A)(d);
      var m :| 0 <= m < |list| && d == DescOf(P, B, list[m]);
      assert list[m] in list;
      InUnion(KeysFrom(fine, A), d, k);
      var side :| side in d && k in KeysFrom(fine, A)(side);
      var o :| o in side.octants && o.isRemote && o.owner == A && k == Key(o.qid, side.edge);
      var s, q := Origin(P, B, list[m], side, o);
      SideFields(P, B, s);
      assert Crosses(P, fine, A, B, list[m], s, q);
      assert f(Transfer(q, s.edge)) == k;
    }
    forall k | k in Image(f, Transfers(P, fine, edges, A, B)) ensures k in AllRecvKeys(fine, descs, A) {
      var t :| t in Transfers(P, fine, edges, A, B) && f(t) == k;
      var h, s, q :| h in edges && s in h && q in s.quads && Crosses(P, fine, A, B, h, s, q) && t == Transfer(q, s.edge);
      assert h in list;
      var m :| 0 <= m < |list| && list[m] == h;
      Recorded(P, B, h, s, q);
      SideFields(P, B, s);
      assert k in KeysFrom(fine, A)(SideOf(P, B, s));
      InUnion(KeysFrom(fine, A), descs[m], k);
      assert k in RecvKeys(fine, A)(descs[m]);
      InUnion(RecvKeys(fine, A), descs, k);
    }
  }

  /** Sender and receiver agree on message sizes and on the slot of every line, and a slot stands for one line. */
  lemma SlotAgreement(P: Partition, nq: nat, fine: bool, edges: seq<Edge>, A: nat, B: nat, listA: seq<Edge>, listB: seq<Edge>)
    requires P.Valid(nq) && WellFormed(nq, edges) && A != B
    requires Listed(P, A, edges, listA) && Listed(P, B, edges, listB)
    ensures var snd, rcv := AllSendKeys(fine, Descs(P, A, listA), B), AllRecvKeys(fine, Descs(P, B, listB), A);
      && |snd| == |rcv|
      && (forall h, s, q | h in edges && Crosses(P, fine, A, B, h, s, q) ::
            SlotOf(snd, Key(P.lid(q), s.edge)) == SlotOf(rcv, Key(P.view(B, q), s.edge)) < |snd|)
      && (forall h, s, q, g, t, p | h in edges && Crosses(P, fine, A, B, h, s, q) && g in edges && Crosses(P, fine, A, B, g, t, p)
            && SlotOf(snd, Key(P.lid(q), s.edge)) == SlotOf(snd, Key(P.lid(p), t.edge)) :: p == q && s.edge == t.edge)
  {
    var ts := Transfers(P, fine, edges, A, B);
    forall t | t in ts ensures t.q < nq && P.owner(t.q) == A {}
    SendSide(P, fine, edges, A, B, listA);
    RecvSide(P, fine, edges, A, B, listB);
    hide SlotOf, Image, Touches, AllSendKeys, AllRecvKeys;
    KeysAgree(P, nq, A, B, ts);
    forall h, s, q | h in edges && Crosses(P, fine, A, B, h, s, q)
      ensures Transfer(q, s.edge) in ts
      ensures Key(P.lid(q), s.edge) == SenderKey(P)(Transfer(q, s.edge)) && Key(P.view(B, q), s.edge) == ReceiverKey(P, B)(Transfer(q, s.edge))
    {
    }
  }
}
