/** The two sides of every coarse-fine exchange number its slots alike. */
module HangingAgreement {
  import opened Ordering
  import opened Grid
  import opened Ranks
  import opened RefluxKeys
  import opened HangingFaces

  ghost predicate Touches(P: Partition, r: nat, h: HangingFace) {
    P.owner(h.coarse.q) == r || exists n | 0 <= n < |h.fine| :: P.owner(h.fine[n].q) == r
  }

  /** Rank r's list holds exactly the faces with a quadrant of its own, in some order. */
  ghost predicate Listed(P: Partition, r: nat, faces: seq<HangingFace>, list: seq<HangingFace>) {
    forall h :: h in list <==> h in faces && Touches(P, r, h)
  }

  /** The two sides of a face have opposite face numbers. */
  ghost predicate WellFormed(nq: nat, faces: seq<HangingFace>) {
    forall h, n | h in faces && 0 <= n < |h.fine| ::
      h.coarse.q < nq && h.fine[n].q < nq && h.coarse.f < 6 && h.fine[n].f == Opposite(h.coarse.f)
  }

  /** The face number on the smaller rank; the sender A owns the fine side. */
  function KeyElem(A: nat, B: nat, h: HangingFace, n: nat): nat
    requires n < |h.fine|
  {
    if A < B then h.fine[n].f else h.coarse.f
  }

  ghost predicate Crosses(P: Partition, A: nat, B: nat, h: HangingFace, n: nat) {
    n < |h.fine| && P.owner(h.fine[n].q) == A && P.owner(h.coarse.q) == B
  }

  ghost function Transfers(P: Partition, faces: seq<HangingFace>, A: nat, B: nat): set<Transfer> {
    set h, n | h in faces && 0 <= n < |h.fine| && Crosses(P, A, B, h, n) :: Transfer(h.fine[n].q, KeyElem(A, B, h, n))
  }

  lemma DescKeys(P: Partition, nq: nat, faces: seq<HangingFace>, A: nat, B: nat, h: HangingFace, n: nat)
    requires WellFormed(nq, faces) && h in faces && n < |h.fine| && A != B
    ensures var d := DescOf(P, A, h);
      && (Sends(d, n) && d.coarseOwner == B <==> Crosses(P, A, B, h, n))
      && (Crosses(P, A, B, h, n) ==> SendKey(d, A, n) == Key(P.lid(h.fine[n].q), KeyElem(A, B, h, n)))
    ensures var d := DescOf(P, B, h);
      && (Receives(d, n) && d.fine[n].owner == A <==> Crosses(P, A, B, h, n))
      && (Crosses(P, A, B, h, n) ==> RecvKey(d, B, n) == Key(P.view(B, h.fine[n].q), KeyElem(A, B, h, n)))
  {
    assert h.fine[0].f == Opposite(h.coarse.f) == h.fine[n].f;
  }

  /** The keys A sends to B are the transfers, numbered as A numbers its own quadrants. */
  lemma SendSide(P: Partition, nq: nat, faces: seq<HangingFace>, A: nat, B: nat, list: seq<HangingFace>)
    requires WellFormed(nq, faces) && Listed(P, A, faces, list) && A != B
    ensures AllSendKeys(Descs(P, A, list), A, B) == Image(SenderKey(P), Transfers(P, faces, A, B))
  {
    var descs, f := Descs(P, A, list), SenderKey(P);
    hide WellFormed, DescOf, Union, KeyElem;
    forall k | k in AllSendKeys(descs, A, B) ensures k in Image(f, Transfers(P, faces, A, B)) {
      InUnion(SendKeys(A, B), descs, k);
      var d :| d in descs && k in SendKeys(A, B)(d);
      var m :| 0 <= m < |list| && d == DescOf(P, A, list[m]);
      assert list[m] in list;
      var n :| 0 <= n < |d.fine| && Sends(d, n) && d.coarseOwner == B && k == SendKey(d, A, n);
      SameLength(P, A, list[m]);
      DescKeys(P, nq, faces, A, B, list[m], n);
      assert f(Transfer(list[m].fine[n].q, KeyElem(A, B, list[m], n))) == k;
    }
    forall k | k in Image(f, Transfers(P, faces, A, B)) ensures k in AllSendKeys(descs, A, B) {
      var t :| t in Transfers(P, faces, A, B) && f(t) == k;
      var h, n :| h in faces && 0 <= n < |h.fine| && Crosses(P, A, B, h, n) && t == Transfer(h.fine[n].q, KeyElem(A, B, h, n));
      assert h in list;
      var m :| 0 <= m < |list| && list[m] == h;
      var d := descs[m];
      SameLength(P, A, h);
      DescKeys(P, nq, faces, A, B, h, n);
      assert k in SendKeys(A, B)(d);
      InUnion(SendKeys(A, B), descs, k);
    }
  }

  lemma SameLength(P: Partition, r: nat, h: HangingFace)
    ensures |DescOf(P, r, h).fine| == |h.fine|
  {
  }

  /** The keys B receives from A are the same transfers, numbered as B knows A's quadrants. */
  lemma RecvSide(P: Partition, nq: nat, faces: seq<HangingFace>, A: nat, B: nat, list: seq<HangingFace>)
    requires WellFormed(nq, faces) && Listed(P, B, faces, list) && A != B
    ensures AllRecvKeys(Descs(P, B, list), B, A) == Image(ReceiverKey(P, B), Transfers(P, faces, A, B))
  {
    var descs, f := Descs(P, B, list), ReceiverKey(P, B);
    hide WellFormed, DescOf, Union, KeyElem;
    forall k | k in AllRecvKeys(descs, B, A) ensures k in Image(f, Transfers(P, faces, A, B)) {
      InUnion(RecvKeys(B, A), descs, k);
      var d :| d in descs && k in RecvKeys(B, A)(d);
      var m :| 0 <= m < |list| && d == DescOf(P, B, list[m]);
      assert list[m] in list;
      var n :| 0 <= n < |d.fine| && Receives(d, n) && d.fine[n].owner == A && k == RecvKey(d, B, n);
      SameLength(P, B, list[m]);
      DescKeys(P, nq, faces, A, B, list[m], n);
      assert f(Transfer(list[m].fine[n].q, KeyElem(A, B, list[m], n))) == k;
    }
    forall k | k in Image(f, Transfers(P, faces, A, B)) ensures k in AllRecvKeys(descs, B, A) {
      var t :| t in Transfers(P, faces, A, B) && f(t) == k;
      var h, n :| h in faces && 0 <= n < |h.fine| && Crosses(P, A, B, h, n) && t == Transfer(h.fine[n].q, KeyElem(A, B, h, n));
      assert h in list;
      var m :| 0 <= m < |list| && list[m] == h;
      var d := descs[m];
      SameLength(P, B, h);
      DescKeys(P, nq, faces, A, B, h, n);
      assert k in RecvKeys(B, A)(d);
      InUnion(RecvKeys(B, A), descs, k);
    }
  }

  /** For every pair of ranks, the sender and the receiver expect messages of equal
      size and give each fine quadrant of each face the same slot. */
  lemma SlotAgreement(P: Partition, nq: nat, faces: seq<HangingFace>, A: nat, B: nat, listA: seq<HangingFace>, listB: seq<HangingFace>)
    requires P.Valid(nq) && WellFormed(nq, faces) && A != B
    requires Listed(P, A, faces, listA) && Listed(P, B, faces, listB)
    ensures |AllSendKeys(Descs(P, A, listA), A, B)| == |AllRecvKeys(Descs(P, B, listB), B, A)|
    ensures forall h, n | h in faces && 0 <= n < |h.fine| && Crosses(P, A, B, h, n) ::
              SlotOf(AllSendKeys(Descs(P, A, listA), A, B), SendKey(DescOf(P, A, h), A, n))
              == SlotOf(AllRecvKeys(Descs(P, B, listB), B, A), RecvKey(DescOf(P, B, h), B, n))
  {
    var s := Transfers(P, faces, A, B);
    forall t | t in s ensures t.q < nq && P.owner(t.q) == A {}
    SendSide(P, nq, faces, A, B, listA);
    RecvSide(P, nq, faces, A, B, listB);
    hide SlotOf, Image, DescOf;
    KeysAgree(P, nq, A, B, s);
    forall h, n | h in faces && 0 <= n < |h.fine| && Crosses(P, A, B, h, n)
      ensures SlotOf(AllSendKeys(Descs(P, A, listA), A, B), SendKey(DescOf(P, A, h), A, n))
              == SlotOf(AllRecvKeys(Descs(P, B, listB), B, A), RecvKey(DescOf(P, B, h), B, n))
    {
      DescKeys(P, nq, faces, A, B, h, n);
      assert Transfer(h.fine[n].q, KeyElem(A, B, h, n)) in s;
    }
  }

  /** Two faces that share a slot in the message from A to B are one face. */
  lemma SlotDeterminesFace(P: Partition, nq: nat, faces: seq<HangingFace>, A: nat, B: nat, list: seq<HangingFace>,
                           g: HangingFace, m: nat, h: HangingFace, n: nat)
    requires P.Valid(nq) && WellFormed(nq, faces) && A != B && Listed(P, A, faces, list) && g in faces && h in faces
    requires Crosses(P, A, B, g, m) && Crosses(P, A, B, h, n)
    requires SlotOf(AllSendKeys(Descs(P, A, list), A, B), SendKey(DescOf(P, A, g), A, m))
          == SlotOf(AllSendKeys(Descs(P, A, list), A, B), SendKey(DescOf(P, A, h), A, n))
    ensures g.fine[m] == h.fine[n]
  {
    SendSide(P, nq, faces, A, B, list);
    DescKeys(P, nq, faces, A, B, g, m);
    DescKeys(P, nq, faces, A, B, h, n);
    var s := Transfers(P, faces, A, B);
    forall t | t in s ensures t.q < nq && P.owner(t.q) == A {}
    var tg, th := Transfer(g.fine[m].q, KeyElem(A, B, g, m)), Transfer(h.fine[n].q, KeyElem(A, B, h, n));
    assert tg in s && th in s;
    hide SlotOf, Image, DescOf;
    KeysAgree(P, nq, A, B, s);
    assert tg == th;
  }
}
