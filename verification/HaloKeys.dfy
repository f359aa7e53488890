/** Keys of the ghost-zone exchange: what each rank asks for, the order that numbers the
    elements, and the agreement of the two ranks of every pair on that numbering. */
module HaloKeys {
  import opened Ordering
  import opened Ranks

  /** The fields that identify a key; kinds are the sections of a message: 0 face, 1 edge, 2 corner, and
      3 more for their coarse-buffer forms. */
  datatype Ident = Ident(rank: nat, kind: nat, quad: nat, elem: nat, p2p: bool)

  /** The comparison the key sets use; elem_slot takes no part in it. */
  predicate KeyLess(a: Ident, b: Ident) {
    if a.rank < b.rank then true else if a.rank > b.rank then false
    else if a.kind < b.kind then true else if a.kind > b.kind then false
    else if a.quad < b.quad then true else if a.quad > b.quad then false
    else if a.elem < b.elem then true else if a.elem > b.elem then false
    else !a.p2p && b.p2p
  }

  /** A key as stored, with the slot it was first inserted with. */
  datatype CommKey = CommKey(id: Ident, slot: nat)

  /** operator==, which leaves the slot out too. */
  predicate SameKey(a: CommKey, b: CommKey) {
    a.id.rank == b.id.rank && a.id.quad == b.id.quad && a.id.elem == b.id.elem && a.id.kind == b.id.kind && a.id.p2p == b.id.p2p
  }

  lemma KeyLessIsStrictTotal()
    ensures StrictTotal(KeyLess)
  {
  }

  /** Two keys are equivalent for the sorted sets exactly when they are equal for the hash maps. */
  lemma OrderMatchesEquality(a: CommKey, b: CommKey)
    ensures SameKey(a, b) <==> !KeyLess(a.id, b.id) && !KeyLess(b.id, a.id)
  {
  }

  /** One call of append_keys on a rank. */
  datatype Request = Request(mKind: nat, hKind: nat, other: nat, miq: nat, hiq: nat, thisElem: nat, otherElem: nat, child: nat, p2p: bool)

  /** The element id both keys carry: the one seen from the smaller rank. */
  function KeyElem(r: nat, q: Request): nat { if q.other < r then q.otherElem else q.thisElem }

  function MirrorKey(r: nat, q: Request): Ident { Ident(q.other, q.mKind, q.miq, KeyElem(r, q), q.p2p) }

  function HaloKey(r: nat, q: Request): Ident { Ident(q.other, q.hKind, q.hiq, KeyElem(r, q), q.p2p) }

  ghost function MirrorKeys(r: nat, reqs: seq<Request>): set<Ident> { set q | q in reqs :: MirrorKey(r, q) }

  ghost function HaloKeysOf(r: nat, reqs: seq<Request>): set<Ident> { set q | q in reqs :: HaloKey(r, q) }

  /** The keys of one section of the message to or from one rank. */
  ghost function Section(keys: set<Ident>, rank: nat, kind: nat): set<Ident> {
    set k | k in keys && k.rank == rank && k.kind == kind
  }

  /** A key's number in its section. */
  ghost function Number(keys: set<Ident>, k: Ident): nat { Slot(KeyLess, Section(keys, k.rank, k.kind), k) }

  /** In a section, numbers ascend with the quadrant, then with the element, then with coarse-buffer exchanges last. */
  lemma NumbersAscend(keys: set<Ident>, k: Ident, j: Ident)
    requires k in keys && j in keys && k.rank == j.rank && k.kind == j.kind
    ensures Number(keys, k) < Number(keys, j)
       <==> k.quad < j.quad || (k.quad == j.quad && (k.elem < j.elem || (k.elem == j.elem && !k.p2p && j.p2p)))
  {
    KeyLessIsStrictTotal();
    hide StrictTotal, Slot;
    SlotOrder(KeyLess, Section(keys, k.rank, k.kind), k, j);
  }

  /** An element (face, edge or corner) of a quadrant. */
  datatype Elem = Elem(q: nat, e: nat)

  /** Neighbour relations of the grid by element group (0 faces, 1 edges, 2 corners): equal
      level, one level apart, and exchanges of coarse buffers between equal levels. */
  datatype Link =
    | Same(group: nat, x: Elem, y: Elem)
    | Graded(group: nat, coarse: Elem, fine: Elem, child: nat)
    | PeerToPeer(group: nat, x: Elem, y: Elem)

  /** One direction of a link: element a sends section mKind to b and receives hKind from it. */
  datatype Arrow = Arrow(mKind: nat, hKind: nat, a: Elem, b: Elem, child: nat, p2p: bool)

  /** Equal levels exchange normal sections; a fine element sends a coarse-buffer section and
      receives a normal one, its coarse neighbour the reverse. */
  function Arrows(l: Link): seq<Arrow> {
    match l
    case Same(g, x, y) => [Arrow(g, g, x, y, 0, false), Arrow(g, g, y, x, 0, false)]
    case Graded(g, c, f, child) => [Arrow(g + 3, g, f, c, 0, false), Arrow(g, g + 3, c, f, child, false)]
    case PeerToPeer(g, x, y) => [Arrow(g + 3, g + 3, x, y, 0, true), Arrow(g + 3, g + 3, y, x, 0, true)]
  }

  ghost predicate Reverse(d: Arrow, r: Arrow) {
    r.a == d.b && r.b == d.a && r.mKind == d.hKind && r.hKind == d.mKind && r.p2p == d.p2p
  }

  lemma ReverseIn(l: Link, d: Arrow) returns (r: Arrow)
    requires d in Arrows(l)
    ensures r in Arrows(l) && Reverse(d, r)
  {
    r := if d == Arrows(l)[0] then Arrows(l)[1] else Arrows(l)[0];
  }

  /** The request rank r makes for an arrow that leaves one of its quadrants for another rank. */
  function RequestFor(P: Partition, r: nat, d: Arrow): Request {
    Request(d.mKind, d.hKind, P.owner(d.b.q), P.lid(d.a.q), P.view(r, d.b.q), d.a.e, d.b.e, d.child, d.p2p)
  }

  ghost predicate Leaves(P: Partition, r: nat, links: seq<Link>, d: Arrow) {
    P.owner(d.a.q) == r && P.owner(d.b.q) != r && exists l :: l in links && d in Arrows(l)
  }

  /** Rank r makes exactly these requests, in some order. */
  ghost predicate Asks(P: Partition, r: nat, links: seq<Link>, reqs: seq<Request>) {
    && (forall q :: q in reqs ==> exists d :: Leaves(P, r, links, d) && q == RequestFor(P, r, d))
    && (forall d :: Leaves(P, r, links, d) ==> RequestFor(P, r, d) in reqs)
  }

  ghost predicate InMesh(nq: nat, links: seq<Link>) {
    && (forall l | l in links :: l.group < 3)
    && forall l, d | l in links && d in Arrows(l) :: d.a.q < nq && d.b.q < nq
  }

  /** An element that crosses ranks: the sending quadrant and the element id of its key. */
  datatype Sent = Sent(q: nat, elem: nat, p2p: bool)

  function SentBy(A: nat, B: nat, d: Arrow): Sent { Sent(d.a.q, if B < A then d.b.e else d.a.e, d.p2p) }

  ghost predicate Crosses(P: Partition, A: nat, B: nat, kind: nat, d: Arrow) {
    P.owner(d.a.q) == A && P.owner(d.b.q) == B && d.mKind == kind
  }

  ghost function AllSent(P: Partition, A: nat, B: nat, kind: nat, links: seq<Link>): set<Sent> {
    set l, d | l in links && d in Arrows(l) && Crosses(P, A, B, kind, d) :: SentBy(A, B, d)
  }

  /** a and b are the two elements of a link, in either order. */
  ghost predicate Ends(l: Link, a: Elem, b: Elem) {
    match l
    case Same(_, x, y) => (a == x && b == y) || (a == y && b == x)
    case Graded(_, c, f, _) => (a == c && b == f) || (a == f && b == c)
    case PeerToPeer(_, x, y) => (a == x && b == y) || (a == y && b == x)
  }

  /** What a sends over a link comes from its coarse buffer if a is the finer side, or if coarse buffers are exchanged. */
  predicate FromCoarseBuffer(l: Link, a: Elem) { l.PeerToPeer? || (l.Graded? && a == l.fine) }

  ghost predicate Carries(P: Partition, A: nat, B: nat, kind: nat, l: Link, a: Elem, b: Elem, s: Sent) {
    && Ends(l, a, b) && P.owner(a.q) == A && P.owner(b.q) == B
    && kind == l.group + (if FromCoarseBuffer(l, a) then 3 else 0)
    && s == Sent(a.q, if B < A then b.e else a.e, l.PeerToPeer?)
  }

  /** The sections of a message, over the links: section g < 3 holds the elements of group g sent from normal buffers,
      section g + 3 those sent from coarse buffers, and nothing else. */
  lemma SectionContents(P: Partition, A: nat, B: nat, kind: nat, links: seq<Link>, s: Sent)
    requires A != B
    ensures s in AllSent(P, A, B, kind, links) <==> exists l, a, b :: l in links && Carries(P, A, B, kind, l, a, b, s)
  {
    if s in AllSent(P, A, B, kind, links) {
      var l, d :| l in links && d in Arrows(l) && Crosses(P, A, B, kind, d) && SentBy(A, B, d) == s;
      assert Carries(P, A, B, kind, l, d.a, d.b, s);
    }
    if l, a, b :| l in links && Carries(P, A, B, kind, l, a, b, s) {
      var d := if Arrows(l)[0].a == a && Arrows(l)[0].b == b then Arrows(l)[0] else Arrows(l)[1];
      assert d in Arrows(l) && Crosses(P, A, B, kind, d) && SentBy(A, B, d) == s;
    }
  }

  /** The sender's and the receiver's key of an element. */
  ghost function MirrorOf(P: Partition, B: nat, kind: nat): (f: Sent -> Ident)
    ensures forall s :: f(s) == Ident(B, kind, P.lid(s.q), s.elem, s.p2p)
  {
    (s: Sent) => Ident(B, kind, P.lid(s.q), s.elem, s.p2p)
  }

  ghost function HaloOf(P: Partition, A: nat, B: nat, kind: nat): (f: Sent -> Ident)
    ensures forall s :: f(s) == Ident(A, kind, P.view(B, s.q), s.elem, s.p2p)
  {
    (s: Sent) => Ident(A, kind, P.view(B, s.q), s.elem, s.p2p)
  }

  /** The section of A's mirror keys for B is what A's quadrants send to B. */
  lemma MirrorSection(P: Partition, A: nat, B: nat, kind: nat, links: seq<Link>, reqs: seq<Request>)
    requires A != B && Asks(P, A, links, reqs)
    ensures Section(MirrorKeys(A, reqs), B, kind) == Image(MirrorOf(P, B, kind), AllSent(P, A, B, kind, links))
  {
    var f := MirrorOf(P, B, kind);
    hide Arrows;
    forall k | k in Section(MirrorKeys(A, reqs), B, kind) ensures k in Image(f, AllSent(P, A, B, kind, links)) {
      var q :| q in reqs && k == MirrorKey(A, q);
      var d :| Leaves(P, A, links, d) && q == RequestFor(P, A, d);
      assert Crosses(P, A, B, kind, d) && f(SentBy(A, B, d)) == k;
    }
    forall k | k in Image(f, AllSent(P, A, B, kind, links)) ensures k in Section(MirrorKeys(A, reqs), B, kind) {
      var l, d :| l in links && d in Arrows(l) && Crosses(P, A, B, kind, d) && f(SentBy(A, B, d)) == k;
      assert Leaves(P, A, links, d);
      assert MirrorKey(A, RequestFor(P, A, d)) == k;
    }
  }

  /** The section of B's halo keys from A is the same elements: every arrow has its reverse. */
  lemma HaloSection(P: Partition, A: nat, B: nat, kind: nat, links: seq<Link>, reqs: seq<Request>)
    requires A != B && Asks(P, B, links, reqs)
    ensures Section(HaloKeysOf(B, reqs), A, kind) == Image(HaloOf(P, A, B, kind), AllSent(P, A, B, kind, links))
  {
    var f := HaloOf(P, A, B, kind);
    hide Arrows;
    forall k | k in Section(HaloKeysOf(B, reqs), A, kind) ensures k in Image(f, AllSent(P, A, B, kind, links)) {
      var q :| q in reqs && k == HaloKey(B, q);
      var d :| Leaves(P, B, links, d) && q == RequestFor(P, B, d);
      var l :| l in links && d in Arrows(l);
      var r := ReverseIn(l, d);
      assert Crosses(P, A, B, kind, r) && f(SentBy(A, B, r)) == k;
    }
    forall k | k in Image(f, AllSent(P, A, B, kind, links)) ensures k in Section(HaloKeysOf(B, reqs), A, kind) {
      var l, d :| l in links && d in Arrows(l) && Crosses(P, A, B, kind, d) && f(SentBy(A, B, d)) == k;
      var r := ReverseIn(l, d);
      assert Leaves(P, B, links, r);
      assert HaloKey(B, RequestFor(P, B, r)) == k;
    }
  }

  lemma KeysCompareAlike(P: Partition, nq: nat, A: nat, B: nat, kind: nat, s: set<Sent>)
    requires P.Valid(nq) && forall t | t in s :: t.q < nq && P.owner(t.q) == A
    ensures forall x, y | x in s && y in s ::
              KeyLess(MirrorOf(P, B, kind)(x), MirrorOf(P, B, kind)(y)) <==> KeyLess(HaloOf(P, A, B, kind)(x), HaloOf(P, A, B, kind)(y))
  {
    forall x, y | x in s && y in s
      ensures KeyLess(MirrorOf(P, B, kind)(x), MirrorOf(P, B, kind)(y)) <==> KeyLess(HaloOf(P, A, B, kind)(x), HaloOf(P, A, B, kind)(y))
    {
      assert P.lid(x.q) < P.lid(y.q) ==> P.view(B, x.q) < P.view(B, y.q);
      assert P.lid(y.q) < P.lid(x.q) ==> P.view(B, y.q) < P.view(B, x.q);
      assert P.lid(x.q) == P.lid(y.q) ==> x.q == y.q;
    }
  }

  /** For every pair of ranks and every section, the sender's numbering of its mirror keys and
      the receiver's numbering of its halo keys agree on the count and on every element; fine
      elements that share a coarse one share its number. */
  lemma HaloAgreement(P: Partition, nq: nat, A: nat, B: nat, kind: nat, links: seq<Link>, reqsA: seq<Request>, reqsB: seq<Request>)
    requires P.Valid(nq) && InMesh(nq, links) && A != B && Asks(P, A, links, reqsA) && Asks(P, B, links, reqsB)
    ensures |Section(MirrorKeys(A, reqsA), B, kind)| == |Section(HaloKeysOf(B, reqsB), A, kind)|
    ensures forall l, d | l in links && d in Arrows(l) && Crosses(P, A, B, kind, d) ::
              Number(MirrorKeys(A, reqsA), MirrorOf(P, B, kind)(SentBy(A, B, d))) == Number(HaloKeysOf(B, reqsB), HaloOf(P, A, B, kind)(SentBy(A, B, d)))
  {
    var s := AllSent(P, A, B, kind, links);
    forall t | t in s ensures t.q < nq && P.owner(t.q) == A {}
    MirrorSection(P, A, B, kind, links, reqsA);
    HaloSection(P, A, B, kind, links, reqsB);
    KeyLessIsStrictTotal();
    KeysCompareAlike(P, nq, A, B, kind, s);
    hide StrictTotal, Slot, Image, Arrows, KeyLess, MirrorKeys, HaloKeysOf;
    SlotsAgree(KeyLess, s, MirrorOf(P, B, kind), HaloOf(P, A, B, kind));
    forall l, d | l in links && d in Arrows(l) && Crosses(P, A, B, kind, d) ensures SentBy(A, B, d) in s {}
  }

  /** Facing elements determine each other (faces f and f xor 1, opposite edges, opposite corners);
      an element has one level relation and faces one element per child. */
  ghost predicate Facing(links: seq<Link>) {
    forall l, d, m, c | l in links && d in Arrows(l) && m in links && c in Arrows(m) :: Faces(d, c)
  }

  ghost predicate Faces(d: Arrow, c: Arrow) {
    && (d.mKind % 3 == c.mKind % 3 ==> (d.a.e == c.a.e <==> d.b.e == c.b.e))
    && (d.mKind % 3 == c.mKind % 3 && d.a == c.a && d.p2p == c.p2p ==> d.mKind == c.mKind && d.hKind == c.hKind)
    && (d.mKind % 3 == c.mKind % 3 && d.a == c.a && d.p2p == c.p2p && d.child == c.child ==> d.b == c.b)
  }

  /** One number in one section means one quadrant and one element. */
  lemma NumberDeterminesElement(P: Partition, nq: nat, A: nat, B: nat, kind: nat, links: seq<Link>, reqs: seq<Request>, d: Arrow, c: Arrow)
    requires P.Valid(nq) && InMesh(nq, links) && Facing(links) && A != B && Asks(P, A, links, reqs)
    requires Leaves(P, A, links, d) && Leaves(P, A, links, c) && Crosses(P, A, B, kind, d) && Crosses(P, A, B, kind, c)
    requires Number(MirrorKeys(A, reqs), MirrorKey(A, RequestFor(P, A, d))) == Number(MirrorKeys(A, reqs), MirrorKey(A, RequestFor(P, A, c)))
    ensures d.a == c.a
  {
    KeyLessIsStrictTotal();
    var keys := MirrorKeys(A, reqs);
    var x, y := MirrorKey(A, RequestFor(P, A, d)), MirrorKey(A, RequestFor(P, A, c));
    assert x in keys && y in keys;
    assert Section(keys, x.rank, x.kind) == Section(keys, y.rank, y.kind);
    hide StrictTotal, Slot;
    SlotInjective(KeyLess, Section(keys, x.rank, x.kind), x, y);
    hide Arrows;
    var l :| l in links && d in Arrows(l);
    var m :| m in links && c in Arrows(m);
    assert Faces(d, c);
  }
}
