/** Several children of a coarse element on one rank share one buffer slot: the kernel that
    survives deduplication reads exactly the buffer-id cell that was written. */
module HaloSlots {
  import opened Ordering
  import opened Ranks
  import opened HaloKeys
  import opened HaloBuilder

  /** The calls a rank makes are those of the arrows that leave it. */
  ghost predicate FromMesh(P: Partition, r: nat, links: seq<Link>, calls: seq<Call>) {
    && (forall c | c in calls :: exists d :: Stems(P, r, links, c, d))
    && (forall d | Leaves(P, r, links, d) :: exists c :: c in calls && Stems(P, r, links, c, d))
  }

  ghost predicate Stems(P: Partition, r: nat, links: seq<Link>, c: Call, d: Arrow) {
    Leaves(P, r, links, d) && c.req == RequestFor(P, r, d) && c.desc == Desc(P.lid(d.a.q), d.mKind % 3, d.a.e)
  }

  /** What the mesh guarantees of any two calls. */
  ghost predicate Consistent(r: nat, c: Call, d: Call) {
    && (MirrorKey(r, c.req) == MirrorKey(r, d.req) ==> c.desc == d.desc && (Finer(c) <==> Finer(d)))
    && (c.desc == d.desc && c.req.child == d.req.child && c.req.p2p == d.req.p2p ==> MirrorKey(r, c.req) == MirrorKey(r, d.req))
    && (Finer(c) && Finer(d) && c.desc == d.desc && c.req.other == d.req.other ==> MirrorKey(r, c.req) == MirrorKey(r, d.req))
  }

  lemma MeshCallsConsistent(P: Partition, nq: nat, r: nat, links: seq<Link>, calls: seq<Call>, c: Call, d: Call)
    requires P.Valid(nq) && InMesh(nq, links) && Facing(links) && FromMesh(P, r, links, calls) && c in calls && d in calls
    ensures Consistent(r, c, d)
  {
    var x :| Stems(P, r, links, c, x);
    var y :| Stems(P, r, links, d, y);
    hide Arrows;
    var l :| l in links && x in Arrows(l);
    var m :| m in links && y in Arrows(m);
    assert Faces(x, y) && x.a.q < nq && y.a.q < nq;
    assert P.lid(x.a.q) == P.lid(y.a.q) <==> x.a.q == y.a.q;
    hide *;
    ConsistentArrows(P, r, links, c, d, x, y);
  }

  lemma ConsistentArrows(P: Partition, r: nat, links: seq<Link>, c: Call, d: Call, x: Arrow, y: Arrow)
    requires Stems(P, r, links, c, x) && Stems(P, r, links, d, y) && Faces(x, y)
    requires P.lid(x.a.q) == P.lid(y.a.q) <==> x.a.q == y.a.q
    ensures Consistent(r, c, d)
  {
    assert c.req == RequestFor(P, r, x) && c.desc == Desc(P.lid(x.a.q), x.mKind % 3, x.a.e);
    assert d.req == RequestFor(P, r, y) && d.desc == Desc(P.lid(y.a.q), y.mKind % 3, y.a.e);
    var same := x.mKind % 3 == y.mKind % 3;
    assert x.mKind == y.mKind ==> same;
    hide Stems, Leaves;
  }

  lemma {:induction false} FirstChildOf(r: nat, calls: seq<Call>, k: Ident) returns (c: Call)
    requires k in KeysOf(r, calls)
    ensures c in calls && MirrorKey(r, c.req) == k && c.req.child == FirstChild(r, calls, k)
  {
    var n := |calls| - 1;
    assert calls == calls[..n] + [calls[n]];
    if exists c :: c in calls[..n] && MirrorKey(r, c.req) == k {
      c := FirstChildOf(r, calls[..n], k);
    } else {
      c := calls[n];
    }
  }

  lemma SameKeys(r: nat, c: Call, c': Call, e: Call, e': Call, k: Ident, j: Ident, d: Desc)
    requires Consistent(r, c, e) && Consistent(r, c', e') && Consistent(r, c, c')
    requires MirrorKey(r, c.req) == k && MirrorKey(r, e.req) == k && MirrorKey(r, c'.req) == j && MirrorKey(r, e'.req) == j
    requires e.desc == d && e'.desc == d && c.req.child == c'.req.child && k.p2p == j.p2p
    ensures k == j
  {
  }

  /** So different keys write different cells. */
  lemma MeshCellsApart(P: Partition, nq: nat, r: nat, links: seq<Link>, calls: seq<Call>)
    requires P.Valid(nq) && InMesh(nq, links) && Facing(links) && FromMesh(P, r, links, calls)
    ensures CellsApart(r, calls)
  {
    hide FromMesh, Facing, InMesh, Consistent;
    forall k, j, d | k in KeysOf(r, calls) && j in KeysOf(r, calls) && d in DescsOf(r, calls, k) && d in DescsOf(r, calls, j)
        && FirstChild(r, calls, k) == FirstChild(r, calls, j) && k.p2p == j.p2p ensures k == j
    {
      var c := FirstChildOf(r, calls, k);
      var c' := FirstChildOf(r, calls, j);
      NoDescs(r, calls, k);
      NoDescs(r, calls, j);
      var e :| e in calls && MirrorKey(r, e.req) == k && e.desc == d;
      var e' :| e' in calls && MirrorKey(r, e'.req) == j && e'.desc == d;
      MeshCallsConsistent(P, nq, r, links, calls, c, e);
      MeshCallsConsistent(P, nq, r, links, calls, c', e');
      MeshCallsConsistent(P, nq, r, links, calls, c, c');
      SameKeys(r, c, c', e, e', k, j, d);
    }
  }

  /** The child of the first task for a rank and a descriptor. */
  ghost function FirstTask(tasks: seq<Task>, rank: nat, desc: Desc): nat {
    if tasks == [] then 0
    else
      var n := |tasks| - 1;
      if Listed(tasks[..n], rank, desc) || tasks[n].rank != rank || tasks[n].desc != desc then FirstTask(tasks[..n], rank, desc) else tasks[n].child
  }

  ghost predicate Listed(tasks: seq<Task>, rank: nat, desc: Desc) {
    exists t :: t in tasks && t.rank == rank && t.desc == desc
  }

  /** Deduplicating the packing kernels ignores the child and keeps the first of each. */
  method Dedup(tasks: seq<Task>) returns (kept: seq<Task>)
    ensures forall t | t in kept :: t in tasks && t.child == FirstTask(tasks, t.rank, t.desc)
    ensures forall t | t in tasks :: Listed(kept, t.rank, t.desc)
    ensures forall m, n | 0 <= m < n < |kept| :: kept[m].rank != kept[n].rank || kept[m].desc != kept[n].desc
  {
    kept := [];
    for i := 0 to |tasks|
      invariant forall t | t in kept :: t in tasks[..i] && t.child == FirstTask(tasks[..i], t.rank, t.desc)
      invariant forall t | t in tasks[..i] :: Listed(kept, t.rank, t.desc)
      invariant forall m, n | 0 <= m < n < |kept| :: kept[m].rank != kept[n].rank || kept[m].desc != kept[n].desc
    {
      var t := tasks[i];
      TaskStep(tasks, i);
      var found := false;
      for m := 0 to |kept|
        invariant found <==> Listed(kept[..m], t.rank, t.desc)
      {
        assert kept[..m + 1] == kept[..m] + [kept[m]];
        if kept[m].rank == t.rank && kept[m].desc == t.desc { found := true; }
      }
      assert kept[..|kept|] == kept;
      KeptStep(tasks, i, kept);
      if !found { kept := kept + [t]; }
    }
    assert tasks[..|tasks|] == tasks;
  }

  lemma TaskStep(tasks: seq<Task>, i: nat)
    requires i < |tasks|
    ensures tasks[..i + 1] == tasks[..i] + [tasks[i]]
    ensures forall q, d :: FirstTask(tasks[..i + 1], q, d)
              == if Listed(tasks[..i], q, d) || tasks[i].rank != q || tasks[i].desc != d then FirstTask(tasks[..i], q, d) else tasks[i].child
  {
    assert tasks[..i + 1][..i] == tasks[..i];
  }

  lemma KeptStep(tasks: seq<Task>, i: nat, kept: seq<Task>)
    requires i < |tasks| && (forall t | t in kept :: t in tasks[..i]) && forall t | t in tasks[..i] :: Listed(kept, t.rank, t.desc)
    ensures Listed(kept, tasks[i].rank, tasks[i].desc) <==> Listed(tasks[..i], tasks[i].rank, tasks[i].desc)
    ensures forall q, d :: Listed(kept, q, d) ==> Listed(kept + [tasks[i]], q, d)
    ensures Listed(kept + [tasks[i]], tasks[i].rank, tasks[i].desc)
  {
    forall q, d | Listed(kept, q, d) ensures Listed(kept + [tasks[i]], q, d) {
      var t :| t in kept && t.rank == q && t.desc == d;
      assert t in kept + [tasks[i]];
    }
    assert tasks[i] in kept + [tasks[i]];
  }

  ghost predicate AllConsistent(r: nat, calls: seq<Call>) {
    forall c, d | c in calls && d in calls :: Consistent(r, c, d)
  }

  lemma {:induction false} TasksListed(calls: seq<Call>, rank: nat, desc: Desc)
    ensures Listed(Tasks(calls), rank, desc) <==> exists c :: c in calls && Finer(c) && c.req.other == rank && c.desc == desc
  {
    if calls != [] {
      var n := |calls| - 1;
      TasksListed(calls[..n], rank, desc);
      assert calls == calls[..n] + [calls[n]];
      var last := Task(calls[n].req.other, calls[n].desc, calls[n].req.child);
      if Finer(calls[n]) {
        assert Tasks(calls) == Tasks(calls[..n]) + [last] && last in Tasks(calls);
        if Listed(Tasks(calls[..n]), rank, desc) {
          var t :| t in Tasks(calls[..n]) && t.rank == rank && t.desc == desc;
          assert t in Tasks(calls);
        }
      } else {
        assert Tasks(calls) == Tasks(calls[..n]);
      }
    }
  }

  /** The first task for a descriptor and rank has the child of the first call with their key. */
  lemma {:induction false} FirstTaskIsFirstChild(r: nat, calls: seq<Call>, w: Call, n: nat)
    requires AllConsistent(r, calls) && w in calls && Finer(w) && n <= |calls|
    ensures FirstTask(Tasks(calls[..n]), w.req.other, w.desc) == FirstChild(r, calls[..n], MirrorKey(r, w.req))
  {
    var k, rank, desc := MirrorKey(r, w.req), w.req.other, w.desc;
    if n > 0 {
      FirstTaskIsFirstChild(r, calls, w, n - 1);
      var init, last := calls[..n - 1], calls[n - 1];
      assert calls[..n][..n - 1] == init;
      TasksListed(init, rank, desc);
      assert forall c | c in calls[..n] :: c in calls;
      assert forall c | c in calls :: Consistent(r, c, w) && Consistent(r, w, c);
      assert (exists c :: c in init && MirrorKey(r, c.req) == k) <==> Listed(Tasks(init), rank, desc) by {
        KeyMeansTask(r, calls, w);
        hide MirrorKey, Consistent, Finer;
        assert forall c | c in init :: c in calls;
      }
      KeyMeansTask(r, calls, w);
      assert last in calls;
      FirstOfLast(init, last, rank, desc);
      hide Consistent;
    }
  }

  /** Having the key and being a call for that rank and descriptor are the same. */
  lemma KeyMeansTask(r: nat, calls: seq<Call>, w: Call)
    requires AllConsistent(r, calls) && w in calls && Finer(w)
    ensures forall c | c in calls :: MirrorKey(r, c.req) == MirrorKey(r, w.req) <==> Finer(c) && c.req.other == w.req.other && c.desc == w.desc
  {
    forall c | c in calls
      ensures MirrorKey(r, c.req) == MirrorKey(r, w.req) <==> Finer(c) && c.req.other == w.req.other && c.desc == w.desc
    {
      assert Consistent(r, c, w);
    }
  }

  lemma FirstOfLast(init: seq<Call>, last: Call, rank: nat, desc: Desc)
    ensures var here := Finer(last) && last.req.other == rank && last.desc == desc;
      FirstTask(Tasks(init + [last]), rank, desc)
      == if here && !Listed(Tasks(init), rank, desc) then last.req.child else FirstTask(Tasks(init), rank, desc)
  {
    assert (init + [last])[..|init|] == init;
    var ts := Tasks(init);
    if Finer(last) {
      var t := Task(last.req.other, last.desc, last.req.child);
      assert Tasks(init + [last]) == ts + [t] && (ts + [t])[..|ts|] == ts;
    } else {
      assert Tasks(init + [last]) == ts;
    }
  }

  /** A call made for the coarse element and the rank a packing kernel serves. */
  predicate CallOf(c: Call, t: Task) { Finer(c) && c.desc == t.desc && c.req.other == t.rank }

  /** The cell of the kernel's own child holds the number of the kernel's own coarse element: of the key
      of every call made for it. */
  ghost predicate FindsOwnNumber(r: nat, calls: seq<Call>, ids: map<Cell, nat>, t: Task) {
    && Cell(t.desc, t.child, false) in ids
    && forall c | c in calls && CallOf(c, t) :: ids[Cell(t.desc, t.child, false)] == Number(KeysOf(r, calls), MirrorKey(r, c.req))
  }

  /** A coarse element of rank r with a finer neighbour on another rank q. */
  ghost predicate Across(P: Partition, r: nat, q: nat, links: seq<Link>, l: Link) {
    l in links && l.Graded? && P.owner(l.coarse.q) == r && P.owner(l.fine.q) == q && q != r
  }

  /** Its packing kernel, and what it sends. */
  function TaskFor(P: Partition, l: Link): Task
    requires l.Graded?
  {
    Task(P.owner(l.fine.q), Desc(P.lid(l.coarse.q), l.group, l.coarse.e), l.child)
  }

  function CoarseArrow(l: Link): Arrow
    requires l.Graded?
  {
    Arrow(l.group, l.group + 3, l.coarse, l.fine, l.child, false)
  }

  /** A call for a finer neighbour stems from a coarse element's arrow and from no other. */
  lemma FinerIsCoarse(l: Link, d: Arrow)
    requires d in Arrows(l)
    ensures d.hKind == d.mKind + 3 && !d.p2p <==> l.Graded? && d == CoarseArrow(l)
  {
  }

  lemma CallIsAcross(P: Partition, nq: nat, r: nat, links: seq<Link>, calls: seq<Call>, c: Call) returns (l: Link)
    requires InMesh(nq, links) && FromMesh(P, r, links, calls) && c in calls && Finer(c)
    ensures Across(P, r, c.req.other, links, l) && TaskFor(P, l) == Task(c.req.other, c.desc, c.req.child)
    ensures MirrorKey(r, c.req) == MirrorOf(P, c.req.other, l.group)(SentBy(r, c.req.other, CoarseArrow(l)))
  {
    var d :| Stems(P, r, links, c, d);
    hide Arrows;
    l :| l in links && d in Arrows(l);
    FinerIsCoarse(l, d);
  }

  lemma AcrossHasCall(P: Partition, nq: nat, r: nat, q: nat, links: seq<Link>, calls: seq<Call>, l: Link) returns (c: Call)
    requires InMesh(nq, links) && FromMesh(P, r, links, calls) && Across(P, r, q, links, l)
    ensures c in calls && CallOf(c, TaskFor(P, l)) && MirrorKey(r, c.req) == MirrorOf(P, q, l.group)(SentBy(r, q, CoarseArrow(l)))
  {
    var d := CoarseArrow(l);
    assert d in Arrows(l);
    hide Arrows;
    assert Leaves(P, r, links, d);
    c :| c in calls && Stems(P, r, links, c, d);
  }

  /** The kernel of every coarse element that faces rank t.rank with t's descriptor finds the number that element is sent under. */
  ghost predicate FindsNumber(P: Partition, r: nat, links: seq<Link>, calls: seq<Call>, ids: map<Cell, nat>, t: Task) {
    && Cell(t.desc, t.child, false) in ids
    && forall l | Across(P, r, t.rank, links, l) && TaskFor(P, l).desc == t.desc ::
         ids[Cell(t.desc, t.child, false)] == Number(KeysOf(r, calls), MirrorOf(P, t.rank, l.group)(SentBy(r, t.rank, CoarseArrow(l))))
  }

  /** The whole send side of a rank: insert, number, deduplicate. There is exactly one packing kernel for each coarse
      element and each other rank with a finer neighbour of it, and for nothing else, and it finds the element's number
      in the cell of its own child. */
  method BuildSends(rank: nat, calls: seq<Call>, keys: seq<Ident>, ghost P: Partition, ghost nq: nat, ghost links: seq<Link>)
    returns (b: Builder, kept: seq<Task>)
    requires P.Valid(nq) && InMesh(nq, links) && Facing(links) && FromMesh(P, rank, links, calls)
    requires Increasing(KeyLess, keys) && Elements(keys) == KeysOf(rank, calls)
    ensures fresh(b) && b.Holds(calls) && b.rank == rank
    ensures forall t | t in kept :: exists l :: Across(P, rank, t.rank, links, l) && t == TaskFor(P, l)
    ensures forall q, l | Across(P, rank, q, links, l) :: Listed(kept, q, TaskFor(P, l).desc)
    ensures forall m, n | 0 <= m < n < |kept| :: kept[m].rank != kept[n].rank || kept[m].desc != kept[n].desc
    ensures forall t | t in kept :: FindsNumber(P, rank, links, calls, b.sendIds, t)
  {
    MeshCellsApart(P, nq, rank, links, calls);
    b := new Builder(rank);
    for n := 0 to |calls|
      invariant fresh(b) && b.rank == rank && b.Holds(calls[..n]) && b.counts == map[] && b.sendIds == map[]
    {
      b.AppendKeys(calls[n], calls[..n]);
      assert calls[..n + 1] == calls[..n] + [calls[n]];
    }
    assert calls[..|calls|] == calls;
    hide KeysOf, FirstChild, DescsOf, Tasks, Number, Elements, Increasing, KeyLess, CellsApart, FirstTask, Facing, InMesh, FromMesh, Across;
    b.NumberKeys(keys, calls);
    kept := Dedup(b.packFiner);
    assert Written(rank, calls, b.sendIds);
    forall t | t in kept
      ensures FindsNumber(P, rank, links, calls, b.sendIds, t) && exists l :: Across(P, rank, t.rank, links, l) && t == TaskFor(P, l)
    {
      var l := SurvivorIsAcross(P, nq, rank, links, calls, b.sendIds, t);
    }
    forall q, l | Across(P, rank, q, links, l) ensures Listed(kept, q, TaskFor(P, l).desc) {
      AcrossIsTask(P, nq, rank, q, links, calls, l);
    }
  }

  lemma AcrossIsTask(P: Partition, nq: nat, r: nat, q: nat, links: seq<Link>, calls: seq<Call>, l: Link)
    requires InMesh(nq, links) && FromMesh(P, r, links, calls) && Across(P, r, q, links, l)
    ensures exists t :: t in Tasks(calls) && t.rank == q && t.desc == TaskFor(P, l).desc
  {
    var c := AcrossHasCall(P, nq, r, q, links, calls, l);
    TasksListed(calls, q, TaskFor(P, l).desc);
  }

  lemma SurvivorIsAcross(P: Partition, nq: nat, r: nat, links: seq<Link>, calls: seq<Call>, ids: map<Cell, nat>, t: Task) returns (l: Link)
    requires P.Valid(nq) && InMesh(nq, links) && Facing(links) && FromMesh(P, r, links, calls)
    requires t in Tasks(calls) && t.child == FirstTask(Tasks(calls), t.rank, t.desc) && Written(r, calls, ids)
    ensures Across(P, r, t.rank, links, l) && t == TaskFor(P, l) && FindsNumber(P, r, links, calls, ids, t)
  {
    hide KeysOf, FirstChild, DescsOf, Tasks, Number, FirstTask, MirrorKey, Facing, InMesh, FromMesh, Written;
    forall c, d | c in calls && d in calls ensures Consistent(r, c, d) {
      MeshCallsConsistent(P, nq, r, links, calls, c, d);
    }
    SurvivorFinds(r, calls, ids, t);
    var c := TaskCall(calls, t);
    l := CallIsAcross(P, nq, r, links, calls, c);
    forall m | Across(P, r, t.rank, links, m) && TaskFor(P, m).desc == t.desc
      ensures ids[Cell(t.desc, t.child, false)] == Number(KeysOf(r, calls), MirrorOf(P, t.rank, m.group)(SentBy(r, t.rank, CoarseArrow(m))))
    {
      var d := AcrossHasCall(P, nq, r, t.rank, links, calls, m);
    }
  }

  lemma {:induction false} TaskCall(calls: seq<Call>, t: Task) returns (c: Call)
    requires t in Tasks(calls)
    ensures c in calls && Finer(c) && t == Task(c.req.other, c.desc, c.req.child)
  {
    var n := |calls| - 1;
    if t in Tasks(calls[..n]) { c := TaskCall(calls[..n], t); } else { c := calls[n]; }
  }

  /** End to end: the number under which a surviving kernel packs its element is the number the
      receiving rank reads that element under, in the same section. */
  lemma PackedWhereRead(P: Partition, nq: nat, links: seq<Link>, r: nat, calls: seq<Call>, ids: map<Cell, nat>, t: Task, l: Link, reqs: seq<Request>)
    requires P.Valid(nq) && InMesh(nq, links) && FromMesh(P, r, links, calls) && Asks(P, t.rank, links, reqs)
    requires FindsNumber(P, r, links, calls, ids, t) && Across(P, r, t.rank, links, l) && TaskFor(P, l).desc == t.desc
    ensures ids[Cell(t.desc, t.child, false)]
         == Number(HaloKeysOf(t.rank, reqs), HaloOf(P, r, t.rank, l.group)(SentBy(r, t.rank, CoarseArrow(l))))
  {
    var made := seq(|calls|, n requires 0 <= n < |calls| => calls[n].req);
    assert CoarseArrow(l) in Arrows(l);
    RequestsMade(P, r, links, calls, made);
    assert Crosses(P, r, t.rank, l.group, CoarseArrow(l)) && l in links && r != t.rank;
    hide Arrows, InMesh, FromMesh, Asks, Number, MirrorKeys, HaloKeysOf, KeysOf;
    HaloAgreement(P, nq, r, t.rank, l.group, links, made, reqs);
  }

  /** The requests of a rank's calls. */
  lemma RequestsMade(P: Partition, r: nat, links: seq<Link>, calls: seq<Call>, made: seq<Request>)
    requires FromMesh(P, r, links, calls) && |made| == |calls| && forall n | 0 <= n < |calls| :: made[n] == calls[n].req
    ensures Asks(P, r, links, made) && MirrorKeys(r, made) == KeysOf(r, calls)
  {
    hide Arrows, Leaves;
    forall q | q in made ensures exists d :: Leaves(P, r, links, d) && q == RequestFor(P, r, d) {
      var n :| 0 <= n < |made| && made[n] == q;
      assert calls[n] in calls;
      var d :| Stems(P, r, links, calls[n], d);
    }
    forall d | Leaves(P, r, links, d) ensures RequestFor(P, r, d) in made {
      var c :| c in calls && Stems(P, r, links, c, d);
      var n :| 0 <= n < |calls| && calls[n] == c;
      assert made[n] == RequestFor(P, r, d);
    }
    forall c | c in calls ensures MirrorKey(r, c.req) in MirrorKeys(r, made) {
      var n :| 0 <= n < |calls| && calls[n] == c;
      assert made[n] in made;
    }
  }

  /** Every key's number stands in the cells of its descriptors. */
  ghost predicate Written(r: nat, calls: seq<Call>, ids: map<Cell, nat>) {
    forall k, d | k in KeysOf(r, calls) && d in DescsOf(r, calls, k) ::
      var x := Cell(d, FirstChild(r, calls, k), k.p2p); x in ids && ids[x] == Number(KeysOf(r, calls), k)
  }

  lemma SurvivorFinds(r: nat, calls: seq<Call>, ids: map<Cell, nat>, t: Task)
    requires AllConsistent(r, calls) && t in Tasks(calls) && t.child == FirstTask(Tasks(calls), t.rank, t.desc) && Written(r, calls, ids)
    ensures FindsOwnNumber(r, calls, ids, t)
  {
    hide AllConsistent, KeysOf, FirstChild, DescsOf, Tasks, Number, FirstTask, MirrorKey;
    var c := SurvivorCall(r, calls, t);
    KeyMeansTask(r, calls, c);
  }

  /** A surviving task's call, and where its number was written. */
  lemma SurvivorCall(r: nat, calls: seq<Call>, t: Task) returns (c: Call)
    requires AllConsistent(r, calls) && t in Tasks(calls) && t.child == FirstTask(Tasks(calls), t.rank, t.desc)
    ensures c in calls && MirrorKey(r, c.req) in KeysOf(r, calls) && CallOf(c, t)
    ensures t.child == FirstChild(r, calls, MirrorKey(r, c.req)) && t.desc in DescsOf(r, calls, MirrorKey(r, c.req))
    ensures MirrorKey(r, c.req).rank == t.rank && !MirrorKey(r, c.req).p2p
  {
    assert Listed(Tasks(calls), t.rank, t.desc);
    TasksListed(calls, t.rank, t.desc);
    c :| c in calls && Finer(c) && c.req.other == t.rank && c.desc == t.desc;
    FirstTaskIsFirstChild(r, calls, c, |calls|);
    assert calls[..|calls|] == calls;
    Recorded(r, calls, c);
  }

  lemma {:induction false} Recorded(r: nat, calls: seq<Call>, c: Call)
    requires c in calls
    ensures c.desc in DescsOf(r, calls, MirrorKey(r, c.req))
  {
    var n := |calls| - 1;
    if c != calls[n] {
      assert calls == calls[..n] + [calls[n]];
      Recorded(r, calls[..n], c);
    }
  }
}
