/** Global uniqueness of particle ids over whole runs: appending, compacting, migrating,
    and restarting from a checkpoint. */
module ParticleIds {
  import opened Arithmetic
  import opened Checkpoint
  import opened Distribution
  import opened Exchange
  import opened Tracers

  /** Every rank's serial-number counter and the ids of its particles, in order. */
  datatype World = World(counters: seq<nat>, ids: seq<seq<nat>>)

  function Tag(id: nat): nat { id / WORD }

  function Low(id: nat): nat { id % WORD }

  ghost function AllIds(ids: seq<seq<nat>>): multiset<nat> {
    if ids == [] then multiset{} else AllIds(ids[..|ids| - 1]) + multiset(ids[|ids| - 1])
  }

  /** All ids are distinct, and every id that bears a rank's tag lies below that rank's counter. */
  ghost predicate Unique(W: World) {
    && Counting(W) && Distinct(W) && Bounded(AllIds(W.ids), W.counters)
  }

  ghost predicate Counting(W: World) {
    |W.counters| == |W.ids| && forall r | 0 <= r < |W.counters| :: W.counters[r] <= UINT32_MAX
  }

  ghost predicate Distinct(W: World) {
    forall x | x in AllIds(W.ids) :: AllIds(W.ids)[x] == 1
  }

  ghost predicate Bounded(ids: multiset<nat>, counters: seq<nat>) {
    forall x | x in ids && Tag(x) < |counters| :: Low(x) < counters[Tag(x)]
  }

  ghost function IdSeq(s: seq<Particle>): (t: seq<nat>)
    ensures |t| == |s| && forall i | 0 <= i < |s| :: t[i] == s[i].id
  {
    seq(|s|, i requires 0 <= i < |s| => s[i].id)
  }

  /** The ids an append of k particles creates on rank r. */
  ghost function NewIds(r: nat, base: nat, k: nat): (t: seq<nat>)
    ensures |t| == k && forall i | 0 <= i < k :: t[i] == MakeId(r, base + i)
  {
    seq<nat>(k, (i: nat) requires i < k => MakeId(r, base + i))
  }

  /** They are the ids of the particles the container's Append creates. */
  lemma NewIdsAreFresh(r: nat, base: nat, newPos: seq<Vec3>)
    ensures IdSeq(Fresh(r, base, newPos)) == NewIds(r, base, |newPos|)
  {
  }

  /** Rank r's part of the world is what its container holds. */
  ghost predicate Holds(W: World, r: nat, tr: TracerContainer)
    reads tr, tr.pos, tr.id, tr.status, tr.ownerRank, tr.ownerQuad, tr.sample
    requires tr.Valid()
  {
    r < |W.counters| == |W.ids| && W.counters[r] == tr.nextLocalId && W.ids[r] == IdSeq(tr.Contents())
  }

  /** The container's Append is an append step of the world, unless it aborts. */
  method AppendOn(tr: TracerContainer, r: nat, newPos: seq<Vec3>, ghost W: World) returns (aborted: bool, ghost W': World)
    requires tr.Valid() && Holds(W, r, tr)
    modifies tr
    ensures tr.Valid() && Holds(W', r, tr)
    ensures if aborted then W' == W else Appended(W, W', r, |newPos|)
  {
    ghost var s, base := tr.Contents(), tr.nextLocalId;
    hide MakeId;
    aborted := tr.Append(r, newPos);
    W' := W;
    if !aborted {
      NewIdsAreFresh(r, base, newPos);
      assert IdSeq(tr.Contents()) == IdSeq(s) + IdSeq(Fresh(r, base, newPos));
      W' := World(W.counters[r := tr.nextLocalId], W.ids[r := IdSeq(tr.Contents())]);
    }
  }

  /** The container's Compact is a compaction step. */
  method CompactOn(tr: TracerContainer, r: nat, order: seq<nat>, ghost W: World) returns (culled: nat, ghost W': World)
    requires tr.Valid() && Holds(W, r, tr) && forall i :: i in order <==> 0 <= i < tr.n
    modifies tr
    ensures tr.Valid() && Holds(W', r, tr)
    ensures Compacted(W, W', r, old(tr.Contents()))
  {
    hide Live;
    culled := tr.Compact(order);
    W' := W.(ids := W.ids[r := IdSeq(tr.Contents())]);
  }

  /** What can happen between two states. */
  datatype Event =
    | Append(rank: nat, count: nat)
    | Compact(rank: nat, particles: seq<Particle>)
    | Migrate(dests: seq<seq<int>>)
    | Restart
    | RestartOn(nproc: nat)

  ghost predicate Appended(W: World, W': World, r: nat, count: nat) {
    && r < |W.counters| == |W.ids|
    && count % WORD <= UINT32_MAX - W.counters[r]
    && W' == World(W.counters[r := W.counters[r] + count % WORD], W.ids[r := W.ids[r] + NewIds(r, W.counters[r], count)])
  }

  ghost predicate Compacted(W: World, W': World, r: nat, particles: seq<Particle>) {
    && r < |W.ids| && IdSeq(particles) == W.ids[r] && W' == W.(ids := W.ids[r := IdSeq(Live(particles))])
  }

  ghost predicate Migrated(W: World, W': World, dests: seq<seq<int>>) {
    && Shaped(W.ids, dests) && W'.counters == W.counters && |W'.ids| == |W.ids|
    && forall b | 0 <= b < |W.ids| :: W'.ids[b] == Received(W.ids, dests, b, |W.ids|)
  }

  /** Loading a file without particles leaves the counters as the starting program set them. */
  ghost predicate LoadedNothing(W: World, W': World, nproc: nat) {
    |Saved(W.ids)| == 0 && |W'.counters| == nproc && forall r | 0 <= r < nproc :: W'.counters[r] <= UINT32_MAX
  }

  /** Restart on as many ranks as saved: counters are read back, unless no particle was saved. */
  ghost predicate Restarted(W: World, W': World) {
    && |W.ids| > 0 && |W.counters| == |W.ids| && W'.ids == Loaded(Saved(W.ids), |W.ids|)
    && if |Saved(W.ids)| == 0 then LoadedNothing(W, W', |W.ids|) else W'.counters == W.counters
  }

  /** The largest low word of an id that lies in the slice of the rank it is tagged with; -1 if there is none. */
  ghost function OwnMax(slices: seq<seq<nat>>): int {
    if slices == [] then -1 else Max(OwnMax(slices[..|slices| - 1]), OwnMaxIn(slices[|slices| - 1], |slices| - 1))
  }

  ghost function OwnMaxIn(ids: seq<nat>, r: nat): int {
    if ids == [] then -1
    else Max(OwnMaxIn(ids[..|ids| - 1], r), if Tag(ids[|ids| - 1]) == r then Low(ids[|ids| - 1]) else -1)
  }

  function Max(a: int, b: int): int { if a >= b then a else b }

  /** Restart on a different number of ranks: every rank gets one counter, just above the largest own-tag low word found. */
  ghost predicate RestartedOn(W: World, W': World, nproc: nat) {
    && nproc > 0 && nproc != |W.ids| && W'.ids == Loaded(Saved(W.ids), nproc)
    && if |Saved(W.ids)| == 0 then LoadedNothing(W, W', nproc) else W'.counters == seq(nproc, _ => (OwnMax(W'.ids) + 1) % WORD)
  }

  // ---- what every step does to the ids as a whole ----

  lemma {:induction false} AllIdsUpdate(ids: seq<seq<nat>>, r: nat, s: seq<nat>)
    requires r < |ids|
    ensures AllIds(ids[r := s]) == AllIds(ids) - multiset(ids[r]) + multiset(s)
    ensures multiset(ids[r]) <= AllIds(ids)
  {
    var n := |ids| - 1;
    if r < n {
      AllIdsUpdate(ids[..n], r, s);
      assert ids[r := s][..n] == ids[..n][r := s];
    } else {
      assert ids[r := s][..n] == ids[..n];
    }
  }

  lemma {:induction false} AllIdsConcat(ids: seq<seq<nat>>)
    ensures multiset(Concat(ids)) == AllIds(ids)
  {
    if ids != [] { AllIdsConcat(ids[..|ids| - 1]); }
  }

  lemma {:induction false} LiveIds(s: seq<Particle>)
    ensures multiset(IdSeq(Live(s))) <= multiset(IdSeq(s))
  {
    if s != [] {
      var n := |s| - 1;
      LiveIds(s[..n]);
      assert IdSeq(s) == IdSeq(s[..n]) + [s[n].id];
      assert IdSeq(Live(s)) == IdSeq(Live(s[..n])) + if s[n].status == DEFAULT_STATUS then [s[n].id] else [];
    }
  }

  lemma {:induction false} AddressedIsPart(src: seq<nat>, ranks: seq<int>, nproc: nat)
    requires |src| == |ranks|
    ensures Addressed(src, ranks, nproc) <= multiset(src)
  {
    if src != [] {
      AddressedIsPart(src[..|src| - 1], ranks[..|ranks| - 1], nproc);
      assert src == src[..|src| - 1] + [src[|src| - 1]];
    }
  }

  lemma {:induction false} AllAddressedIsPart(ids: seq<seq<nat>>, dests: seq<seq<int>>, nproc: nat, k: nat)
    requires Shaped(ids, dests) && k <= |ids|
    ensures AllAddressed(ids, dests, nproc, k) <= AllIds(ids[..k])
  {
    if k > 0 {
      AllAddressedIsPart(ids, dests, nproc, k - 1);
      AddressedIsPart(ids[k - 1], dests[k - 1], nproc);
      assert ids[..k][..k - 1] == ids[..k - 1];
      hide Addressed;
    }
  }

  lemma {:induction false} AllReceivedIs(W: World, W': World, dests: seq<seq<int>>, n: nat)
    requires Migrated(W, W', dests) && n <= |W.ids|
    ensures AllReceived(W.ids, dests, n, |W.ids|) == AllIds(W'.ids[..n])
  {
    hide Received;
    if n > 0 {
      AllReceivedIs(W, W', dests, n - 1);
      assert W'.ids[..n][..n - 1] == W'.ids[..n - 1];
    }
  }

  /** Steps that only drop or move ids keep uniqueness. */
  lemma FewerIds(W: World, W': World)
    requires Unique(W) && |W'.ids| == |W.ids| && W'.counters == W.counters && AllIds(W'.ids) <= AllIds(W.ids)
    ensures Unique(W')
  {
    forall x | x in AllIds(W'.ids) ensures x in AllIds(W.ids) && AllIds(W'.ids)[x] == 1 {
      assert AllIds(W'.ids)[x] <= AllIds(W.ids)[x];
    }
  }

  lemma CompactKeeps(W: World, W': World, r: nat, particles: seq<Particle>)
    requires Unique(W) && Compacted(W, W', r, particles)
    ensures Unique(W')
  {
    LiveIds(particles);
    AllIdsUpdate(W.ids, r, IdSeq(Live(particles)));
    hide AllIds, Live;
    FewerIds(W, W');
  }

  lemma MigrateKeeps(W: World, W': World, dests: seq<seq<int>>)
    requires Unique(W) && Migrated(W, W', dests)
    ensures Unique(W')
  {
    var n := |W.ids|;
    AllReceivedIs(W, W', dests, n);
    ExchangeConserves(W.ids, dests, n, n);
    AllAddressedIsPart(W.ids, dests, n, n);
    assert W'.ids[..n] == W'.ids && W.ids[..n] == W.ids;
    hide AllIds, AllAddressed, AllReceived, Received;
    FewerIds(W, W');
  }

  /** Reading a checkpoint back on any number of ranks restores the same ids. */
  lemma LoadKeepsIds(ids: seq<seq<nat>>, nproc: nat)
    requires nproc > 0
    ensures AllIds(Loaded(Saved(ids), nproc)) == AllIds(ids)
  {
    SaveLoadRoundTrip(ids, nproc);
    AllIdsConcat(ids);
    AllIdsConcat(Loaded(Saved(ids), nproc));
  }

  lemma RestartKeeps(W: World, W': World)
    requires Unique(W) && Restarted(W, W')
    ensures Unique(W')
  {
    LoadKeepsIds(W.ids, |W.ids|);
    if |Saved(W.ids)| == 0 {
      AllIdsConcat(W.ids);
      assert AllIds(W'.ids) == multiset{};
    } else {
      hide AllIds, Loaded;
      FewerIds(W, W');
    }
  }

  lemma IdParts(r: nat, w: nat)
    requires w < WORD
    ensures Tag(MakeId(r, w)) == r && Low(MakeId(r, w)) == w
  {
    ModUnique(r * WORD + w, WORD, r, w);
    assert (r * WORD + w) / WORD == r;
  }

  lemma NewIdsStep(r: nat, base: nat, k: nat)
    requires k > 0
    ensures NewIds(r, base, k) == NewIds(r, base, k - 1) + [MakeId(r, base + k - 1)]
  {
    hide MakeId;
  }

  /** Id number k of an append, counted from 0. */
  lemma NewIdAt(r: nat, base: nat, count: nat, k: nat)
    requires k < count && base + k < WORD
    ensures var x := MakeId(r, base + k); x in multiset(NewIds(r, base, count)) && Tag(x) == r && Low(x) == base + k
  {
    IdParts(r, base + k);
    hide MakeId, Tag, Low;
    assert NewIds(r, base, count)[k] == MakeId(r, base + k);
  }

  /** Ids of one append are pairwise distinct and lie in [base, base + k) under their rank's tag. */
  lemma {:induction false} NewIdsDistinct(r: nat, base: nat, k: nat, x: nat)
    requires base + k <= WORD
    ensures x in multiset(NewIds(r, base, k)) <==> Tag(x) == r && base <= Low(x) < base + k
    ensures multiset(NewIds(r, base, k))[x] <= 1
  {
    if k > 0 {
      hide *;
      NewIdsDistinct(r, base, k - 1, x);
      var y := MakeId(r, base + k - 1);
      IdParts(r, base + k - 1);
      NewIdsStep(r, base, k);
      if Tag(x) == Tag(y) && Low(x) == Low(y) { SameParts(x, y); }
      assert multiset(NewIds(r, base, k)) == multiset(NewIds(r, base, k - 1)) + multiset{y};
    }
  }

  lemma SameParts(x: nat, y: nat)
    requires Tag(x) == Tag(y) && Low(x) == Low(y)
    ensures x == y
  {
  }

  /** Appending keeps ids unique exactly when the number of new particles fits 32 bits: beyond
      that, the counter advances by less than the number of ids handed out. */
  lemma AppendKeeps(W: World, W': World, r: nat, count: nat)
    requires Unique(W) && Appended(W, W', r, count)
    ensures Unique(W') <==> count < WORD
  {
    AppendedIds(W, W', r, count);
    if count < WORD { SmallAppendKeeps(W, W', r, count); } else { LargeAppendBreaks(W, W', r, count); }
  }

  lemma AppendedIds(W: World, W': World, r: nat, count: nat)
    requires Appended(W, W', r, count)
    ensures AllIds(W'.ids) == AllIds(W.ids) + multiset(NewIds(r, W.counters[r], count))
  {
    AllIdsUpdate(W.ids, r, W'.ids[r]);
    assert multiset(W'.ids[r]) == multiset(W.ids[r]) + multiset(NewIds(r, W.counters[r], count));
  }

  lemma SmallAppendKeeps(W: World, W': World, r: nat, count: nat)
    requires Unique(W) && Appended(W, W', r, count) && count < WORD
    requires AllIds(W'.ids) == AllIds(W.ids) + multiset(NewIds(r, W.counters[r], count))
    ensures Unique(W')
  {
    var base := W.counters[r];
    hide *;
    SmallAppendCounters(W, W', r, count);
    forall x | x in AllIds(W'.ids) ensures IdFine(W', x) {
      if x in AllIds(W.ids) { UniqueAt(W, x); }
      NewIdsDistinct(r, base, count, x);
      OldOrNew(AllIds(W.ids), multiset(NewIds(r, base, count)), W.counters, r, count, x);
      FineFrom(W', x);
    }
    UniqueFrom(W');
  }

  lemma SmallAppendCounters(W: World, W': World, r: nat, count: nat)
    requires Unique(W) && Appended(W, W', r, count) && count < WORD
    ensures r < |W.counters| == |W'.counters| == |W'.ids| && W.counters[r] + count <= WORD
    ensures W'.counters == W.counters[r := W.counters[r] + count] && forall q | 0 <= q < |W'.counters| :: W'.counters[q] <= UINT32_MAX
  {
    ModUnique(count, WORD, 0, count);
    var m := count % WORD;
    assert m == count;
    hide AllIds, Bounded;
  }

  /** What uniqueness says about one id. */
  ghost predicate IdFine(W: World, x: nat) {
    AllIds(W.ids)[x] == 1 && (Tag(x) < |W.counters| ==> Low(x) < W.counters[Tag(x)])
  }

  lemma FineFrom(W: World, x: nat)
    requires AllIds(W.ids)[x] == 1 && (Tag(x) < |W.counters| ==> Low(x) < W.counters[Tag(x)])
    ensures IdFine(W, x)
  {
  }

  lemma UniqueFrom(W: World)
    requires |W.counters| == |W.ids| && (forall r | 0 <= r < |W.counters| :: W.counters[r] <= UINT32_MAX)
    requires forall x | x in AllIds(W.ids) :: IdFine(W, x)
    ensures Unique(W)
  {
    hide Tag, Low, AllIds;
  }

  lemma UniqueAt(W: World, x: nat)
    requires Unique(W) && x in AllIds(W.ids)
    ensures AllIds(W.ids)[x] == 1 && (Tag(x) < |W.counters| ==> Low(x) < W.counters[Tag(x)])
  {
    hide Tag, Low, AllIds;
  }

  /** An id is either old, and then below the old counter, or new, and then not. */
  lemma OldOrNew(old_: multiset<nat>, new_: multiset<nat>, counters: seq<nat>, r: nat, count: nat, x: nat)
    requires r < |counters| && x in old_ + new_ && new_[x] <= 1
    requires x in old_ ==> old_[x] == 1 && (Tag(x) < |counters| ==> Low(x) < counters[Tag(x)])
    requires x in new_ <==> Tag(x) == r && counters[r] <= Low(x) < counters[r] + count
    ensures (old_ + new_)[x] == 1
    ensures Tag(x) < |counters| ==> Low(x) < counters[r := counters[r] + count][Tag(x)]
  {
    hide Tag, Low;
  }

  /** What an append does to the counters. */
  lemma AppendedCounter(W: World, W': World, r: nat, count: nat)
    requires Counting(W) && Appended(W, W', r, count)
    ensures Counting(W') && r < |W'.counters| && W'.counters[r] == W.counters[r] + count % WORD
  {
  }

  /** An append of 2^32 particles or more hands out an id at its new counter. */
  lemma LargeAppendBreaks(W: World, W': World, r: nat, count: nat)
    requires Counting(W) && Appended(W, W', r, count) && count >= WORD
    requires AllIds(W'.ids) == AllIds(W.ids) + multiset(NewIds(r, W.counters[r], count))
    ensures Counting(W') && r < |W'.counters|
    ensures var x := MakeId(r, W'.counters[r]); x in AllIds(W'.ids) && Tag(x) == r && Low(x) == W'.counters[r]
    ensures !Unique(W')
  {
    AppendedCounter(W, W', r, count);
    hide AllIds, MakeId, Tag, Low, Appended;
    NewIdAt(r, W.counters[r], count, count % WORD);
  }

  /** Some rank's counter does not lie above an id of its own: appending on that rank makes the id again. */
  lemma UnboundedCollides(W: World, x: nat) returns (count: nat, W': World)
    requires Counting(W) && x in AllIds(W.ids) && Tag(x) < |W.counters| && Low(x) >= W.counters[Tag(x)]
    ensures Appended(W, W', Tag(x), count) && AllIds(W'.ids)[x] >= 2
    ensures count == if Low(x) < UINT32_MAX then Low(x) + 1 - W.counters[Tag(x)] else WORD
    ensures Low(x) < UINT32_MAX ==> count < WORD
  {
    var r, base := Tag(x), W.counters[Tag(x)];
    count := if Low(x) < UINT32_MAX then Low(x) + 1 - base else WORD;
    hide AllIds, MakeId, Tag, Low, NewIds, Appended;
    CutCount(base, Low(x), count);
    W' := TakeAppend(W, r, count);
    AppendedIds(W, W', r, count);
    NewIdAt(r, base, count, Low(x) - base);
    SameParts(x, MakeId(r, Low(x)));
  }

  lemma TakeAppend(W: World, r: nat, count: nat) returns (W': World)
    requires r < |W.counters| == |W.ids| && W.counters[r] <= UINT32_MAX && count % WORD <= UINT32_MAX - W.counters[r]
    ensures Appended(W, W', r, count)
  {
    W' := World(W.counters[r := W.counters[r] + count % WORD], W.ids[r := W.ids[r] + NewIds(r, W.counters[r], count)]);
  }

  lemma CutCount(base: nat, low: nat, count: nat)
    requires base <= low < WORD && count == if low < UINT32_MAX then low + 1 - base else WORD
    ensures 0 <= UINT32_MAX - base && count % WORD <= UINT32_MAX - base && low - base < count && (low < UINT32_MAX ==> count < WORD)
  {
    if low < UINT32_MAX { ModUnique(count, WORD, 0, count); } else { ModUnique(WORD, WORD, 1, 0); }
  }

  /** No append of fewer than 2^32 particles, on any rank, creates an id that is already there. */
  ghost predicate AppendSafe(W: World) {
    forall r: nat, count: nat, W' | count < WORD && Appended(W, W', r, count) :: Distinct(W')
  }

  /** The invariant says just that: as long as no rank has used up its counter, it holds exactly
      when the ids are distinct and no next append can repeat one. */
  lemma UniqueIsAppendSafe(W: World)
    requires Counting(W) && Distinct(W) && forall x | x in AllIds(W.ids) && Tag(x) < |W.counters| :: Low(x) < UINT32_MAX
    ensures Unique(W) <==> AppendSafe(W)
  {
    hide AllIds, Tag, Low;
    if Unique(W) {
      forall r: nat, count: nat, W' | count < WORD && Appended(W, W', r, count) ensures Distinct(W') { AppendKeeps(W, W', r, count); }
    } else {
      var x :| x in AllIds(W.ids) && Tag(x) < |W.counters| && Low(x) >= W.counters[Tag(x)];
      var count, W' := UnboundedCollides(W, x);
      assert x in AllIds(W'.ids) && !Distinct(W');
    }
  }

  /** After appending 2^32 particles or more in one call, one more particle repeats an id; where the
      counter has no room for one, another such append does. */
  lemma LargeAppendCollides(W: World, W': World, r: nat, count: nat) returns (more: nat, W'': World)
    requires Unique(W) && Appended(W, W', r, count) && count >= WORD
    ensures Appended(W', W'', r, more) && AllIds(W''.ids)[MakeId(r, W'.counters[r])] >= 2
    ensures more == if W'.counters[r] < UINT32_MAX then 1 else WORD
  {
    hide AllIds, MakeId, Tag, Low, NewIds;
    AppendedIds(W, W', r, count);
    LargeAppendBreaks(W, W', r, count);
    hide Appended;
    more, W'' := UnboundedCollides(W', MakeId(r, W'.counters[r]));
  }

  /** Appending keeps ids distinct, now and through the next append, exactly when fewer than 2^32
      particles are appended, as long as the counter has room for one more. */
  lemma AppendExact(W: World, W': World, r: nat, count: nat)
    requires Unique(W) && Appended(W, W', r, count) && W'.counters[r] < UINT32_MAX
    ensures count < WORD <==> Distinct(W') && AppendSafe(W')
  {
    hide AllIds, MakeId, Tag, Low, Appended;
    AppendKeeps(W, W', r, count);
    AppendedRank(W, W', r, count);
    if count < WORD {
      forall q: nat, k: nat, W'' | k < WORD && Appended(W', W'', q, k) ensures Distinct(W'') { AppendKeeps(W', W'', q, k); }
    } else {
      var more, W'' := LargeAppendCollides(W, W', r, count);
      assert MakeId(r, W'.counters[r]) in AllIds(W''.ids) && !Distinct(W'');
    }
  }

  lemma AppendedRank(W: World, W': World, r: nat, count: nat)
    requires Appended(W, W', r, count)
    ensures r < |W'.counters|
  {
  }

  /** A run of one rank: 2^32 particles at once, then one more, which repeats the first id. */
  lemma LargeAppendCanCollide() returns (states: seq<World>, events: seq<Event>)
    ensures Run(states, events) && Unique(states[0]) && events == [Append(0, WORD), Append(0, 1)]
    ensures AllIds(states[2].ids)[MakeId(0, 0)] == 2
  {
    var ids, x := NewIds(0, 0, WORD), MakeId(0, 0);
    var w0, w1, w2 := World([0], [[]]), World([0], [ids]), World([1], [ids + [x]]);
    states, events := [w0, w1, w2], [Append(0, WORD), Append(0, 1)];
    assert NewIds(0, 0, 1) == [x] by { hide MakeId; }
    IdParts(0, 0);
    hide *;
    NewIdsDistinct(0, 0, WORD, x);
    OneRank([]);
    OneRank(ids + [x]);
    AloneIsUnique(w0);
    WordAppended(w0, w1, ids);
    OneAppended(w1, w2, 0, x);
    TwoSteps(states, events);
  }

  lemma AloneIsUnique(W: World)
    requires W.counters == [0] && |W.ids| == 1 && AllIds(W.ids) == multiset([])
    ensures Unique(W)
  {
    hide AllIds;
  }

  lemma WordAppended(W: World, W': World, ids: seq<nat>)
    requires W == World([0], [[]]) && W' == World([0], [ids]) && ids == NewIds(0, 0, WORD)
    ensures Appended(W, W', 0, WORD)
  {
    ModUnique(WORD, WORD, 1, 0);
    hide NewIds;
    assert [] + ids == ids;
  }

  lemma TwoSteps(states: seq<World>, events: seq<Event>)
    requires |states| == 3 && events == [Append(0, WORD), Append(0, 1)]
    requires Appended(states[0], states[1], 0, WORD) && Appended(states[1], states[2], 0, 1)
    ensures Run(states, events)
  {
    hide Appended;
    forall n | 0 <= n < 2 ensures Step(states[n], events[n], states[n + 1]) {
      if n == 0 { assert events[n] == Append(0, WORD); } else { assert n == 1; }
    }
  }

  lemma OneRank(ids: seq<nat>)
    ensures AllIds([ids]) == multiset(ids)
  {
    assert [ids][..0] == [];
  }

  // ---- restart on a different number of ranks ----

  lemma {:induction false} OwnMaxInBound(ids: seq<nat>, r: nat)
    ensures -1 <= OwnMaxIn(ids, r) < WORD
    ensures forall i | 0 <= i < |ids| && Tag(ids[i]) == r :: Low(ids[i]) <= OwnMaxIn(ids, r)
    ensures OwnMaxIn(ids, r) >= 0 ==> exists x :: x in ids && Tag(x) == r && Low(x) == OwnMaxIn(ids, r)
  {
    if ids != [] {
      OwnMaxInBound(ids[..|ids| - 1], r);
      assert ids == ids[..|ids| - 1] + [ids[|ids| - 1]];
    }
  }

  lemma {:induction false} OwnMaxBound(slices: seq<seq<nat>>)
    ensures -1 <= OwnMax(slices) < WORD
    ensures OwnMax(slices) >= 0 ==> exists x :: x in AllIds(slices) && Tag(x) < |slices| && Low(x) == OwnMax(slices)
  {
    if slices != [] {
      var n := |slices| - 1;
      OwnMaxBound(slices[..n]);
      OwnMaxInBound(slices[n], n);
    }
  }

  lemma {:induction false} OwnMaxCovers(slices: seq<seq<nat>>, r: nat, x: nat)
    requires r < |slices| && x in slices[r] && Tag(x) == r
    ensures Low(x) <= OwnMax(slices)
  {
    var n := |slices| - 1;
    if r < n {
      OwnMaxCovers(slices[..n], r, x);
    } else {
      OwnMaxInBound(slices[n], n);
    }
  }

  /** The condition a caller can read off the loaded slices: the largest own-tag low word bounds
      the low word of every id tagged with a rank that exists, and one more still fits. */
  ghost predicate Covered(slices: seq<seq<nat>>) {
    && OwnMax(slices) < UINT32_MAX
    && forall x | x in AllIds(slices) && Tag(x) < |slices| :: Low(x) <= OwnMax(slices)
  }

  lemma CounterAbove(m: int)
    requires -1 <= m < WORD
    ensures (m + 1) % WORD == if m < UINT32_MAX then m + 1 else 0
  {
    if m < UINT32_MAX { ModUnique(m + 1, WORD, 0, m + 1); }
  }

  /** A restart leaves the ids distinct, whatever becomes of the counters. */
  lemma RestartedDistinct(W: World, W': World, nproc: nat)
    requires Unique(W) && RestartedOn(W, W', nproc)
    ensures Counting(W') && Distinct(W') && |W'.ids| == nproc && AllIds(W'.ids) == AllIds(W.ids)
  {
    LoadKeepsIds(W.ids, nproc);
    hide AllIds, OwnMax, Loaded, Tag, Low;
  }

  /** The restored counters bound the ids exactly when the slices are covered. */
  lemma BoundedIffCovered(slices: seq<seq<nat>>, counters: seq<nat>)
    requires |counters| == |slices| && forall r | 0 <= r < |counters| :: counters[r] == (OwnMax(slices) + 1) % WORD
    ensures Bounded(AllIds(slices), counters) <==> Covered(slices)
  {
    OwnMaxBound(slices);
    var m := OwnMax(slices);
    hide AllIds, OwnMax, Tag, Low;
    CounterAbove(m);
    if m >= UINT32_MAX {
      var x :| x in AllIds(slices) && Tag(x) < |slices| && Low(x) == m;
      assert counters[Tag(x)] == 0;
    }
  }

  lemma NothingIsCovered(slices: seq<seq<nat>>)
    requires AllIds(slices) == multiset{}
    ensures Covered(slices)
  {
    OwnMaxBound(slices);
    hide AllIds, OwnMax, Tag, Low;
  }

  /** Restarting on another number of ranks keeps the invariant exactly when that condition holds. */
  lemma RestartOnKeeps(W: World, W': World, nproc: nat)
    requires Unique(W) && RestartedOn(W, W', nproc)
    ensures Unique(W') <==> Covered(W'.ids)
  {
    RestartedDistinct(W, W', nproc);
    AllIdsConcat(W.ids);
    hide AllIds, OwnMax, Loaded, Tag, Low, Covered;
    if |Saved(W.ids)| == 0 {
      NothingIsCovered(W'.ids);
    } else {
      BoundedIffCovered(W'.ids, W'.counters);
    }
  }

  /** In terms of ids: as long as no saved serial number is the last of the counter's range, the restart
      keeps ids distinct, now and through the next append, exactly when the slices are covered. */
  lemma RestartOnExact(W: World, W': World, nproc: nat)
    requires Unique(W) && RestartedOn(W, W', nproc) && forall x | x in AllIds(W.ids) && Tag(x) < nproc :: Low(x) < UINT32_MAX
    ensures Distinct(W') && (Covered(W'.ids) <==> AppendSafe(W'))
  {
    RestartedDistinct(W, W', nproc);
    RestartOnKeeps(W, W', nproc);
    hide AllIds, Tag, Low, RestartedOn, Covered, AppendSafe, Distinct;
    UniqueIsAppendSafe(W');
  }

  /** Without that proviso: where the slices are not covered, some next append repeats an id. */
  lemma UncoveredCollides(W: World, W': World, nproc: nat) returns (x: nat, count: nat, W'': World)
    requires Unique(W) && RestartedOn(W, W', nproc) && !Covered(W'.ids)
    ensures Appended(W', W'', Tag(x), count) && AllIds(W''.ids)[x] >= 2
  {
    RestartedDistinct(W, W', nproc);
    RestartOnKeeps(W, W', nproc);
    hide AllIds, Tag, Low, RestartedOn, Covered, Distinct, Appended;
    x :| x in AllIds(W'.ids) && Tag(x) < |W'.counters| && Low(x) >= W'.counters[Tag(x)];
    count, W'' := UnboundedCollides(W', x);
  }

  /** One rank's scan of its slice for ids with its own tag. */
  method ScanOwnTag(ids: seq<nat>, tag: nat) returns (any: bool, maxLo: nat)
    ensures OwnMaxIn(ids, tag) == if any then maxLo else -1
    ensures !any ==> maxLo == 0
  {
    any, maxLo := false, 0;
    for i := 0 to |ids|
      invariant OwnMaxIn(ids[..i], tag) == if any then maxLo else -1
      invariant !any ==> maxLo == 0
    {
      assert ids[..i + 1][..i] == ids[..i];
      OwnMaxInBound(ids[..i], tag);
      hide Low, Tag;
      if Tag(ids[i]) == tag {
        maxLo := if !any || maxLo < Low(ids[i]) then Low(ids[i]) else maxLo;
        any := true;
      }
    }
    assert ids[..|ids|] == ids;
  }

  /** The scans of all ranks, reduced to one counter for everybody. */
  method RestoreCounter(slices: seq<seq<nat>>) returns (counter: nat)
    ensures counter == (OwnMax(slices) + 1) % WORD
  {
    var anyGlobal, maxGlobal: nat := false, 0;
    for r := 0 to |slices|
      invariant OwnMax(slices[..r]) == if anyGlobal then maxGlobal else -1
      invariant !anyGlobal ==> maxGlobal == 0
    {
      assert slices[..r + 1][..r] == slices[..r];
      assert OwnMax(slices[..r + 1]) == Max(OwnMax(slices[..r]), OwnMaxIn(slices[r], r));
      hide OwnMax, OwnMaxIn;
      OwnMaxBound(slices[..r]);
      OwnMaxInBound(slices[r], r);
      var any, maxLo := ScanOwnTag(slices[r], r);
      maxGlobal := if maxLo > maxGlobal then maxLo else maxGlobal;
      anyGlobal := anyGlobal || any;
    }
    assert slices[..|slices|] == slices;
    counter := if anyGlobal then (maxGlobal + 1) % WORD else 0;
  }

  /** A run that ends with two particles of one id: rank 1 of 2 creates its first particle, the
      checkpoint is read by 3 ranks, whose rank 0 gets that particle, and rank 1 starts again at 0. */
  lemma RestartCanCollide() returns (states: seq<World>, events: seq<Event>)
    ensures Run(states, events) && Unique(states[0]) && events == [Append(1, 1), RestartOn(3), Append(1, 1)]
    ensures AllIds(states[3].ids)[MakeId(1, 0)] == 2 && !Unique(states[3])
  {
    var x := MakeId(1, 0);
    var w0, w1 := World([0, 0], [[], []]), World([0, 1], [[], [x]]);
    var w2, w3 := World([0, 0, 0], [[x], [], []]), World([0, 1, 0], [[x], [x], []]);
    states, events := [w0, w1, w2, w3], [Append(1, 1), RestartOn(3), Append(1, 1)];
    IdParts(1, 0);
    assert NewIds(1, 0, 1) == [x];
    hide *;
    AllIdsConcat(w0.ids);
    AllIdsConcat(w3.ids);
    ConcatSmall(x);
    OneAppended(w0, w1, 1, x);
    OneAppended(w2, w3, 1, x);
    ThreeSlices(x);
    ReadByThree(w1, w2);
    EmptyIsUnique(w0);
    TwiceIsNot(w3, x);
    ThreeSteps(states, events);
  }

  lemma ReadByThree(W: World, W': World)
    requires |W.ids| == 2 && W'.ids == Loaded(Saved(W.ids), 3) && OwnMax(W'.ids) == -1 && W'.counters == [0, 0, 0]
    ensures RestartedOn(W, W', 3)
  {
    hide Loaded;
  }

  lemma EmptyIsUnique(W: World)
    requires W.counters == [0, 0] && |W.ids| == 2 && AllIds(W.ids) == multiset([])
    ensures Unique(W)
  {
    hide AllIds;
  }

  lemma TwiceIsNot(W: World, x: nat)
    requires AllIds(W.ids) == multiset([x, x])
    ensures AllIds(W.ids)[x] == 2 && !Unique(W)
  {
    hide AllIds;
  }

  lemma ThreeSteps(states: seq<World>, events: seq<Event>)
    requires |states| == 4 && events == [Append(1, 1), RestartOn(3), Append(1, 1)]
    requires Appended(states[0], states[1], 1, 1) && RestartedOn(states[1], states[2], 3) && Appended(states[2], states[3], 1, 1)
    ensures Run(states, events)
  {
    hide Appended, RestartedOn;
    forall n | 0 <= n < 3 ensures Step(states[n], events[n], states[n + 1]) {
      if n == 0 { assert events[n] == Append(1, 1); } else if n == 1 { assert events[n] == RestartOn(3); } else { assert n == 2; }
    }
  }

  lemma OneAppended(W: World, W': World, r: nat, x: nat)
    requires r < |W.counters| == |W.ids| && W.counters[r] == 0 && NewIds(r, 0, 1) == [x]
    requires W' == World(W.counters[r := 1], W.ids[r := W.ids[r] + [x]])
    ensures Appended(W, W', r, 1)
  {
    ModUnique(1, WORD, 0, 1);
  }

  lemma ConcatSmall(x: nat)
    ensures Concat([[x], [x], []]) == [x, x]
    ensures var none: seq<nat> := []; Concat([none, none]) == [] && Concat([none, [x]]) == [x]
  {
    var none: seq<nat> := [];
    assert [[x], [x], none][..2] == [[x], [x]] && [[x], [x]][..1] == [[x]] && [[x]][..0] == [];
    assert Concat([[x]]) == [x];
    assert [none, [x]][..1] == [none] && [none, none][..1] == [none] && [none][..0] == [];
    assert Concat([none]) == [];
  }

  /** One particle of rank 1 among two ranks, read by three: rank 0 gets it, and no rank finds an own tag. */
  lemma ThreeSlices(x: nat)
    requires Tag(x) == 1
    ensures var none: seq<nat> := []; Loaded(Saved([none, [x]]), 3) == [[x], none, none]
    ensures OwnMax([[x], [], []]) == -1
  {
    var none: seq<nat> := [];
    ConcatSmall(x);
    var file := Saved([none, [x]]);
    assert EqualSlice(1, 0, 3) == Slice(0, 1) && EqualSlice(1, 1, 3) == Slice(1, 0) && EqualSlice(1, 2, 3) == Slice(1, 0);
    assert LoadedBy(file, 0, 3) == [x] && LoadedBy(file, 1, 3) == none && LoadedBy(file, 2, 3) == none;
    assert [[x], none, none][..2] == [[x], none] && [[x], none][..1] == [[x]] && [[x]][..0] == [];
    assert [x][..0] == none;
    assert OwnMaxIn([x], 0) == -1 && OwnMaxIn(none, 1) == -1 && OwnMaxIn(none, 2) == -1;
    assert OwnMax([[x]]) == -1;
    assert OwnMax([[x], none]) == -1;
  }

  // ---- whole runs ----

  ghost predicate Step(W: World, ev: Event, W': World) {
    match ev
    case Append(r, count) => Appended(W, W', r, count)
    case Compact(r, particles) => Compacted(W, W', r, particles)
    case Migrate(dests) => Migrated(W, W', dests)
    case Restart => Restarted(W, W')
    case RestartOn(nproc) => RestartedOn(W, W', nproc)
  }

  /** The steps that cannot go wrong: appends of fewer than 2^32 particles, and restarts that
      keep the number of ranks or load slices whose own-tag maximum covers them. */
  ghost predicate Sound(ev: Event, W': World) {
    && (ev.Append? ==> ev.count < WORD)
    && (ev.RestartOn? ==> Covered(W'.ids))
  }

  ghost predicate Run(states: seq<World>, events: seq<Event>) {
    |states| == |events| + 1 && forall n | 0 <= n < |events| :: Step(states[n], events[n], states[n + 1])
  }

  /** In every state of every run of such steps, all particle ids of all ranks are distinct. */
  lemma {:induction false} RunsKeepIdsUnique(states: seq<World>, events: seq<Event>, n: nat)
    requires Run(states, events) && Unique(states[0]) && n < |states|
    requires forall k | 0 <= k < |events| :: Sound(events[k], states[k + 1])
    ensures Unique(states[n])
  {
    if n > 0 {
      RunsKeepIdsUnique(states, events, n - 1);
      var W, W' := states[n - 1], states[n];
      assert Step(W, events[n - 1], W') && Sound(events[n - 1], states[n - 1 + 1]);
      hide Unique, Appended, Compacted, Migrated, Restarted, RestartedOn, Covered;
      match events[n - 1]
      case Append(r, count) => AppendKeeps(W, W', r, count);
      case Compact(r, particles) => CompactKeeps(W, W', r, particles);
      case Migrate(dests) => MigrateKeeps(W, W', dests);
      case Restart => RestartKeeps(W, W');
      case RestartOn(nproc) => RestartOnKeeps(W, W', nproc);
    }
  }
}
