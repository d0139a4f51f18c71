/** When the duplicate set of a queue says exactly which identities are queued. */
module TickExact {
  import opened World
  import opened TickTypes
  import opened TickHeap
  import opened TickState
  import opened TickPhase
  import opened TickQueues
  import opened TickArea
  import opened TickCopy

  /** A detached queue holding only saved entries, each of them scheduled. */
  function Loaded(saved: seq<SavedTick>): ChunkQueue {
    ChunkQueue([], set s | s in saved :: s.Id(), Some(saved))
  }

  function SavedIds(saved: seq<SavedTick>): seq<Identity> {
    seq(|saved|, i requires 0 <= i < |saved| => saved[i].Id())
  }

  /** Identities of everything queued or pending, with multiplicity. */
  ghost function Entries(q: ChunkQueue): multiset<Identity> {
    multiset(Ids(q.heap)) + multiset(SavedIds(q.Saved()))
  }

  /** No identity is queued twice and the duplicate set is exactly the queued identities. */
  ghost predicate ExactQueue(q: ChunkQueue) {
    Entries(q) == multiset(q.identities)
  }

  lemma HoldsIsEntry(q: ChunkQueue, id: Identity)
    ensures Holds(q, id) <==> id in Entries(q)
  {
    var a, b := Ids(q.heap), SavedIds(q.Saved());
    if id in a {
      var i :| 0 <= i < |a| && a[i] == id;
      assert q.heap[i] in q.heap;
    }
    if id in b {
      var i :| 0 <= i < |b| && b[i] == id;
      assert q.Saved()[i] in q.Saved();
    }
    if t :| t in q.heap && t.Id() == id {
      var i :| 0 <= i < |q.heap| && q.heap[i] == t;
      assert a[i] == id;
    }
    if s :| s in q.Saved() && s.Id() == id {
      var i :| 0 <= i < |q.Saved()| && q.Saved()[i] == s;
      assert b[i] == id;
    }
    assert id in Entries(q) <==> id in multiset(a) || id in multiset(b);
  }

  /** In an exact queue the duplicate set answers precisely whether an identity is queued. */
  lemma ExactHolds(q: ChunkQueue, id: Identity)
    requires ExactQueue(q)
    ensures Holds(q, id) <==> id in q.identities
  {
    HoldsIsEntry(q, id);
    assert id in multiset(q.identities) <==> id in q.identities;
  }

  lemma IdsConcat(a: seq<ScheduledTick>, b: seq<ScheduledTick>)
    ensures Ids(a + b) == Ids(a) + Ids(b)
  {
  }

  lemma RestOfPermutation(a: seq<ScheduledTick>, b: seq<ScheduledTick>, j: nat)
    requires multiset(a) == multiset(b) && a != [] && j < |b| && b[j] == a[0]
    ensures multiset(a[1..]) == multiset(b[..j] + b[j + 1..])
  {
    assert a == [a[0]] + a[1..];
    var rest := b[..j] + b[j + 1..];
    assert b == b[..j] + [b[j]] + b[j + 1..];
    assert multiset(b) == multiset(rest) + multiset{b[j]};
    assert multiset(a) == multiset(a[1..]) + multiset{a[0]};
    assert multiset(a[1..]) == multiset(a) - multiset{a[0]};
  }

  lemma {:induction false} IdsOfPermutation(a: seq<ScheduledTick>, b: seq<ScheduledTick>)
    requires multiset(a) == multiset(b)
    ensures multiset(Ids(a)) == multiset(Ids(b))
    decreases |a|
  {
    if a == [] {
      assert |multiset(b)| == 0;
    } else {
      var x := a[0];
      assert x in multiset(b);
      var j :| 0 <= j < |b| && b[j] == x;
      var rest := b[..j] + b[j + 1..];
      assert a == [x] + a[1..] && b == b[..j] + [x] + b[j + 1..];
      RestOfPermutation(a, b, j);
      IdsOfPermutation(a[1..], rest);
      IdsConcat([x], a[1..]);
      IdsConcat(b[..j], b[j + 1..]);
      IdsConcat(b[..j] + [x], b[j + 1..]);
      IdsConcat(b[..j], [x]);
    }
  }

  lemma IdsOfSum(whole: seq<ScheduledTick>, a: seq<ScheduledTick>, b: seq<ScheduledTick>)
    requires multiset(whole) == multiset(a) + multiset(b)
    ensures multiset(Ids(whole)) == multiset(Ids(a)) + multiset(Ids(b))
  {
    assert multiset(a + b) == multiset(whole);
    IdsOfPermutation(whole, a + b);
    IdsConcat(a, b);
  }

  // ----- every queue transition keeps exactness -----

  /** New ticks whose identities are distinct and not yet queued keep a queue exact. */
  lemma GainKeepsExact(q: ChunkQueue, r: ChunkQueue, ticks: seq<ScheduledTick>)
    requires ExactQueue(q) && Gains(q, r, ticks) && DistinctIds(ticks)
    requires forall t :: t in ticks ==> t.Id() !in q.identities
    ensures ExactQueue(r)
  {
    IdsOfSum(r.heap, q.heap, ticks);
    var gained := set t | t in ticks :: t.Id();
    assert gained !! q.identities;
    forall id ensures multiset(Ids(ticks))[id] == multiset(gained)[id] {
      DistinctCounts(Ids(ticks), id);
      if id in Ids(ticks) {
        var i :| 0 <= i < |ticks| && Ids(ticks)[i] == id;
        assert ticks[i] in ticks;
      }
      InGained(ticks, id);
    }
    assert multiset(r.identities) == multiset(q.identities) + multiset(gained);
    assert Entries(r) == Entries(q) + multiset(Ids(ticks));
  }

  lemma InGained(ticks: seq<ScheduledTick>, id: Identity)
    ensures id in (set t | t in ticks :: t.Id()) ==> id in Ids(ticks)
  {
    if t :| t in ticks && t.Id() == id {
      var i :| 0 <= i < |ticks| && ticks[i] == t;
      assert Ids(ticks)[i] == id;
    }
  }

  lemma AdmitKeepsExact(q: ChunkQueue, r: ChunkQueue, tick: ScheduledTick)
    requires ExactQueue(q) && Gains(q, r, [tick]) && tick.Id() !in q.identities
    ensures ExactQueue(r)
  {
    GainKeepsExact(q, r, [tick]);
  }

  lemma PopKeepsExact(before: Chunks, after: Chunks, d: TickDomain, a: ChunkAddress)
    requires Pops(before, after, d, a) && ExactQueue(before[a].Queue(d))
    ensures ExactQueue(after[a].Queue(d))
  {
    var q, r := before[a].Queue(d), after[a].Queue(d);
    var tick := q.heap[0];
    IdsOfSum(q.heap, r.heap, [tick]);
    assert Ids([tick]) == [tick.Id()];
    assert tick.Id() in Entries(q);
    forall id ensures Entries(r)[id] == multiset(r.identities)[id] {
      assert Entries(q)[id] == multiset(q.identities)[id];
      assert Entries(q)[id] == Entries(r)[id] + multiset{tick.Id()}[id];
    }
    assert Entries(r) == multiset(r.identities);
  }

  lemma UnpackKeepsExact(a: ChunkAddress, q: ChunkQueue, r: ChunkQueue, time: i64)
    requires Unpacks(a, q, r, time) && ExactQueue(q)
    ensures ExactQueue(r)
  {
    var all := AllUnpacked(q.Saved(), time);
    IdsOfSum(r.heap, q.heap, all);
    assert Ids(all) == SavedIds(q.Saved());
    assert SavedIds(r.Saved()) == [];
    assert Entries(r) == Entries(q);
  }

  lemma {:induction false} OutsideIdCounts(ticks: seq<ScheduledTick>, bounds: TickBounds, id: Identity)
    ensures multiset(Ids(Outside(ticks, bounds)))[id] ==
            if bounds.Contains(id.position) then 0 else multiset(Ids(ticks))[id]
  {
    if ticks != [] {
      var n := |ticks| - 1;
      OutsideIdCounts(ticks[..n], bounds, id);
      assert ticks == ticks[..n] + [ticks[n]];
      IdsAppend(ticks[..n], ticks[n]);
      IdsAppend(Outside(ticks[..n], bounds), ticks[n]);
    }
  }

  /** Clearing leaves saved entries pending, so an identity pending inside the area stays in the set. */
  lemma ClearKeepsExact(q: ChunkQueue, r: ChunkQueue, bounds: TickBounds)
    requires Cleared(q, r, bounds) && ExactQueue(q)
    ensures ExactQueue(r)
  {
    IdsOfPermutation(r.heap, Outside(q.heap, bounds));
    forall id ensures Entries(r)[id] == multiset(r.identities)[id] {
      OutsideIdCounts(q.heap, bounds, id);
      assert Entries(q)[id] == multiset(q.identities)[id];
      if id in Ids(q.heap) {
        var i :| 0 <= i < |q.heap| && Ids(q.heap)[i] == id;
        assert q.heap[i] in q.heap;
        assert bounds.Contains(id.position) ==> id in InsideIds(q.heap, bounds);
      } else {
        InsideIdsAreQueued(q.heap, bounds, id);
      }
    }
  }

  lemma InsideIdsAreQueued(ticks: seq<ScheduledTick>, bounds: TickBounds, id: Identity)
    ensures id in InsideIds(ticks, bounds) ==> id in Ids(ticks) && bounds.Contains(id.position)
  {
    if id in InsideIds(ticks, bounds) {
      var t :| t in ticks && bounds.Contains(t.position) && t.Id() == id;
      var i :| 0 <= i < |ticks| && ticks[i] == t;
      assert Ids(ticks)[i] == id;
    }
  }

  // ----- and so does every operation of the owner -----

  /** No queue of either domain holds an identity twice, and every duplicate set is what its queue holds. */
  ghost predicate AllExact(chunks: Chunks) {
    forall a, d :: a in chunks ==> ExactQueue(chunks[a].Queue(d))
  }

  /** Only one domain's queues were replaced, each by an exact one. */
  lemma ReplacedKeepsAllExact(before: Chunks, after: Chunks, d: TickDomain)
    requires AllExact(before) && after.Keys == before.Keys
    requires forall a :: a in before ==> after[a] == before[a].With(d, after[a].Queue(d)) && ExactQueue(after[a].Queue(d))
    ensures AllExact(after)
  {
    hide ExactQueue;
    forall a, e | a in after ensures ExactQueue(after[a].Queue(e)) {
      if e != d {
        assert after[a].Queue(e) == before[a].Queue(e);
      }
    }
  }

  lemma InsertKeepsAllExact(chunks: Chunks, a: ChunkAddress, c: ChunkQueues)
    requires AllExact(chunks)
    ensures AllExact(chunks[a := c]) <==> ExactQueue(c.blocks) && ExactQueue(c.fluids)
  {
    hide ExactQueue;
    var after := chunks[a := c];
    assert after[a].Queue(Block) == c.blocks && after[a].Queue(Fluid) == c.fluids;
    if ExactQueue(c.blocks) && ExactQueue(c.fluids) {
      forall b, e | b in after ensures ExactQueue(after[b].Queue(e)) {
        if b != a {
          assert ExactQueue(chunks[b].Queue(e));
        }
      }
    }
  }

  lemma ScheduleKeepsAllExact(before: Chunks, after: Chunks, d: TickDomain, a: ChunkAddress, tick: ScheduledTick)
    requires a in before && a in after && after == before[a := before[a].With(d, after[a].Queue(d))]
    requires Gains(before[a].Queue(d), after[a].Queue(d), [tick]) && tick.Id() !in before[a].Queue(d).identities
    ensures AllExact(before) ==> AllExact(after)
  {
    hide ExactQueue, Gains;
    if AllExact(before) {
      AdmitKeepsExact(before[a].Queue(d), after[a].Queue(d), tick);
      ReplacedKeepsAllExact(before, after, d);
    }
  }

  lemma {:induction false} GreedyKeepsAllExact(states: seq<Chunks>, picks: seq<ChunkAddress>, selected: seq<ScheduledTick>,
                                               d: TickDomain, time: i64)
    requires Greedy(states, picks, selected, d, time) && AllExact(states[0])
    ensures AllExact(states[|picks|])
    decreases |picks|
  {
    hide ExactQueue, CanSelect;
    if |picks| > 0 {
      var n := |picks| - 1;
      GreedyPrefix(states, picks, selected, d, time);
      GreedyKeepsAllExact(states[..n + 1], picks[..n], selected[..n], d, time);
      assert Step(states[n], states[n + 1], picks[n], selected[n], d, time);
      PopKeepsExact(states[n], states[n + 1], d, picks[n]);
      ReplacedKeepsAllExact(states[n], states[n + 1], d);
    }
  }

  lemma ClearKeepsAllExact(before: Chunks, after: Chunks, d: TickDomain, bounds: TickBounds)
    requires after.Keys == before.Keys && forall a :: a in before ==> ChunkCleared(before[a], after[a], d, bounds)
    ensures AllExact(before) ==> AllExact(after)
  {
    hide ExactQueue, Cleared;
    if AllExact(before) {
      forall a | a in before
        ensures after[a] == before[a].With(d, after[a].Queue(d)) && ExactQueue(after[a].Queue(d))
      {
        assert ChunkCleared(before[a], after[a], d, bounds);
        if before[a].registered {
          ClearKeepsExact(before[a].Queue(d), after[a].Queue(d), bounds);
        }
      }
      ReplacedKeepsAllExact(before, after, d);
    }
  }

  lemma BatchKeepsAllExact(before: Chunks, after: Chunks, d: TickDomain, limit: nat, batch: seq<ScheduledTick>)
    requires BatchScheduled(before, after, d, batch) && Admissible(before, d, limit, batch)
    ensures AllExact(before) ==> AllExact(after)
  {
    hide ExactQueue, Gains, Fits;
    if AllExact(before) {
      forall a | a in before ensures ExactQueue(after[a].Queue(d)) {
        var part := FromChunk(batch, a);
        assert Gains(before[a].Queue(d), after[a].Queue(d), part);
        DistinctFromChunk(batch, a);
        forall t | t in part ensures t.Id() !in before[a].Queue(d).identities {
          FromChunkMember(batch, a, t);
          var i :| 0 <= i < |batch| && batch[i] == t;
        }
        GainKeepsExact(before[a].Queue(d), after[a].Queue(d), part);
      }
      ReplacedKeepsAllExact(before, after, d);
    }
  }

  lemma {:induction false} DistinctFromChunk(batch: seq<ScheduledTick>, a: ChunkAddress)
    requires DistinctIds(batch)
    ensures DistinctIds(FromChunk(batch, a))
  {
    if batch != [] {
      var n := |batch| - 1;
      DistinctFromChunk(batch[..n], a);
      var part, rest := FromChunk(batch, a), FromChunk(batch[..n], a);
      forall i, j | 0 <= i < j < |part| ensures part[i].Id() != part[j].Id() {
        if j < |rest| {
          assert part[i] == rest[i] && part[j] == rest[j];
        } else {
          FromChunkMember(batch[..n], a, rest[i]);
          var m :| 0 <= m < n && batch[..n][m] == rest[i];
          assert batch[m] == rest[i];
        }
      }
    }
  }

  // ----- loading decides it -----

  predicate DistinctSaved(saved: seq<SavedTick>) {
    forall i, j :: 0 <= i < j < |saved| ==> saved[i].Id() != saved[j].Id()
  }

  /** A loaded queue is exact if and only if no identity was saved twice. */
  lemma LoadedIsExact(saved: seq<SavedTick>)
    ensures ExactQueue(Loaded(saved)) <==> DistinctSaved(saved)
  {
    var q := Loaded(saved);
    var ids := SavedIds(saved);
    assert Entries(q) == multiset(ids);
    forall id ensures id in ids <==> id in q.identities {
      if id in q.identities {
        var s :| s in saved && s.Id() == id;
        var i :| 0 <= i < |saved| && saved[i] == s;
        assert ids[i] == id;
      }
    }
    if DistinctSaved(saved) {
      forall id ensures multiset(ids)[id] == multiset(q.identities)[id] {
        DistinctCounts(ids, id);
      }
    } else {
      var i, j :| 0 <= i < j < |saved| && saved[i].Id() == saved[j].Id();
      assert ids == ids[..j] + [ids[j]] + ids[j + 1..];
      assert ids[..j][i] == ids[j];
      assert multiset(ids)[ids[j]] >= 2;
      assert multiset(q.identities)[ids[j]] <= 1;
    }
  }

  lemma {:induction false} DistinctCounts(ids: seq<Identity>, id: Identity)
    requires forall i, j :: 0 <= i < j < |ids| ==> ids[i] != ids[j]
    ensures multiset(ids)[id] == if id in ids then 1 else 0
  {
    if ids != [] {
      var n := |ids| - 1;
      DistinctCounts(ids[..n], id);
      assert ids == ids[..n] + [ids[n]];
    }
  }

  /** With an identity saved twice, returning one of the two hides the other from the duplicate set. */
  lemma DuplicateSavedHides(before: Chunks, after: Chunks, d: TickDomain, a: ChunkAddress)
    requires Pops(before, after, d, a)
    requires multiset(Ids(before[a].Queue(d).heap))[before[a].Queue(d).heap[0].Id()] >= 2
    ensures var id := before[a].Queue(d).heap[0].Id();
            Holds(after[a].Queue(d), id) && id !in after[a].Queue(d).identities
  {
    var q, r := before[a].Queue(d), after[a].Queue(d);
    var tick := q.heap[0];
    IdsOfSum(q.heap, r.heap, [tick]);
    assert Ids([tick]) == [tick.Id()];
    assert tick.Id() in Entries(r);
    HoldsIsEntry(r, tick.Id());
  }
}
