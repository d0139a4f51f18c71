/** Area clearing, which repairs the cursor of a half-consumed batch. */
module TickArea {
  import opened World
  import opened TickTypes
  import opened TickHeap
  import opened TickSweep
  import opened TickState
  import opened TickPhase
  import opened TickQueues
  import opened Sums

  // ----- clearing -----

  ghost function InsideIds(ticks: seq<ScheduledTick>, bounds: TickBounds): set<Identity> {
    set t | t in ticks && bounds.Contains(t.position) :: t.Id()
  }

  /** Exactly the live ticks inside the area are gone, with their identities. */
  ghost predicate Cleared(q: ChunkQueue, r: ChunkQueue, bounds: TickBounds) {
    && multiset(r.heap) == multiset(Outside(q.heap, bounds))
    && r.identities == q.identities - InsideIds(q.heap, bounds)
    && r.pending == q.pending
  }

  lemma ClearedKeepsQueueOk(a: ChunkAddress, q: ChunkQueue, r: ChunkQueue, bounds: TickBounds, limit: nat)
    requires QueueOk(a, q, limit) && IsHeap(r.heap) && Cleared(q, r, bounds)
    ensures QueueOk(a, r, limit) && |r.heap| <= |q.heap|
  {
    assert |multiset(r.heap)| == |multiset(Outside(q.heap, bounds))|;
    forall t: ScheduledTick ensures t in r.heap <==> t in q.heap && !bounds.Contains(t.position) {
      OutsideCounts(q.heap, bounds, t);
      assert t in r.heap <==> t in multiset(r.heap);
    }
    OutsideShorter(q.heap, bounds);
    forall id | id in r.identities ensures Holds(r, id) {
      assert Holds(q, id);
      if exists t :: t in q.heap && t.Id() == id {
        var t :| t in q.heap && t.Id() == id;
        assert t in r.heap;
      } else {
        var s :| s in q.Saved() && s.Id() == id;
        assert s in r.Saved();
      }
    }
  }

  lemma {:induction false} OutsideShorter(ticks: seq<ScheduledTick>, bounds: TickBounds)
    ensures |Outside(ticks, bounds)| <= |ticks|
  {
    if ticks != [] {
      OutsideShorter(ticks[..|ticks| - 1], bounds);
    }
  }

  /** A queue with no tick inside the area is already clear. */
  lemma {:induction false} NothingInside(ticks: seq<ScheduledTick>, bounds: TickBounds)
    requires forall t :: t in ticks ==> !bounds.Contains(t.position)
    ensures Outside(ticks, bounds) == ticks
  {
    if ticks != [] {
      NothingInside(ticks[..|ticks| - 1], bounds);
    }
  }

  function Peek(heap: Heap): Option<ScheduledTick> {
    if heap == [] then None else Some(heap[0])
  }

  /** Clears one queue and touches the index only when its head changed. */
  method ClearQueue(a: ChunkAddress, q: ChunkQueue, index: Timeline, bounds: TickBounds, ghost limit: nat)
      returns (r: ChunkQueue, timeline: Timeline, removed: nat)
    requires QueueOk(a, q, limit) && Reindexed(index, a, q.heap) == index
    ensures QueueOk(a, r, limit) && Cleared(q, r, bounds) && removed + |r.heap| == |q.heap|
    ensures timeline == Reindexed(index, a, r.heap)
  {
    var heap;
    ghost var labels, visited;
    heap, removed, labels, visited := RemoveInside(q.heap, bounds);
    var ids := set t | t in q.heap && bounds.Contains(t.position) :: t.Id();
    r := q.(heap := heap, identities := q.identities - ids);
    ClearedKeepsQueueOk(a, q, r, bounds, limit);
    timeline := index;
    if Peek(q.heap) != Peek(heap) {
      timeline := if heap == [] then index - {a} else index[a := heap[0].triggerTick];
    }
  }

  ghost function LiveCount(chunks: Chunks, d: TickDomain): nat {
    Sum(chunks.Keys, a => if a in chunks then |chunks[a].Queue(d).heap| else 0)
  }

  lemma LiveCountUpdate(chunks: Chunks, d: TickDomain, a: ChunkAddress, q: ChunkQueue)
    requires a in chunks
    ensures LiveCount(chunks[a := chunks[a].With(d, q)], d) + |chunks[a].Queue(d).heap| == LiveCount(chunks, d) + |q.heap|
  {
    var after := chunks[a := chunks[a].With(d, q)];
    assert after.Keys == chunks.Keys;
    SumChange(chunks.Keys,
              b => if b in chunks then |chunks[b].Queue(d).heap| else 0,
              b => if b in after then |after[b].Queue(d).heap| else 0, a);
  }

  /** A chunk after clearing: registered chunks lose the area's ticks, others nothing. */
  ghost predicate ChunkCleared(before: ChunkQueues, after: ChunkQueues, d: TickDomain, bounds: TickBounds) {
    if before.registered
    then after == before.With(d, after.Queue(d)) && Cleared(before.Queue(d), after.Queue(d), bounds)
    else after == before
  }

  lemma UntouchedIsCleared(a: ChunkAddress, before: ChunkQueues, d: TickDomain, bounds: TickBounds, limit: nat)
    requires QueueOk(a, before.Queue(d), limit)
    requires !before.registered || !bounds.ContainsChunk(a)
    ensures ChunkCleared(before, before, d, bounds)
  {
    if before.registered {
      var q := before.Queue(d);
      forall t | t in q.heap ensures !bounds.Contains(t.position) {
        assert t.position.Chunk() == a;
        if bounds.Contains(t.position) {
          ContainedTickInContainedChunk(bounds, t.position);
        }
      }
      NothingInside(q.heap, bounds);
      assert InsideIds(q.heap, bounds) == {};
    }
  }

  method ClearChunks(chunks: Chunks, d: TickDomain, index: Timeline, limit: nat, bounds: TickBounds)
      returns (after: Chunks, timeline: Timeline, removed: nat)
    requires ChunksOk(chunks, limit) && Indexed(chunks, d, index)
    ensures ChunksOk(after, limit) && Indexed(after, d, timeline) && after.Keys == chunks.Keys
    ensures forall a :: a in chunks ==> ChunkCleared(chunks[a], after[a], d, bounds)
    ensures removed + LiveCount(after, d) == LiveCount(chunks, d)
  {
    hide *;
    after, timeline, removed := chunks, index, 0;
    var unvisited := chunks.Keys;
    while unvisited != {}
      invariant unvisited <= chunks.Keys == after.Keys
      invariant ChunksOk(after, limit) && Indexed(after, d, timeline)
      invariant forall a :: a in chunks ==>
                  if a in unvisited then after[a] == chunks[a] else ChunkCleared(chunks[a], after[a], d, bounds)
      invariant removed + LiveCount(after, d) == LiveCount(chunks, d)
      decreases unvisited
    {
      var a :| a in unvisited;
      unvisited := unvisited - {a};
      var n;
      after, timeline, n := ClearChunk(after, d, timeline, limit, a, bounds);
      removed := removed + n;
    }
  }

  method ClearChunk(chunks: Chunks, d: TickDomain, index: Timeline, limit: nat, a: ChunkAddress, bounds: TickBounds)
      returns (after: Chunks, timeline: Timeline, removed: nat)
    requires ChunksOk(chunks, limit) && Indexed(chunks, d, index) && a in chunks
    ensures ChunksOk(after, limit) && Indexed(after, d, timeline)
    ensures a in after && after == chunks[a := after[a]] && ChunkCleared(chunks[a], after[a], d, bounds)
    ensures removed + LiveCount(after, d) == LiveCount(chunks, d)
  {
    var q := chunks[a].Queue(d);
    assert QueueOk(a, q, limit);
    if !chunks[a].registered || !bounds.ContainsChunk(a) {
      UntouchedIsCleared(a, chunks[a], d, bounds, limit);
      return chunks, index, 0;
    }
    HeadIndexed(chunks, d, index, a, q);
    var r;
    r, timeline, removed := ClearQueue(a, q, index, bounds, limit);
    LiveCountUpdate(chunks, d, a, r);
    UpdateKeepsChunks(chunks, d, a, r, limit);
    UpdateKeepsIndex(chunks, d, index, {}, a, r);
    after := chunks[a := chunks[a].With(d, r)];
  }

  lemma {:induction false} OutsideConcat(a: seq<ScheduledTick>, b: seq<ScheduledTick>, bounds: TickBounds)
    ensures Outside(a + b, bounds) == Outside(a, bounds) + Outside(b, bounds)
  {
    if b == [] {
      assert a + b == a;
    } else {
      OutsideConcat(a, b[..|b| - 1], bounds);
      assert (a + b)[..|a + b| - 1] == a + b[..|b| - 1];
    }
  }

  /** The state of the retaining loop before it visits entry `i`. */
  ghost predicate Retaining(selected: seq<ScheduledTick>, cursor: nat, bounds: TickBounds, i: nat,
                            kept: seq<ScheduledTick>, position: int, remaining: multiset<Identity>)
    requires i <= |selected| && cursor <= |selected|
  {
    && kept == Outside(selected[..i], bounds)
    && if i <= cursor
       then position == |kept| + (cursor - i) && remaining == multiset(Ids(selected[cursor..]))
       else position == |Outside(selected[..cursor], bounds)|
            && remaining == multiset(Ids(Outside(selected[cursor..i], bounds))) + multiset(Ids(selected[i..]))
  }

  lemma RetainStep(selected: seq<ScheduledTick>, cursor: nat, bounds: TickBounds, i: nat,
                   kept: seq<ScheduledTick>, position: int, remaining: multiset<Identity>)
    requires i < |selected| && cursor <= |selected|
    requires Retaining(selected, cursor, bounds, i, kept, position, remaining)
    ensures var tick := selected[i];
            if !bounds.Contains(tick.position) then Retaining(selected, cursor, bounds, i + 1, kept + [tick], position, remaining)
            else if i < cursor then Retaining(selected, cursor, bounds, i + 1, kept, position - 1, remaining)
            else Retaining(selected, cursor, bounds, i + 1, kept, position, remaining - multiset{tick.Id()})
  {
    var tick := selected[i];
    assert selected[..i + 1][..i] == selected[..i];
    if i >= cursor {
      RemainderStep(selected, cursor, i, bounds);
      if i == cursor {
        assert selected[cursor..i] == [];
      }
    }
  }

  /** Moving one tick of the remainder across keeps or drops exactly its identity. */
  lemma RemainderStep(selected: seq<ScheduledTick>, cursor: nat, i: nat, bounds: TickBounds)
    requires cursor <= i < |selected|
    ensures multiset(Ids(selected[i..])) == multiset{selected[i].Id()} + multiset(Ids(selected[i + 1..]))
    ensures multiset(Ids(Outside(selected[cursor..i + 1], bounds))) ==
            multiset(Ids(Outside(selected[cursor..i], bounds))) +
            (if bounds.Contains(selected[i].position) then multiset{} else multiset{selected[i].Id()})
  {
    assert Ids(selected[i..]) == [selected[i].Id()] + Ids(selected[i + 1..]);
    assert selected[cursor..i + 1][..i - cursor] == selected[cursor..i];
    IdsAppend(Outside(selected[cursor..i], bounds), selected[i]);
  }

  lemma RetainDone(selected: seq<ScheduledTick>, cursor: nat, bounds: TickBounds,
                   kept: seq<ScheduledTick>, position: int, remaining: multiset<Identity>)
    requires cursor <= |selected| && Retaining(selected, cursor, bounds, |selected|, kept, position, remaining)
    ensures 0 <= position <= |kept| <= |selected|
    ensures kept[..position] == Outside(selected[..cursor], bounds)
    ensures kept[position..] == Outside(selected[cursor..], bounds)
    ensures remaining == multiset(Ids(kept[position..]))
  {
    var a, b := selected[..cursor], selected[cursor..];
    assert selected[..|selected|] == selected == a + b;
    OutsideConcat(a, b, bounds);
    OutsideShorter(selected, bounds);
    if cursor == |selected| {
      assert a == selected && b == [];
    } else {
      assert selected[cursor..|selected|] == b && selected[|selected|..] == [];
    }
  }

  /** The cursor still separates the surviving returned prefix from the surviving remainder. */
  method ClearSelected(selected: seq<ScheduledTick>, cursor: nat, counts: multiset<Identity>, bounds: TickBounds)
      returns (kept: seq<ScheduledTick>, position: nat, remaining: multiset<Identity>)
    requires cursor <= |selected| && counts == multiset(Ids(selected[cursor..]))
    ensures position <= |kept| <= |selected|
    ensures kept[..position] == Outside(selected[..cursor], bounds)
    ensures kept[position..] == Outside(selected[cursor..], bounds)
    ensures remaining == multiset(Ids(kept[position..]))
  {
    kept, remaining := [], counts;
    var moved: int := cursor;
    for i := 0 to |selected|
      invariant Retaining(selected, cursor, bounds, i, kept, moved, remaining)
    {
      var tick := selected[i];
      RetainStep(selected, cursor, bounds, i, kept, moved, remaining);
      if !bounds.Contains(tick.position) {
        kept := kept + [tick];
      } else if i < cursor {
        moved := moved - 1;
      } else {
        remaining := remaining - multiset{tick.Id()};
      }
    }
    RetainDone(selected, cursor, bounds, kept, moved, remaining);
    position := moved;
  }
}
