/** Queue admission and unpacking of saved ticks. */
module TickQueues {
  import opened World
  import opened TickTypes
  import opened TickHeap
  import opened TickState

  datatype ScheduleOutcome = Added | Duplicate | MissingContainer

  datatype TickError =
    ChunkLimit | QueueFull | AlreadyRegistered | MissingChunk | PhaseActive | NoActivePhase
    | UnconsumedTicks | PhaseLimit | InvalidType | InvalidBounds | ChunkAlreadyPresent | InvalidLimits

  ghost predicate Registered(chunks: Chunks, a: ChunkAddress) {
    a in chunks && chunks[a].registered
  }

  /** One queue's contents after some ticks were admitted to it. */
  ghost predicate Gains(q: ChunkQueue, r: ChunkQueue, ticks: seq<ScheduledTick>) {
    && multiset(r.heap) == multiset(q.heap) + multiset(ticks)
    && r.identities == q.identities + (set t | t in ticks :: t.Id())
    && r.pending == q.pending
  }

  lemma PushKeepsQueueOk(a: ChunkAddress, q: ChunkQueue, heap: Heap, tick: ScheduledTick, limit: nat)
    requires QueueOk(a, q, limit) && q.Count() < limit && tick.position.Chunk() == a
    requires IsHeap(heap) && multiset(heap) == multiset(q.heap) + multiset{tick}
    ensures QueueOk(a, q.(heap := heap, identities := q.identities + {tick.Id()}), limit)
  {
    var r := q.(heap := heap, identities := q.identities + {tick.Id()});
    assert |multiset(heap)| == |multiset(q.heap)| + 1;
    forall t ensures t in heap <==> t in q.heap || t == tick {
      assert t in heap <==> t in multiset(heap);
    }
    forall id | id in r.identities ensures Holds(r, id) {
      if id != tick.Id() {
        assert Holds(q, id);
        assert forall s :: s in q.Saved() ==> s in r.Saved();
      }
    }
  }

  method AdmitTick(a: ChunkAddress, q: ChunkQueue, tick: ScheduledTick, ghost limit: nat) returns (r: ChunkQueue)
    requires QueueOk(a, q, limit) && q.Count() < limit && tick.position.Chunk() == a
    ensures QueueOk(a, r, limit) && Gains(q, r, [tick])
    ensures r.heap != [] && (r.heap[0] == tick || (q.heap != [] && r.heap[0] == q.heap[0]))
  {
    var heap := Push(q.heap, tick);
    PushKeepsQueueOk(a, q, heap, tick, limit);
    r := q.(heap := heap, identities := q.identities + {tick.Id()});
  }

  /** Admission of a created tick: duplicates and full queues change nothing. */
  method ScheduleCreated(chunks: Chunks, d: TickDomain, index: Timeline, limit: nat, a: ChunkAddress, tick: ScheduledTick)
      returns (r: Result<ScheduleOutcome, TickError>, after: Chunks, timeline: Timeline)
    requires ChunksOk(chunks, limit) && Indexed(chunks, d, index)
    requires Registered(chunks, a) && tick.position.Chunk() == a
    ensures r == if tick.Id() in chunks[a].Queue(d).identities then Ok(Duplicate)
                 else if chunks[a].Queue(d).Count() == limit then Err(QueueFull) else Ok(Added)
    ensures r != Ok(Added) ==> after == chunks && timeline == index
    ensures r == Ok(Added) ==>
              && a in after && after == chunks[a := chunks[a].With(d, after[a].Queue(d))]
              && Gains(chunks[a].Queue(d), after[a].Queue(d), [tick])
    ensures ChunksOk(after, limit) && Indexed(after, d, timeline)
  {
    after, timeline := chunks, index;
    var q := chunks[a].Queue(d);
    assert QueueOk(a, q, limit);
    if tick.Id() in q.identities {
      return Ok(Duplicate), after, timeline;
    }
    if q.Count() == limit {
      return Err(QueueFull), after, timeline;
    }
    var grown := AdmitTick(a, q, tick, limit);
    if grown.heap[0] == tick {
      timeline := index[a := tick.triggerTick];
    }
    HeadIndexed(chunks, d, index, a, q);
    UpdateKeepsChunks(chunks, d, a, grown, limit);
    UpdateKeepsIndex(chunks, d, index, {}, a, grown);
    after := chunks[a := chunks[a].With(d, grown)];
    r := Ok(Added);
  }

  lemma HeadIndexed(chunks: Chunks, d: TickDomain, index: Timeline, a: ChunkAddress, q: ChunkQueue)
    requires Indexed(chunks, d, index) && Registered(chunks, a) && q == chunks[a].Queue(d)
    ensures Reindexed(index, a, q.heap) == index
  {
    assert q.heap != [] ==> Live(chunks, d, a) && Head(chunks, d, a) == q.heap[0];
  }

  // ----- unpacking saved ticks -----

  /** The i-th of n saved entries gets sub-order i - n, so saved order precedes live order. */
  function Unpacked(saved: seq<SavedTick>, time: i64, i: nat): ScheduledTick
    requires i < |saved| < 0x8000_0000
  {
    var s := saved[i];
    ScheduledTick(s.position, s.typeId, WrapI64(time + s.delay), s.priority, i - |saved|)
  }

  function AllUnpacked(saved: seq<SavedTick>, time: i64): (r: seq<ScheduledTick>)
    requires |saved| < 0x8000_0000
    ensures |r| == |saved|
  {
    seq(|saved|, i requires 0 <= i < |saved| => Unpacked(saved, time, i))
  }

  /** Pushes the unpacked entries one by one; the index follows every change of the head. */
  method PushSaved(a: ChunkAddress, live: Heap, saved: seq<SavedTick>, registered: bool, index: Timeline, time: i64)
      returns (heap: Heap, timeline: Timeline)
    requires IsHeap(live) && |saved| < 0x8000_0000 && (registered ==> Reindexed(index, a, live) == index)
    ensures IsHeap(heap) && multiset(heap) == multiset(live) + multiset(AllUnpacked(saved, time))
    ensures timeline == if registered then Reindexed(index, a, heap) else index
  {
    ghost var all := AllUnpacked(saved, time);
    heap, timeline := live, index;
    for i := 0 to |saved|
      invariant IsHeap(heap) && multiset(heap) == multiset(live) + multiset(all[..i])
      invariant timeline == if registered then Reindexed(index, a, heap) else index
    {
      var tick := Unpacked(saved, time, i);
      assert all[..i + 1] == all[..i] + [tick];
      heap := Push(heap, tick);
      if registered && heap[0] == tick {
        timeline := timeline[a := tick.triggerTick];
      }
    }
    assert all[..|saved|] == all;
  }

  method UnpackQueue(a: ChunkAddress, q: ChunkQueue, registered: bool, index: Timeline, time: i64, ghost limit: nat)
      returns (r: ChunkQueue, timeline: Timeline)
    requires QueueOk(a, q, limit) && (registered ==> Reindexed(index, a, q.heap) == index)
    ensures QueueOk(a, r, limit) && r.Count() == q.Count() && r.pending == None && r.identities == q.identities
    ensures multiset(r.heap) == multiset(q.heap) + multiset(AllUnpacked(q.Saved(), time))
    ensures timeline == if registered then Reindexed(index, a, r.heap) else index
  {
    var heap;
    heap, timeline := PushSaved(a, q.heap, q.Saved(), registered, index, time);
    r := q.(heap := heap, pending := None);
    UnpackKeepsQueueOk(a, q, r, AllUnpacked(q.Saved(), time), time, limit);
  }

  /** Materialises every saved entry, duplicates included, and reindexes a registered chunk. */
  method Unpack(chunks: Chunks, d: TickDomain, index: Timeline, limit: nat, a: ChunkAddress, time: i64)
      returns (after: Chunks, timeline: Timeline)
    requires ChunksOk(chunks, limit) && Indexed(chunks, d, index) && a in chunks
    ensures ChunksOk(after, limit) && Indexed(after, d, timeline)
    ensures a in after && after == chunks[a := chunks[a].With(d, after[a].Queue(d))]
    ensures Unpacks(a, chunks[a].Queue(d), after[a].Queue(d), time)
  {
    var q := chunks[a].Queue(d);
    assert QueueOk(a, q, limit);
    if chunks[a].registered {
      HeadIndexed(chunks, d, index, a, q);
    }
    var r;
    r, timeline := UnpackQueue(a, q, chunks[a].registered, index, time, limit);
    UpdateKeepsChunks(chunks, d, a, r, limit);
    if chunks[a].registered {
      UpdateKeepsIndex(chunks, d, index, {}, a, r);
    } else {
      UpdateOutsideIndex(chunks, d, index, {}, a, r);
    }
    after := chunks[a := chunks[a].With(d, r)];
  }

  /** All saved entries became live ticks; counts and identities are untouched. */
  ghost predicate Unpacks(a: ChunkAddress, q: ChunkQueue, r: ChunkQueue, time: i64) {
    && |q.Saved()| < 0x8000_0000
    && multiset(r.heap) == multiset(q.heap) + multiset(AllUnpacked(q.Saved(), time))
    && r.pending == None && r.identities == q.identities && r.Count() == q.Count()
  }

  lemma UnpackKeepsQueueOk(a: ChunkAddress, q: ChunkQueue, r: ChunkQueue, all: seq<ScheduledTick>, time: i64, limit: nat)
    requires QueueOk(a, q, limit) && |q.Saved()| < 0x8000_0000 && all == AllUnpacked(q.Saved(), time)
    requires IsHeap(r.heap) && multiset(r.heap) == multiset(q.heap) + multiset(all)
    requires r.pending == None && r.identities == q.identities
    ensures QueueOk(a, r, limit) && r.Count() == q.Count()
  {
    assert |multiset(r.heap)| == |multiset(q.heap)| + |multiset(all)|;
    forall t ensures t in r.heap <==> t in q.heap || t in all {
      assert t in r.heap <==> t in multiset(r.heap);
    }
    forall t | t in all ensures t.position.Chunk() == a {
      var i :| 0 <= i < |all| && all[i] == t;
      assert q.Saved()[i] in q.Saved();
    }
    forall id | id in r.identities ensures Holds(r, id) {
      assert Holds(q, id);
      if !(exists t :: t in q.heap && t.Id() == id) {
        var s :| s in q.Saved() && s.Id() == id;
        var i :| 0 <= i < |q.Saved()| && q.Saved()[i] == s;
        assert all[i] in all && all[i].Id() == id;
      }
    }
  }
}
