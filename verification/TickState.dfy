/**
 Chunk queues, the scheduling index over them, and what one phase collection is meant to
 do: repeatedly take the least head, in priority and sub-tick order, of all due eligible
 chunks.
 */
module TickState {
  import opened World
  import opened TickTypes
  import opened TickHeap

  datatype TickDomain = Block | Fluid

  datatype ChunkQueue = ChunkQueue(heap: Heap, identities: set<Identity>, pending: Option<seq<SavedTick>>) {
    function Saved(): seq<SavedTick> {
      if pending.Some? then pending.value else []
    }

    function Count(): nat {
      |heap| + |Saved()|
    }
  }

  datatype ChunkQueues = ChunkQueues(registered: bool, eligible: bool, blocks: ChunkQueue, fluids: ChunkQueue) {
    function Queue(d: TickDomain): ChunkQueue {
      if d == Block then blocks else fluids
    }

    function With(d: TickDomain, q: ChunkQueue): ChunkQueues {
      if d == Block then this.(blocks := q) else this.(fluids := q)
    }
  }

  type Chunks = map<ChunkAddress, ChunkQueues>
  type Timeline = map<ChunkAddress, i64>

  // ----- queue invariants -----

  /** Some queued or still pending tick carries the identity. */
  ghost predicate Holds(q: ChunkQueue, id: Identity) {
    (exists t :: t in q.heap && t.Id() == id) || (exists s :: s in q.Saved() && s.Id() == id)
  }

  ghost predicate QueueOk(a: ChunkAddress, q: ChunkQueue, limit: nat) {
    && IsHeap(q.heap)
    && q.Count() <= limit && |q.Saved()| < 0x8000_0000
    && (forall t :: t in q.heap ==> t.position.Chunk() == a)
    && (forall s :: s in q.Saved() ==> s.position.Chunk() == a)
    && (forall id :: id in q.identities ==> Holds(q, id))
  }

  ghost predicate ChunksOk(chunks: Chunks, limit: nat) {
    forall a, d :: a in chunks ==> QueueOk(a, chunks[a].Queue(d), limit)
  }

  // ----- the scheduling index -----

  ghost predicate Live(chunks: Chunks, d: TickDomain, a: ChunkAddress) {
    a in chunks && chunks[a].registered && chunks[a].Queue(d).heap != []
  }

  ghost function Head(chunks: Chunks, d: TickDomain, a: ChunkAddress): ScheduledTick
    requires Live(chunks, d, a)
  {
    chunks[a].Queue(d).heap[0]
  }

  /** Exactly the registered nonempty queues are indexed, each at its head's trigger time. */
  ghost predicate Indexed(chunks: Chunks, d: TickDomain, timeline: Timeline) {
    IndexedExcept(chunks, d, timeline, {})
  }

  ghost predicate IndexedExcept(chunks: Chunks, d: TickDomain, timeline: Timeline, taken: set<ChunkAddress>) {
    && (forall a :: a in timeline <==> Live(chunks, d, a) && a !in taken)
    && (forall a :: a in timeline ==> timeline[a] == Head(chunks, d, a).triggerTick)
  }

  /** Replacing one queue changes liveness and head only there. */
  lemma UpdateIsLocal(chunks: Chunks, d: TickDomain, a: ChunkAddress, q: ChunkQueue, b: ChunkAddress, e: TickDomain)
    requires a in chunks && (b != a || e != d)
    ensures var after := chunks[a := chunks[a].With(d, q)];
            && Live(after, e, b) == Live(chunks, e, b)
            && (Live(chunks, e, b) ==> Head(after, e, b) == Head(chunks, e, b))
            && (b in chunks ==> after[b].Queue(e) == chunks[b].Queue(e) && after[b].eligible == chunks[b].eligible)
  {
  }

  /** Index entry of a registered queue after its contents changed. */
  function Reindexed(timeline: Timeline, a: ChunkAddress, heap: Heap): Timeline {
    if heap == [] then timeline - {a} else timeline[a := heap[0].triggerTick]
  }

  /** Replacing one registered queue needs one index update. */
  lemma UpdateKeepsIndex(chunks: Chunks, d: TickDomain, timeline: Timeline, taken: set<ChunkAddress>, a: ChunkAddress, q: ChunkQueue)
    requires IndexedExcept(chunks, d, timeline, taken) && a in chunks && chunks[a].registered && a !in taken
    ensures IndexedExcept(chunks[a := chunks[a].With(d, q)], d, Reindexed(timeline, a, q.heap), taken)
  {
    var after := chunks[a := chunks[a].With(d, q)];
    forall b | b != a ensures Live(after, d, b) == Live(chunks, d, b) && (Live(chunks, d, b) ==> Head(after, d, b) == Head(chunks, d, b)) {
      UpdateIsLocal(chunks, d, a, q, b, d);
    }
  }

  /** A queue outside the index may change freely. */
  lemma UpdateOutsideIndex(chunks: Chunks, d: TickDomain, timeline: Timeline, taken: set<ChunkAddress>, a: ChunkAddress, q: ChunkQueue)
    requires IndexedExcept(chunks, d, timeline, taken) && a in chunks && (!chunks[a].registered || a in taken)
    ensures IndexedExcept(chunks[a := chunks[a].With(d, q)], d, timeline, taken)
  {
    var after := chunks[a := chunks[a].With(d, q)];
    forall b | b != a ensures Live(after, d, b) == Live(chunks, d, b) && (Live(chunks, d, b) ==> Head(after, d, b) == Head(chunks, d, b)) {
      UpdateIsLocal(chunks, d, a, q, b, d);
    }
  }

  lemma UpdateKeepsChunks(chunks: Chunks, d: TickDomain, a: ChunkAddress, q: ChunkQueue, limit: nat)
    requires ChunksOk(chunks, limit) && a in chunks && QueueOk(a, q, limit)
    ensures ChunksOk(chunks[a := chunks[a].With(d, q)], limit)
  {
    var after := chunks[a := chunks[a].With(d, q)];
    forall b, e | b in after ensures QueueOk(b, after[b].Queue(e), limit) {
      if b != a || e != d {
        assert after[b].Queue(e) == chunks[b].Queue(e);
      }
    }
  }

  /** New queues of one domain, with their own exact index. */
  ghost predicate ReplacesOnly(before: Chunks, after: Chunks, d: TickDomain, limit: nat, timeline: Timeline) {
    && ChunksOk(after, limit) && Indexed(after, d, timeline) && after.Keys == before.Keys
    && (forall a :: a in before ==> after[a] == before[a].With(d, after[a].Queue(d)))
  }

  // ----- one phase collection -----

  ghost predicate Due(chunks: Chunks, d: TickDomain, time: i64, a: ChunkAddress) {
    Live(chunks, d, a) && chunks[a].eligible && Head(chunks, d, a).triggerTick <= time
  }

  /** The head of `a` is least, in priority and sub-tick order, among all due eligible heads. */
  ghost predicate CanSelect(chunks: Chunks, d: TickDomain, time: i64, a: ChunkAddress) {
    && Due(chunks, d, time, a)
    && (forall b :: Due(chunks, d, time, b) ==> !WithinBefore(Head(chunks, d, b), Head(chunks, d, a)))
  }

  /** The head of `a` leaves its queue, its identity leaves the duplicate set; nothing else moves. */
  ghost predicate Pops(before: Chunks, after: Chunks, d: TickDomain, a: ChunkAddress) {
    && Live(before, d, a) && a in after
    && var q, r := before[a].Queue(d), after[a].Queue(d);
      && after == before[a := before[a].With(d, r)]
      && IsHeap(r.heap) && multiset(q.heap) == multiset(r.heap) + multiset{q.heap[0]}
      && r.identities == q.identities - {q.heap[0].Id()}
      && r.pending == q.pending
  }

  /** A greedy run: step by step, the chosen chunk's head is selectable and is popped. */
  ghost predicate Greedy(states: seq<Chunks>, picks: seq<ChunkAddress>, selected: seq<ScheduledTick>, d: TickDomain, time: i64) {
    && |states| == |picks| + 1 == |selected| + 1
    && (forall k :: 0 <= k < |picks| ==> Step(states[k], states[k + 1], picks[k], selected[k], d, time))
  }

  ghost predicate Step(before: Chunks, after: Chunks, pick: ChunkAddress, tick: ScheduledTick, d: TickDomain, time: i64) {
    && CanSelect(before, d, time, pick)
    && tick == Head(before, d, pick)
    && Pops(before, after, d, pick)
  }

  lemma GreedyExtends(states: seq<Chunks>, picks: seq<ChunkAddress>, selected: seq<ScheduledTick>, d: TickDomain, time: i64,
                      after: Chunks, pick: ChunkAddress, tick: ScheduledTick)
    requires Greedy(states, picks, selected, d, time)
    requires Step(states[|picks|], after, pick, tick, d, time)
    ensures Greedy(states + [after], picks + [pick], selected + [tick], d, time)
  {
    var s, p, x := states + [after], picks + [pick], selected + [tick];
    forall k | 0 <= k < |p| ensures Step(s[k], s[k + 1], p[k], x[k], d, time) {
      if k < |picks| {
        assert Step(states[k], states[k + 1], picks[k], selected[k], d, time);
      }
    }
  }

  // ----- what a greedy run guarantees -----

  /** The ticks of one chunk, in order. */
  function FromChunk(ticks: seq<ScheduledTick>, a: ChunkAddress): seq<ScheduledTick> {
    if ticks == [] then []
    else
      var rest := FromChunk(ticks[..|ticks| - 1], a);
      var last := ticks[|ticks| - 1];
      if last.position.Chunk() == a then rest + [last] else rest
  }

  lemma PopKeepsQueueOk(before: Chunks, after: Chunks, d: TickDomain, a: ChunkAddress, limit: nat)
    requires ChunksOk(before, limit) && Pops(before, after, d, a)
    ensures ChunksOk(after, limit)
  {
    var q, r := before[a].Queue(d), after[a].Queue(d);
    assert QueueOk(a, q, limit);
    PopKeepsMembers(q.heap, r.heap);
    forall id | id in r.identities ensures Holds(r, id) {
      assert Holds(q, id);
      if exists t :: t in q.heap && t.Id() == id {
        var t :| t in q.heap && t.Id() == id;
        assert t in r.heap;
      } else {
        var s :| s in q.Saved() && s.Id() == id;
        assert s in r.Saved();
      }
    }
    UpdateKeepsChunks(before, d, a, r, limit);
  }

  lemma PopKeepsMembers(before: Heap, after: Heap)
    requires before != [] && multiset(before) == multiset(after) + multiset{before[0]}
    ensures |before| == |after| + 1
    ensures forall t :: t in after ==> t in before
    ensures forall t :: t in before && t != before[0] ==> t in after
  {
    assert |multiset(before)| == |multiset(after)| + 1;
    forall t | t in after ensures t in before {
      assert t in multiset(after);
      assert t in multiset(before);
    }
    forall t | t in before && t != before[0] ensures t in after {
      assert t in multiset(before);
      assert t in multiset(after);
    }
  }

  /** One pop takes its head from the chosen chunk and leaves every other queue alone. */
  lemma PopConserves(before: Chunks, after: Chunks, d: TickDomain, pick: ChunkAddress, limit: nat, a: ChunkAddress)
    requires ChunksOk(before, limit) && Pops(before, after, d, pick) && a in before
    ensures ChunksOk(after, limit) && a in after
    ensures Head(before, d, pick).position.Chunk() == pick
    ensures multiset(before[a].Queue(d).heap) ==
            multiset(after[a].Queue(d).heap) + if a == pick then multiset{Head(before, d, pick)} else multiset{}
    ensures after[a] == before[a].With(d, after[a].Queue(d)) && after[a].Queue(d).pending == before[a].Queue(d).pending
  {
    hide IsHeap, Holds, ChunksOk;
    PopKeepsQueueOk(before, after, d, pick, limit);
    HeadIsHere(before, d, pick, limit);
  }

  lemma HeadIsHere(chunks: Chunks, d: TickDomain, a: ChunkAddress, limit: nat)
    requires ChunksOk(chunks, limit) && Live(chunks, d, a)
    ensures Head(chunks, d, a).position.Chunk() == a
  {
    assert QueueOk(a, chunks[a].Queue(d), limit);
  }

  /** Nothing is lost or invented: per chunk, what was queued is still queued or was selected. */
  lemma {:induction false} GreedyConserves(states: seq<Chunks>, picks: seq<ChunkAddress>, selected: seq<ScheduledTick>,
                                           d: TickDomain, time: i64, limit: nat, a: ChunkAddress)
    requires Greedy(states, picks, selected, d, time) && ChunksOk(states[0], limit) && a in states[0]
    ensures ChunksOk(states[|picks|], limit) && a in states[|picks|]
    ensures multiset(states[0][a].Queue(d).heap) ==
            multiset(states[|picks|][a].Queue(d).heap) + multiset(FromChunk(selected, a))
    ensures states[|picks|][a].registered == states[0][a].registered
    ensures states[|picks|][a].eligible == states[0][a].eligible
    ensures forall e :: e != d ==> states[|picks|][a].Queue(e) == states[0][a].Queue(e)
    ensures states[|picks|][a].Queue(d).pending == states[0][a].Queue(d).pending
    decreases |picks|
  {
    hide ChunksOk, CanSelect, Pops;
    if |picks| > 0 {
      var n := |picks| - 1;
      GreedyPrefix(states, picks, selected, d, time);
      GreedyConserves(states[..n + 1], picks[..n], selected[..n], d, time, limit, a);
      assert Step(states[n], states[n + 1], picks[n], selected[n], d, time);
      PopConserves(states[n], states[n + 1], d, picks[n], limit, a);
    }
  }

  lemma GreedyPrefix(states: seq<Chunks>, picks: seq<ChunkAddress>, selected: seq<ScheduledTick>, d: TickDomain, time: i64)
    requires Greedy(states, picks, selected, d, time) && |picks| > 0
    ensures Greedy(states[..|states| - 1], picks[..|picks| - 1], selected[..|selected| - 1], d, time)
  {
    var n := |picks| - 1;
    forall k | 0 <= k < n ensures Step(states[..n + 1][k], states[..n + 1][k + 1], picks[..n][k], selected[..n][k], d, time) {
      assert Step(states[k], states[k + 1], picks[k], selected[k], d, time);
    }
  }

  /** Every selected tick was due. */
  lemma GreedySelectsDue(states: seq<Chunks>, picks: seq<ChunkAddress>, selected: seq<ScheduledTick>, d: TickDomain, time: i64, k: nat)
    requires Greedy(states, picks, selected, d, time) && k < |selected|
    ensures selected[k].triggerTick <= time
    ensures Due(states[k], d, time, picks[k])
  {
    assert Step(states[k], states[k + 1], picks[k], selected[k], d, time);
  }
}
