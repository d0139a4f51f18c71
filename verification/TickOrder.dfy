/** What a phase takes and leaves, and in which order, told by trigger times, priorities and creation alone. */
module TickOrder {
  import opened World
  import opened TickTypes
  import opened TickHeap
  import opened TickState

  /** The live ticks of a domain in one chunk. */
  ghost function Queued(chunk: ChunkQueues, d: TickDomain): seq<ScheduledTick> {
    match d
    case Block => chunk.blocks.heap
    case Fluid => chunk.fluids.heap
  }

  ghost predicate Served(chunks: Chunks, a: ChunkAddress) {
    a in chunks && chunks[a].registered && chunks[a].eligible
  }

  /** Every tick left in a registered eligible chunk is for a later time. */
  ghost predicate NoneDue(chunks: Chunks, d: TickDomain, time: i64) {
    forall a, t :: Served(chunks, a) && t in Queued(chunks[a], d) ==> t.triggerTick > time
  }

  /** If no head is due, no tick is. */
  lemma NoHeadNoTick(chunks: Chunks, d: TickDomain, time: i64, limit: nat)
    requires ChunksOk(chunks, limit)
    ensures (forall a :: !Due(chunks, d, time, a)) <==> NoneDue(chunks, d, time)
  {
    hide IsHeap, Holds;
    forall a, t | Served(chunks, a) && t in Queued(chunks[a], d)
      ensures Live(chunks, d, a) && Head(chunks, d, a).triggerTick <= t.triggerTick
    {
      var heap := chunks[a].Queue(d).heap;
      assert QueueOk(a, chunks[a].Queue(d), limit);
      var i :| 0 <= i < |heap| && heap[i] == t;
      RootIsEarliest(heap, i);
    }
    forall a | Due(chunks, d, time, a) ensures Served(chunks, a) && Head(chunks, d, a) in Queued(chunks[a], d) {
    }
  }

  lemma GreedyTake(states: seq<Chunks>, picks: seq<ChunkAddress>, selected: seq<ScheduledTick>, d: TickDomain, time: i64, n: nat)
    requires Greedy(states, picks, selected, d, time) && n <= |picks|
    ensures Greedy(states[..n + 1], picks[..n], selected[..n], d, time)
  {
    hide Step;
    forall k | 0 <= k < n ensures Step(states[..n + 1][k], states[..n + 1][k + 1], picks[..n][k], selected[..n][k], d, time) {
      assert Step(states[k], states[k + 1], picks[k], selected[k], d, time);
    }
  }

  /** A tick was taken from the queue of its own chunk, which was being served, and it was due. */
  ghost predicate TakenDue(before: Chunks, d: TickDomain, time: i64, t: ScheduledTick) {
    var a := t.position.Chunk();
    Served(before, a) && t in Queued(before[a], d) && t.triggerTick <= time
  }

  lemma SelectedWasDue(states: seq<Chunks>, picks: seq<ChunkAddress>, selected: seq<ScheduledTick>, d: TickDomain, time: i64, limit: nat, k: nat)
    requires Greedy(states, picks, selected, d, time) && ChunksOk(states[0], limit) && k < |selected|
    ensures TakenDue(states[0], d, time, selected[k])
  {
    hide ChunksOk, FromChunk, CanSelect;
    GreedyTake(states, picks, selected, d, time, k);
    var t, pick := selected[k], picks[k];
    assert Step(states[k], states[k + 1], pick, t, d, time);
    SelectedIsHead(states[k], d, time, pick);
    GreedyKeys(states[..k + 1], picks[..k], selected[..k], d, time);
    GreedyConserves(states[..k + 1], picks[..k], selected[..k], d, time, limit, pick);
    HeadIsHere(states[k], d, pick, limit);
    assert t in multiset(states[k][pick].Queue(d).heap);
    assert t in multiset(states[0][pick].Queue(d).heap);
  }

  lemma SelectedIsHead(chunks: Chunks, d: TickDomain, time: i64, pick: ChunkAddress)
    requires CanSelect(chunks, d, time, pick)
    ensures Live(chunks, d, pick) && Served(chunks, pick) && Head(chunks, d, pick) in chunks[pick].Queue(d).heap
    ensures Head(chunks, d, pick).triggerTick <= time
  {
  }

  lemma {:induction false} GreedyKeys(states: seq<Chunks>, picks: seq<ChunkAddress>, selected: seq<ScheduledTick>, d: TickDomain, time: i64)
    requires Greedy(states, picks, selected, d, time)
    ensures states[|picks|].Keys == states[0].Keys
    decreases |picks|
  {
    hide CanSelect;
    if |picks| > 0 {
      var n := |picks| - 1;
      GreedyPrefix(states, picks, selected, d, time);
      GreedyKeys(states[..n + 1], picks[..n], selected[..n], d, time);
      assert Step(states[n], states[n + 1], picks[n], selected[n], d, time);
    }
  }

  /**
   At its turn a selected tick has, in its own chunk, the earliest trigger time and among those
   the first turn; and no other served chunk's earliest due tick comes before it in its game tick.
   */
  lemma SelectedIsFirst(states: seq<Chunks>, picks: seq<ChunkAddress>, selected: seq<ScheduledTick>, d: TickDomain, time: i64, limit: nat, k: nat)
    requires Greedy(states, picks, selected, d, time) && ChunksOk(states[0], limit) && k < |selected|
    ensures Served(states[k], picks[k]) && selected[k] in Queued(states[k][picks[k]], d)
    ensures forall t :: t in Queued(states[k][picks[k]], d) ==>
      selected[k].triggerTick < t.triggerTick || (selected[k].triggerTick == t.triggerTick && InTurn(selected[k], t))
    ensures forall b :: Served(states[k], b) && Queued(states[k][b], d) != [] && Queued(states[k][b], d)[0].triggerTick <= time ==>
      InTurn(selected[k], Queued(states[k][b], d)[0])
  {
    hide ChunksOk, IsHeap, WithinBefore, Le;
    GreedyTake(states, picks, selected, d, time, k);
    var t, pick := selected[k], picks[k];
    assert Step(states[k], states[k + 1], pick, t, d, time);
    GreedyKeys(states[..k + 1], picks[..k], selected[..k], d, time);
    GreedyConserves(states[..k + 1], picks[..k], selected[..k], d, time, limit, pick);
    HeapOfChunk(states[k], d, pick, limit);
    var heap := states[k][pick].Queue(d).heap;
    forall x | x in heap ensures t.triggerTick < x.triggerTick || (t.triggerTick == x.triggerTick && InTurn(t, x)) {
      var i :| 0 <= i < |heap| && heap[i] == x;
      RootIsEarliest(heap, i);
    }
    forall b | Served(states[k], b) && Queued(states[k][b], d) != [] && Queued(states[k][b], d)[0].triggerTick <= time
      ensures InTurn(t, Queued(states[k][b], d)[0])
    {
      assert Due(states[k], d, time, b);
      OrderMeans(t, Head(states[k], d, b));
    }
  }

  lemma HeapOfChunk(chunks: Chunks, d: TickDomain, a: ChunkAddress, limit: nat)
    requires ChunksOk(chunks, limit) && a in chunks
    ensures IsHeap(chunks[a].Queue(d).heap)
  {
    assert QueueOk(a, chunks[a].Queue(d), limit);
  }

  /** The domains keep apart: block ticks are those of `blocks`, fluid ticks those of `fluids`. */
  lemma DomainsApart(chunk: ChunkQueues, q: ChunkQueue)
    ensures chunk.Queue(Block) == chunk.blocks && chunk.Queue(Fluid) == chunk.fluids
    ensures chunk.With(Block, q) == chunk.(blocks := q) && chunk.With(Fluid, q) == chunk.(fluids := q)
  {
  }
}
