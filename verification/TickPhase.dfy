/**
 Collecting one phase: scan the scheduling index for due chunks, drain the ready heap chunk
 by chunk up to the cap, and give every chunk that still holds ticks its index entry back.
 */
module TickPhase {
  import opened World
  import opened TickTypes
  import opened TickHeap
  import opened TickState
  import opened TickOrder

  /** Ready chunks by address, each with its head's key. */
  type Ready = map<ChunkAddress, OrderKey>

  ghost predicate ReadySound(chunks: Chunks, d: TickDomain, time: i64, ready: Ready) {
    forall a :: a in ready ==> Due(chunks, d, time, a) && ready[a] == Head(chunks, d, a).Key()
  }

  ghost predicate ReadyComplete(chunks: Chunks, d: TickDomain, time: i64, ready: Ready, taken: set<ChunkAddress>) {
    forall a :: Due(chunks, d, time, a) && a !in taken ==> a in ready
  }

  /** Mid-phase state: live queues are split among the index, the ready heap and `taken`. */
  ghost predicate Collecting(chunks: Chunks, d: TickDomain, time: i64, timeline: Timeline, ready: Ready, taken: set<ChunkAddress>) {
    && ReadySound(chunks, d, time, ready) && ready.Keys !! taken
    && IndexedExcept(chunks, d, timeline, ready.Keys + taken)
  }

  predicate IsLeastReady(ready: Ready, a: ChunkAddress) {
    a in ready && forall b :: b in ready ==> !ready[b].Before(ready[a])
  }

  lemma {:induction false} LeastReadyExists(ready: Ready)
    requires ready != map[]
    ensures exists a :: IsLeastReady(ready, a)
    decreases |ready|
  {
    var x :| x in ready;
    var rest := ready - {x};
    assert forall b :: b in ready && b != x ==> b in rest;
    if rest == map[] {
      assert IsLeastReady(ready, x);
    } else {
      LeastReadyExists(rest);
      var y :| IsLeastReady(rest, y);
      var least := if ready[x].Before(ready[y]) then x else y;
      assert IsLeastReady(ready, least);
    }
  }

  /** The priority queue's least entry; ties are its own business. */
  method LeastReady(ready: Ready) returns (a: ChunkAddress)
    requires ready != map[]
    ensures IsLeastReady(ready, a)
  {
    LeastReadyExists(ready);
    a :| a in ready && IsLeastReady(ready, a);
  }

  /** Moves every due eligible chunk from the index to the ready heap; visits each entry once. */
  method ScanDue(chunks: Chunks, d: TickDomain, time: i64, index: Timeline) returns (timeline: Timeline, ready: Ready)
    requires Indexed(chunks, d, index)
    ensures Collecting(chunks, d, time, timeline, ready, {})
    ensures ReadyComplete(chunks, d, time, ready, {})
  {
    timeline, ready := index, map[];
    var unvisited := index.Keys;
    while unvisited != {}
      invariant unvisited <= timeline.Keys && forall a :: a in unvisited ==> timeline[a] == index[a]
      invariant Collecting(chunks, d, time, timeline, ready, {})
      invariant ReadyComplete(chunks, d, time, ready, unvisited)
      decreases unvisited
    {
      var key :| key in unvisited;
      unvisited := unvisited - {key};
      if timeline[key] > time {
        continue;
      }
      if key !in chunks || !chunks[key].registered || chunks[key].Queue(d).heap == [] {
        timeline := timeline - {key};
        continue;
      }
      var tick := chunks[key].Queue(d).heap[0];
      if tick.triggerTick > time {
        timeline := timeline[key := tick.triggerTick];
      } else if chunks[key].eligible {
        timeline := timeline - {key};
        ready := ready[key := tick.Key()];
      }
    }
  }

  /** Popping the taken chunk's head disturbs no other chunk's place in the phase. */
  lemma PopKeepsCollecting(before: Chunks, after: Chunks, d: TickDomain, time: i64, timeline: Timeline, ready: Ready, c: ChunkAddress)
    requires Collecting(before, d, time, timeline, ready, {c}) && Pops(before, after, d, c)
    ensures Collecting(after, d, time, timeline, ready, {c})
    ensures ReadyComplete(before, d, time, ready, {c}) ==> ReadyComplete(after, d, time, ready, {c})
  {
    var q := after[c].Queue(d);
    UpdateOutsideIndex(before, d, timeline, ready.Keys + {c}, c, q);
    forall a | a != c ensures Due(after, d, time, a) == Due(before, d, time, a) {
      UpdateIsLocal(before, d, c, q, a, d);
    }
    forall a | a in ready ensures Due(after, d, time, a) && ready[a] == Head(after, d, a).Key() {
      UpdateIsLocal(before, d, c, q, a, d);
    }
  }

  /** A head that no ready entry strictly precedes is least among all due heads. */
  lemma LeastAmongDue(chunks: Chunks, d: TickDomain, time: i64, ready: Ready, c: ChunkAddress)
    requires ReadySound(chunks, d, time, ready) && ReadyComplete(chunks, d, time, ready, {c})
    requires Due(chunks, d, time, c)
    requires forall b :: b in ready ==> !ready[b].Before(Head(chunks, d, c).Key())
    ensures CanSelect(chunks, d, time, c)
  {
  }

  method PopHead(chunks: Chunks, d: TickDomain, c: ChunkAddress) returns (tick: ScheduledTick, after: Chunks)
    requires Live(chunks, d, c) && IsHeap(chunks[c].Queue(d).heap)
    ensures tick == Head(chunks, d, c) && Pops(chunks, after, d, c)
  {
    var q := chunks[c].Queue(d);
    var heap;
    tick, heap := Pop(q.heap);
    var r := q.(heap := heap, identities := q.identities - {tick.Id()});
    after := chunks[c := chunks[c].With(d, r)];
  }

  function Ids(ticks: seq<ScheduledTick>): seq<Identity> {
    seq(|ticks|, i requires 0 <= i < |ticks| => ticks[i].Id())
  }

  lemma IdsAppend(ticks: seq<ScheduledTick>, tick: ScheduledTick)
    ensures Ids(ticks + [tick]) == Ids(ticks) + [tick.Id()]
  {
  }

  /** Everything a phase accumulates: the queues, the selection, its counts and its ghost history. */
  datatype Progress = Progress(
    chunks: Chunks, selected: seq<ScheduledTick>, remaining: multiset<Identity>,
    states: seq<Chunks>, picks: seq<ChunkAddress>)
  {
    ghost predicate Valid(d: TickDomain, time: i64, max: nat, limit: nat) {
      && Greedy(states, picks, selected, d, time)
      && states[|picks|] == chunks && ChunksOk(chunks, limit) && chunks.Keys == states[0].Keys
      && |selected| <= max && remaining == multiset(Ids(selected))
    }
  }

  method SelectHead(p: Progress, d: TickDomain, time: i64, max: nat, limit: nat, ghost timeline: Timeline, ghost ready: Ready, c: ChunkAddress)
      returns (next: Progress)
    requires p.Valid(d, time, max, limit) && |p.selected| < max && CanSelect(p.chunks, d, time, c)
    requires Collecting(p.chunks, d, time, timeline, ready, {c}) && ReadyComplete(p.chunks, d, time, ready, {c})
    ensures next.Valid(d, time, max, limit) && |next.selected| == |p.selected| + 1 && next.states[0] == p.states[0]
    ensures Collecting(next.chunks, d, time, timeline, ready, {c}) && ReadyComplete(next.chunks, d, time, ready, {c})
    ensures c in next.chunks && next.chunks[c].registered && next.chunks[c].eligible
  {
    assert QueueOk(c, p.chunks[c].Queue(d), limit);
    var tick, after := PopHead(p.chunks, d, c);
    GreedyExtends(p.states, p.picks, p.selected, d, time, after, c, tick);
    PopKeepsQueueOk(p.chunks, after, d, c, limit);
    PopKeepsCollecting(p.chunks, after, d, time, timeline, ready, c);
    IdsAppend(p.selected, tick);
    next := Progress(after, p.selected + [tick], p.remaining + multiset{tick.Id()}, p.states + [after], p.picks + [c]);
  }

  /** Takes from one chunk while its next head is due and no ready chunk's head precedes it. */
  method DrainChunk(p: Progress, d: TickDomain, time: i64, max: nat, limit: nat, ghost timeline: Timeline, ready: Ready, c: ChunkAddress)
      returns (next: Progress)
    requires p.Valid(d, time, max, limit) && |p.selected| < max && CanSelect(p.chunks, d, time, c)
    requires Collecting(p.chunks, d, time, timeline, ready, {c}) && ReadyComplete(p.chunks, d, time, ready, {c})
    ensures next.Valid(d, time, max, limit) && |next.selected| > |p.selected| && next.states[0] == p.states[0]
    ensures Collecting(next.chunks, d, time, timeline, ready, {c}) && ReadyComplete(next.chunks, d, time, ready, {c})
    ensures c in next.chunks && next.chunks[c].registered && next.chunks[c].eligible
  {
    next := SelectHead(p, d, time, max, limit, timeline, ready, c);
    while |next.selected| < max
      invariant next.Valid(d, time, max, limit) && |next.selected| > |p.selected| && next.states[0] == p.states[0]
      invariant Collecting(next.chunks, d, time, timeline, ready, {c}) && ReadyComplete(next.chunks, d, time, ready, {c})
      invariant c in next.chunks && next.chunks[c].registered && next.chunks[c].eligible
      decreases max - |next.selected|
    {
      var heap := next.chunks[c].Queue(d).heap;
      if heap == [] || heap[0].triggerTick > time {
        break;
      }
      if ready != map[] {
        var other := LeastReady(ready);
        if ready[other].Before(heap[0].Key()) {
          break;
        }
        LeastStaysBelow(ready, other, heap[0].Key());
      }
      LeastAmongDue(next.chunks, d, time, ready, c);
      next := SelectHead(next, d, time, max, limit, timeline, ready, c);
    }
  }

  lemma LeastStaysBelow(ready: Ready, least: ChunkAddress, key: OrderKey)
    requires IsLeastReady(ready, least) && !ready[least].Before(key)
    ensures forall b :: b in ready ==> !ready[b].Before(key)
  {
  }

  /** A drained chunk goes back to the ready heap, to the index, or, when empty, to neither. */
  method PutBack(chunks: Chunks, d: TickDomain, time: i64, full: bool, index: Timeline, waiting: Ready, c: ChunkAddress)
      returns (timeline: Timeline, ready: Ready)
    requires Collecting(chunks, d, time, index, waiting, {c}) && ReadyComplete(chunks, d, time, waiting, {c})
    requires c in chunks && chunks[c].registered && chunks[c].eligible
    ensures Collecting(chunks, d, time, timeline, ready, {})
    ensures !full ==> ReadyComplete(chunks, d, time, ready, {})
  {
    timeline, ready := index, waiting;
    var heap := chunks[c].Queue(d).heap;
    if heap != [] {
      if heap[0].triggerTick <= time && !full {
        ready := ready[c := heap[0].Key()];
      } else {
        timeline := timeline[c := heap[0].triggerTick];
      }
    }
  }

  /** The ready entries left by the cap return to the index at their heads' trigger times. */
  method ReturnReady(chunks: Chunks, d: TickDomain, time: i64, index: Timeline, waiting: Ready) returns (timeline: Timeline)
    requires Collecting(chunks, d, time, index, waiting, {})
    ensures Indexed(chunks, d, timeline)
  {
    timeline := index;
    var ready := waiting;
    while ready != map[]
      invariant Collecting(chunks, d, time, timeline, ready, {})
      decreases ready.Keys
    {
      var c :| c in ready;
      TakeReady(chunks, d, time, timeline, ready, c);
      ready := ready - {c};
      IndexAgain(chunks, d, time, timeline, ready, c);
      timeline := timeline[c := chunks[c].Queue(d).heap[0].triggerTick];
    }
  }

  lemma IndexAgain(chunks: Chunks, d: TickDomain, time: i64, timeline: Timeline, ready: Ready, c: ChunkAddress)
    requires Collecting(chunks, d, time, timeline, ready, {c}) && Live(chunks, d, c)
    ensures Collecting(chunks, d, time, timeline[c := Head(chunks, d, c).triggerTick], ready, {})
  {
  }

  /** One whole collection: a greedy run that stops at the cap or when nothing due is left. */
  method Collect(chunks: Chunks, d: TickDomain, time: i64, max: nat, limit: nat, index: Timeline)
      returns (p: Progress, timeline: Timeline)
    requires Indexed(chunks, d, index) && ChunksOk(chunks, limit)
    ensures p.Valid(d, time, max, limit) && p.states[0] == chunks
    ensures Indexed(p.chunks, d, timeline)
    ensures |p.selected| == max || forall a :: !Due(p.chunks, d, time, a)
    ensures |p.selected| == max || NoneDue(p.chunks, d, time)
    ensures forall t :: t in p.selected ==> TakenDue(chunks, d, time, t)
  {
    var ready;
    timeline, ready := ScanDue(chunks, d, time, index);
    p := Progress(chunks, [], multiset{}, [chunks], []);
    while |p.selected| < max && ready != map[]
      invariant p.Valid(d, time, max, limit) && p.states[0] == chunks
      invariant Collecting(p.chunks, d, time, timeline, ready, {})
      invariant |p.selected| < max ==> ReadyComplete(p.chunks, d, time, ready, {})
      decreases max - |p.selected|
    {
      var c := LeastReady(ready);
      LeastStaysBelow(ready, c, ready[c]);
      assert CanSelect(p.chunks, d, time, c);
      var waiting := ready - {c};
      TakeReady(p.chunks, d, time, timeline, ready, c);
      p := DrainChunk(p, d, time, max, limit, timeline, waiting, c);
      timeline, ready := PutBack(p.chunks, d, time, |p.selected| == max, timeline, waiting, c);
    }
    timeline := ReturnReady(p.chunks, d, time, timeline, ready);
    SelectionMeans(p, d, time, max, limit);
  }

  lemma SelectionMeans(p: Progress, d: TickDomain, time: i64, max: nat, limit: nat)
    requires p.Valid(d, time, max, limit) && ChunksOk(p.states[0], limit)
    ensures (forall a :: !Due(p.chunks, d, time, a)) ==> NoneDue(p.chunks, d, time)
    ensures forall t :: t in p.selected ==> TakenDue(p.states[0], d, time, t)
  {
    hide ChunksOk, Step, TakenDue, NoneDue, Due;
    NoHeadNoTick(p.chunks, d, time, limit);
    forall t | t in p.selected ensures TakenDue(p.states[0], d, time, t) {
      var k :| 0 <= k < |p.selected| && p.selected[k] == t;
      SelectedWasDue(p.states, p.picks, p.selected, d, time, limit, k);
    }
  }

  lemma TakeReady(chunks: Chunks, d: TickDomain, time: i64, timeline: Timeline, ready: Ready, c: ChunkAddress)
    requires Collecting(chunks, d, time, timeline, ready, {}) && c in ready
    ensures Collecting(chunks, d, time, timeline, ready - {c}, {c})
    ensures ReadyComplete(chunks, d, time, ready, {}) ==> ReadyComplete(chunks, d, time, ready - {c}, {c})
  {
    assert (ready - {c}).Keys + {c} == ready.Keys;
  }
}
