/**
 The owner of all scheduled ticks of one world: chunk queues of two domains, a shared
 sub-tick counter, two scheduling indexes and at most one running phase.
 */
module TickOwner {
  import opened World
  import opened TickTypes
  import opened TickHeap
  import opened TickState
  import opened TickPhase
  import opened TickQueues
  import opened TickArea
  import opened TickExact
  import opened TickOrder
  import TickCopy

  function Here(saved: seq<SavedTick>, a: ChunkAddress): seq<SavedTick> {
    if saved == [] then []
    else
      var rest := Here(saved[..|saved| - 1], a);
      var last := saved[|saved| - 1];
      if last.position.Chunk() == a then rest + [last] else rest
  }

  lemma {:induction false} HereMembers(saved: seq<SavedTick>, a: ChunkAddress, s: SavedTick)
    ensures s in Here(saved, a) <==> s in saved && s.position.Chunk() == a
  {
    if saved != [] {
      var n := |saved| - 1;
      HereMembers(saved[..n], a, s);
      assert saved == saved[..n] + [saved[n]];
    }
  }

  const MAX_SCHEDULED_TICKS_PER_PHASE: nat := 65536

  const NO_QUEUE := ChunkQueue([], {}, None)

  lemma LoadedQueueOk(a: ChunkAddress, saved: seq<SavedTick>, limit: nat)
    requires |Here(saved, a)| <= limit && |Here(saved, a)| < 0x8000_0000
    ensures QueueOk(a, Loaded(Here(saved, a)), limit)
  {
    forall s | s in Here(saved, a) ensures s.position.Chunk() == a {
      HereMembers(saved, a, s);
    }
  }

  method FilterHere(saved: seq<SavedTick>, a: ChunkAddress) returns (here: seq<SavedTick>)
    ensures here == Here(saved, a)
  {
    here := [];
    for i := 0 to |saved|
      invariant here == Here(saved[..i], a)
    {
      assert saved[..i + 1][..i] == saved[..i];
      if saved[i].position.Chunk() == a {
        here := here + [saved[i]];
      }
    }
    assert saved[..|saved|] == saved;
  }

  // ----- adding and removing whole chunks -----

  /** Adding a chunk with no live ticks, or a detached one, disturbs nothing. */
  lemma InsertKeeps(chunks: Chunks, a: ChunkAddress, c: ChunkQueues, limit: nat, blocks: Timeline, fluids: Timeline)
    requires ChunksOk(chunks, limit) && a !in chunks && Indexed(chunks, Block, blocks) && Indexed(chunks, Fluid, fluids)
    requires c.blocks.heap == c.fluids.heap == []
    requires QueueOk(a, c.blocks, limit) && QueueOk(a, c.fluids, limit)
    ensures ChunksOk(chunks[a := c], limit)
    ensures Indexed(chunks[a := c], Block, blocks) && Indexed(chunks[a := c], Fluid, fluids)
  {
    InsertKeepsChunks(chunks, a, c, limit);
    InsertKeepsIndex(chunks, a, c, Block, blocks);
    InsertKeepsIndex(chunks, a, c, Fluid, fluids);
  }

  lemma InsertKeepsChunks(chunks: Chunks, a: ChunkAddress, c: ChunkQueues, limit: nat)
    requires ChunksOk(chunks, limit) && a !in chunks
    requires QueueOk(a, c.blocks, limit) && QueueOk(a, c.fluids, limit)
    ensures ChunksOk(chunks[a := c], limit)
  {
    var after := chunks[a := c];
    forall b, e | b in after ensures QueueOk(b, after[b].Queue(e), limit) {
      if b != a {
        assert QueueOk(b, chunks[b].Queue(e), limit);
      }
    }
  }

  lemma InsertKeepsIndex(chunks: Chunks, a: ChunkAddress, c: ChunkQueues, d: TickDomain, timeline: Timeline)
    requires Indexed(chunks, d, timeline) && a !in chunks && c.Queue(d).heap == []
    ensures Indexed(chunks[a := c], d, timeline)
  {
    var after := chunks[a := c];
    forall b ensures Live(after, d, b) == Live(chunks, d, b) {
    }
  }

  /** Removing or detaching a chunk together with its index entries keeps both indexes exact. */
  lemma DetachKeeps(chunks: Chunks, after: Chunks, d: TickDomain, timeline: Timeline, a: ChunkAddress)
    requires Indexed(chunks, d, timeline) && !Registered(after, a)
    requires forall b :: b != a ==> (b in after <==> b in chunks) && (b in chunks ==> after[b] == chunks[b])
    ensures Indexed(after, d, timeline - {a})
  {
    forall b | b != a ensures Live(after, d, b) == Live(chunks, d, b) {
    }
  }

  lemma EligibleKeeps(chunks: Chunks, after: Chunks, limit: nat, blocks: Timeline, fluids: Timeline, a: ChunkAddress, e: bool)
    requires ChunksOk(chunks, limit) && Indexed(chunks, Block, blocks) && Indexed(chunks, Fluid, fluids)
    requires a in chunks && after == chunks[a := chunks[a].(eligible := e)]
    ensures ChunksOk(after, limit) && Indexed(after, Block, blocks) && Indexed(after, Fluid, fluids)
  {
    hide ChunksOk, QueueOk, IndexedExcept;
    AttachKeepsChunks(chunks, limit, a, chunks[a].(eligible := e));
    SameLivesKeep(chunks, after, Block, blocks);
    SameLivesKeep(chunks, after, Fluid, fluids);
  }

  lemma SameLivesKeep(before: Chunks, after: Chunks, d: TickDomain, timeline: Timeline)
    requires Indexed(before, d, timeline) && before.Keys == after.Keys
    requires forall a :: a in before ==> after[a].registered == before[a].registered && after[a].Queue(d) == before[a].Queue(d)
    ensures Indexed(after, d, timeline)
  {
    forall a ensures Live(after, d, a) == Live(before, d, a) {
    }
  }

  /** Reattaching a detached chunk needs exactly its two heads indexed. */
  lemma AttachKeeps(chunks: Chunks, d: TickDomain, timeline: Timeline, a: ChunkAddress, e: bool)
    requires Indexed(chunks, d, timeline) && a in chunks && !chunks[a].registered
    ensures var after := chunks[a := chunks[a].(registered := true, eligible := e)];
            Indexed(after, d, Reindexed(timeline, a, chunks[a].Queue(d).heap))
  {
    var after := chunks[a := chunks[a].(registered := true, eligible := e)];
    forall b | b != a ensures Live(after, d, b) == Live(chunks, d, b) {
    }
  }

  lemma AttachKeepsChunks(chunks: Chunks, limit: nat, a: ChunkAddress, c: ChunkQueues)
    requires ChunksOk(chunks, limit) && a in chunks
    requires c.blocks == chunks[a].blocks && c.fluids == chunks[a].fluids
    ensures ChunksOk(chunks[a := c], limit)
  {
    var after := chunks[a := c];
    forall b, e | b in after ensures QueueOk(b, after[b].Queue(e), limit) {
      assert QueueOk(b, chunks[b].Queue(e), limit);
    }
  }

  lemma RemoveKeepsChunks(chunks: Chunks, limit: nat, a: ChunkAddress)
    requires ChunksOk(chunks, limit)
    ensures ChunksOk(chunks - {a}, limit)
  {
    forall b, e | b in chunks - {a} ensures QueueOk(b, (chunks - {a})[b].Queue(e), limit) {
      assert QueueOk(b, chunks[b].Queue(e), limit);
    }
  }

  /** Every queue is sound and both indexes are exact. */
  ghost predicate QueuesOk(chunks: Chunks, max: nat, limit: nat, blocks: Timeline, fluids: Timeline) {
    && ChunksOk(chunks, limit) && |chunks| <= max
    && Indexed(chunks, Block, blocks) && Indexed(chunks, Fluid, fluids)
  }

  /**
   What an observed set holds: identities that still remain, and stale ones whose ticks an area
   operation removed after they were observed. An identity that remains is missing from it only
   once another tick of the same identity was returned.
   */
  ghost predicate Observed(returned: seq<ScheduledTick>, remaining: multiset<Identity>, ids: set<Identity>, stale: set<Identity>) {
    && stale <= ids && (forall id :: id in stale ==> id !in remaining)
    && (forall id :: id in ids ==> id in remaining || id in stale)
    && (ids != {} ==> forall id :: id in remaining ==> id in ids || id in Ids(returned))
  }

  /** The cursor stands inside the selected ticks, and the counts are those of the ticks after it. */
  ghost predicate Remaining(selected: seq<ScheduledTick>, cursor: nat, remaining: multiset<Identity>, ids: set<Identity>, stale: set<Identity>) {
    && cursor <= |selected| && remaining == multiset(Ids(selected[cursor..]))
    && Observed(selected[..cursor], remaining, ids, stale)
  }

  /** One chunk's saved entries became live in both domains; nothing else changed. */
  ghost predicate ChunkUnpacked(before: Chunks, after: Chunks, a: ChunkAddress, time: i64) {
    && a in before && a in after && after == before[a := after[a]]
    && after[a].registered == before[a].registered && after[a].eligible == before[a].eligible
    && Unpacks(a, before[a].blocks, after[a].blocks, time)
    && Unpacks(a, before[a].fluids, after[a].fluids, time)
  }

  method UnpackBoth(chunks: Chunks, ghost max: nat, limit: nat, blockIndex: Timeline, fluidIndex: Timeline, a: ChunkAddress, time: i64)
      returns (after: Chunks, blocks: Timeline, fluids: Timeline)
    requires QueuesOk(chunks, max, limit, blockIndex, fluidIndex) && a in chunks
    ensures QueuesOk(after, max, limit, blocks, fluids) && ChunkUnpacked(chunks, after, a, time)
  {
    hide ChunksOk, IndexedExcept, Unpacks;
    var first;
    first, blocks := TickQueues.Unpack(chunks, Block, blockIndex, limit, a, time);
    SameLivesKeep(chunks, first, Fluid, fluidIndex);
    SizeOfUpdate(chunks, a, first[a]);
    after, fluids := TickQueues.Unpack(first, Fluid, fluidIndex, limit, a, time);
    SameLivesKeep(first, after, Block, blocks);
    SizeOfUpdate(first, a, after[a]);
  }

  lemma ReplaceKeeps(before: Chunks, after: Chunks, d: TickDomain, max: nat, limit: nat, timeline: Timeline, blocks: Timeline, fluids: Timeline)
    requires QueuesOk(before, max, limit, blocks, fluids) && ReplacesOnly(before, after, d, limit, timeline)
    ensures QueuesOk(after, max, limit, if d == Block then timeline else blocks, if d == Block then fluids else timeline)
  {
    hide ChunksOk, IndexedExcept;
    if d == Block {
      SameLivesKeep(before, after, Fluid, fluids);
    } else {
      SameLivesKeep(before, after, Block, blocks);
    }
    SameKeysSameSize(before, after);
  }

  /** One collection as a step of the queues: a greedy run whose end state is soundly indexed. */
  ghost predicate Collects(before: Chunks, after: Chunks, selected: seq<ScheduledTick>, d: TickDomain, time: i64, max: nat, run: Progress) {
    && Greedy(run.states, run.picks, selected, d, time)
    && run.states[0] == before && run.states[|run.picks|] == after && |selected| <= max
    && (|selected| == max || forall a :: !Due(after, d, time, a))
  }

  method CollectPhase(chunks: Chunks, d: TickDomain, time: i64, max: nat, limit: nat, index: Timeline)
      returns (p: Progress, timeline: Timeline)
    requires Indexed(chunks, d, index) && ChunksOk(chunks, limit)
    ensures Collects(chunks, p.chunks, p.selected, d, time, max, p) && p.remaining == multiset(Ids(p.selected))
    ensures ReplacesOnly(chunks, p.chunks, d, limit, timeline)
    ensures |p.selected| == max || NoneDue(p.chunks, d, time)
    ensures forall t :: t in p.selected ==> TakenDue(chunks, d, time, t)
  {
    hide ChunksOk, IndexedExcept, Greedy, Due, NoneDue, TakenDue;
    p, timeline := Collect(chunks, d, time, max, limit, index);
    CollectedOnly(p.states, p.picks, p.selected, d, time, limit);
  }

  ghost predicate AreaCleared(before: Chunks, after: Chunks, d: TickDomain, bounds: TickBounds) {
    after.Keys == before.Keys && forall a :: a in before ==> ChunkCleared(before[a], after[a], d, bounds)
  }

  lemma ClearReplaces(before: Chunks, after: Chunks, d: TickDomain, limit: nat, timeline: Timeline, bounds: TickBounds)
    requires ChunksOk(after, limit) && Indexed(after, d, timeline) && AreaCleared(before, after, d, bounds)
    ensures ReplacesOnly(before, after, d, limit, timeline)
  {
    forall a | a in before ensures after[a] == before[a].With(d, after[a].Queue(d)) {
      assert ChunkCleared(before[a], after[a], d, bounds);
    }
  }

  // ----- operations as steps of the queues -----

  /** What an operation that succeeds does to the queues; one that fails leaves them alone. */
  datatype Operation =
    | Register(a: ChunkAddress, eligible: bool) | Unpacking(a: ChunkAddress, time: i64) | Marking(a: ChunkAddress, eligible: bool)
    | Detaching(a: ChunkAddress) | Discarding(a: ChunkAddress) | Scheduling(d: TickDomain, tick: ScheduledTick)
    | Collecting(d: TickDomain, time: i64, max: nat, selected: seq<ScheduledTick>, run: Progress) | Clearing(d: TickDomain, bounds: TickBounds)
    | Copying(d: TickDomain, types: u32, limit: nat, snapshot: seq<ScheduledTick>, offset: TickPosition, least: i64, greatest: i64,
              outcome: Result<TickCopy.CopyOutcome, TickError>)

  ghost predicate Follows(before: Chunks, op: Operation, after: Chunks) {
    match op
    case Register(a, eligible) => Registers(before, after, a, eligible)
    case Unpacking(a, time) => ChunkUnpacked(before, after, a, time)
    case Marking(a, eligible) => Registered(before, a) && after == before[a := before[a].(eligible := eligible)]
    case Detaching(a) => Registered(before, a) && after == before[a := before[a].(registered := false)]
    case Discarding(a) => a in before && !before[a].registered && after == before - {a}
    case Scheduling(d, tick) => Schedules(before, after, d, tick)
    case Collecting(d, time, max, selected, run) => Collects(before, after, selected, d, time, max, run)
    case Clearing(d, bounds) => AreaCleared(before, after, d, bounds)
    case Copying(d, types, limit, snapshot, offset, min, max, outcome) =>
      TickCopy.Copies(before, after, d, types, limit, snapshot, offset, min, max, outcome)
  }

  /** A new chunk is empty, a detached one is reattached with its ticks. */
  ghost predicate Registers(before: Chunks, after: Chunks, a: ChunkAddress, eligible: bool) {
    && !Registered(before, a)
    && after == before[a := if a in before then before[a].(registered := true, eligible := eligible)
                            else ChunkQueues(true, eligible, NO_QUEUE, NO_QUEUE)]
  }

  ghost predicate Schedules(before: Chunks, after: Chunks, d: TickDomain, tick: ScheduledTick) {
    var a := tick.position.Chunk();
    && Registered(before, a) && a in after && after == before[a := before[a].With(d, after[a].Queue(d))]
    && tick.Id() !in before[a].Queue(d).identities && Gains(before[a].Queue(d), after[a].Queue(d), [tick])
  }

  // ----- every operation keeps the duplicate sets precise -----

  lemma UnpackKeepsAllExact(before: Chunks, after: Chunks, a: ChunkAddress, time: i64)
    requires ChunkUnpacked(before, after, a, time)
    ensures AllExact(before) ==> AllExact(after)
  {
    hide ExactQueue, Unpacks;
    if AllExact(before) {
      assert ExactQueue(before[a].Queue(Block)) && ExactQueue(before[a].Queue(Fluid));
      UnpackKeepsExact(a, before[a].blocks, after[a].blocks, time);
      UnpackKeepsExact(a, before[a].fluids, after[a].fluids, time);
      InsertKeepsAllExact(before, a, after[a]);
    }
  }

  lemma CollectKeepsAllExact(before: Chunks, after: Chunks, selected: seq<ScheduledTick>, d: TickDomain, time: i64, max: nat, run: Progress)
    requires Collects(before, after, selected, d, time, max, run)
    ensures AllExact(before) ==> AllExact(after)
  {
    hide AllExact, Due;
    if AllExact(before) {
      GreedyKeepsAllExact(run.states, run.picks, selected, d, time);
    }
  }

  lemma CopyKeepsAllExact(before: Chunks, after: Chunks, d: TickDomain, types: u32, limit: nat, snapshot: seq<ScheduledTick>,
                          offset: TickPosition, min: i64, max: i64, r: Result<TickCopy.CopyOutcome, TickError>)
    requires TickCopy.Copies(before, after, d, types, limit, snapshot, offset, min, max, r)
    ensures AllExact(before) ==> AllExact(after)
  {
    hide AllExact, TickCopy.BatchScheduled, TickCopy.Admissible;
    if r.Ok? {
      var copies := TickCopy.AllShifted(snapshot, offset, min, max);
      TickCopy.AcceptedIsAdmissible(before, d, limit, copies);
      BatchKeepsAllExact(before, after, d, limit, TickCopy.Accepted(before, d, copies));
    }
  }

  /** Attaching, detaching and marking a chunk leave its queues alone. */
  lemma SameQueuesKeepAllExact(chunks: Chunks, a: ChunkAddress, c: ChunkQueues)
    requires a in chunks && c.blocks == chunks[a].blocks && c.fluids == chunks[a].fluids
    ensures AllExact(chunks) ==> AllExact(chunks[a := c])
  {
    hide ExactQueue;
    if AllExact(chunks) {
      assert ExactQueue(chunks[a].Queue(Block)) && ExactQueue(chunks[a].Queue(Fluid));
      InsertKeepsAllExact(chunks, a, c);
    }
  }

  /** A loaded chunk keeps every duplicate set precise exactly when no identity was saved twice. */
  lemma LoadKeepsAllExact(chunks: Chunks, a: ChunkAddress, blocks: seq<SavedTick>, fluids: seq<SavedTick>)
    requires AllExact(chunks)
    ensures AllExact(chunks[a := ChunkQueues(false, false, Loaded(blocks), Loaded(fluids))]) <==>
            DistinctSaved(blocks) && DistinctSaved(fluids)
  {
    hide ExactQueue, DistinctSaved, Loaded;
    LoadedIsExact(blocks);
    LoadedIsExact(fluids);
    InsertKeepsAllExact(chunks, a, ChunkQueues(false, false, Loaded(blocks), Loaded(fluids)));
  }

  lemma RemoveKeepsAllExact(chunks: Chunks, a: ChunkAddress)
    ensures AllExact(chunks) ==> AllExact(chunks - {a})
  {
    hide ExactQueue;
    if AllExact(chunks) {
      forall b, e | b in chunks - {a} ensures ExactQueue((chunks - {a})[b].Queue(e)) {
        assert ExactQueue(chunks[b].Queue(e));
      }
    }
  }

  lemma EmptyKeepsAllExact(chunks: Chunks, a: ChunkAddress, eligible: bool)
    ensures AllExact(chunks) ==> AllExact(chunks[a := ChunkQueues(true, eligible, NO_QUEUE, NO_QUEUE)])
  {
    if AllExact(chunks) {
      assert ExactQueue(NO_QUEUE) by {
        assert SavedIds([]) == [] && Ids([]) == [];
      }
      InsertKeepsAllExact(chunks, a, ChunkQueues(true, eligible, NO_QUEUE, NO_QUEUE));
    }
  }

  lemma CopyingFollows(before: Chunks, after: Chunks, d: TickDomain, types: u32, limit: nat, snapshot: seq<ScheduledTick>,
                       offset: TickPosition, min: i64, max: i64, r: Result<TickCopy.CopyOutcome, TickError>)
    requires TickCopy.Copies(before, after, d, types, limit, snapshot, offset, min, max, r)
    ensures Follows(before, Copying(d, types, limit, snapshot, offset, min, max, r), after)
  {
  }

  lemma StepKeepsAllExact(before: Chunks, op: Operation, after: Chunks)
    requires Follows(before, op, after)
    ensures AllExact(before) ==> AllExact(after)
  {
    hide AllExact, ExactQueue, Collects, TickCopy.Copies, ChunkUnpacked, AreaCleared, Gains;
    match op
    case Register(a, eligible) =>
      if a in before {
        SameQueuesKeepAllExact(before, a, before[a].(registered := true, eligible := eligible));
      } else {
        EmptyKeepsAllExact(before, a, eligible);
      }
    case Unpacking(a, time) => UnpackKeepsAllExact(before, after, a, time);
    case Marking(a, eligible) => SameQueuesKeepAllExact(before, a, before[a].(eligible := eligible));
    case Detaching(a) => SameQueuesKeepAllExact(before, a, before[a].(registered := false));
    case Discarding(a) => RemoveKeepsAllExact(before, a);
    case Scheduling(d, tick) => ScheduleKeepsAllExact(before, after, d, tick.position.Chunk(), tick);
    case Collecting(d, time, max, selected, run) => CollectKeepsAllExact(before, after, selected, d, time, max, run);
    case Clearing(d, bounds) => AreaKeepsAllExact(before, after, d, bounds);
    case Copying(d, types, limit, snapshot, offset, min, max, outcome) =>
      CopyKeepsAllExact(before, after, d, types, limit, snapshot, offset, min, max, outcome);
  }

  lemma AreaKeepsAllExact(before: Chunks, after: Chunks, d: TickDomain, bounds: TickBounds)
    requires AreaCleared(before, after, d, bounds)
    ensures AllExact(before) ==> AllExact(after)
  {
    hide AllExact, ChunkCleared;
    ClearKeepsAllExact(before, after, d, bounds);
  }

  class ScheduledTickOwner {
    const maxChunks: nat
    const queuedPerChunk: nat
    const selectedPerPhase: nat
    const blockTypes: u32
    const fluidTypes: u32
    var nextSubTick: i64
    var chunks: Chunks
    var blockIndex: Timeline
    var fluidIndex: Timeline
    var selected: seq<ScheduledTick>
    var cursor: nat
    var active: Option<TickDomain>
    var remaining: multiset<Identity>
    var selectedIds: set<Identity>
    /** Observed identities whose remaining ticks were cleared since; queries still answer yes for them. */
    ghost var stale: set<Identity>

    ghost predicate Valid() reads this {
      QueuesValid() && PhaseValid()
    }

    ghost predicate QueuesValid() reads `chunks, `blockIndex, `fluidIndex {
      QueuesOk(chunks, maxChunks, queuedPerChunk, blockIndex, fluidIndex)
    }

    ghost predicate PhaseValid() reads `selected, `cursor, `active, `remaining, `selectedIds, `stale {
      && |selected| <= selectedPerPhase && (active == None ==> selected == [] && selectedIds == {})
      && Remaining(selected, cursor, remaining, selectedIds, stale)
    }

    twostate predicate SameQueues() reads this {
      chunks == old(chunks) && blockIndex == old(blockIndex) && fluidIndex == old(fluidIndex)
    }

    twostate predicate SamePhase() reads this {
      && selected == old(selected) && cursor == old(cursor) && active == old(active)
      && remaining == old(remaining) && selectedIds == old(selectedIds) && stale == old(stale)
    }

    function Types(d: TickDomain): u32 {
      if d == Block then blockTypes else fluidTypes
    }

    lemma TypesByDomain()
      ensures Types(Block) == blockTypes && Types(Fluid) == fluidTypes
    {
    }

    function Index(d: TickDomain): Timeline reads `blockIndex, `fluidIndex {
      if d == Block then blockIndex else fluidIndex
    }

    constructor (blockTypes: u32, fluidTypes: u32, maxChunks: nat, queuedPerChunk: nat, selectedPerPhase: nat)
      ensures Valid() && chunks == map[] && active == None && nextSubTick == 0 && AllExact(chunks)
      ensures this.blockTypes == blockTypes && this.fluidTypes == fluidTypes && this.maxChunks == maxChunks
      ensures this.queuedPerChunk == queuedPerChunk && this.selectedPerPhase == selectedPerPhase
    {
      this.blockTypes, this.fluidTypes := blockTypes, fluidTypes;
      this.maxChunks, this.queuedPerChunk, this.selectedPerPhase := maxChunks, queuedPerChunk, selectedPerPhase;
      nextSubTick, chunks, blockIndex, fluidIndex := 0, map[], map[], map[];
      selected, cursor, active, remaining, selectedIds, stale := [], 0, None, multiset{}, {}, {};
    }

    /** An owner of nothing, unless a limit is zero, a phase may select too much, or the snapshot size overflows. */
    static method New(blockTypes: u32, fluidTypes: u32, maxChunks: nat, queuedPerChunk: nat, selectedPerPhase: nat)
        returns (r: Result<ScheduledTickOwner, TickError>)
      ensures r.Err? ==> r.error == InvalidLimits
      ensures r.Err? <==>
        || blockTypes == 0 || fluidTypes == 0 || maxChunks == 0 || queuedPerChunk == 0 || selectedPerPhase == 0
        || selectedPerPhase > MAX_SCHEDULED_TICKS_PER_PHASE || maxChunks * queuedPerChunk + selectedPerPhase > USIZE_MAX
      ensures r.Ok? ==>
        && fresh(r.value) && r.value.Valid() && r.value.chunks == map[] && r.value.active == None && r.value.nextSubTick == 0
        && AllExact(r.value.chunks) && r.value.blockTypes == blockTypes && r.value.fluidTypes == fluidTypes
        && r.value.maxChunks == maxChunks && r.value.queuedPerChunk == queuedPerChunk && r.value.selectedPerPhase == selectedPerPhase
    {
      if blockTypes == 0 || fluidTypes == 0 || maxChunks == 0 || queuedPerChunk == 0 || selectedPerPhase == 0
         || selectedPerPhase > MAX_SCHEDULED_TICKS_PER_PHASE || maxChunks * queuedPerChunk + selectedPerPhase > USIZE_MAX {
        return Err(InvalidLimits);
      }
      var owner := new ScheduledTickOwner(blockTypes, fluidTypes, maxChunks, queuedPerChunk, selectedPerPhase);
      r := Ok(owner);
    }

    // ----- chunk life cycle -----

    method RegisterChunk(a: ChunkAddress, eligible: bool) returns (r: Result<(), TickError>)
      requires Valid()
      modifies `chunks, `blockIndex, `fluidIndex
      ensures Valid()
      ensures r == if a in old(chunks) then (if old(chunks)[a].registered then Err(AlreadyRegistered) else Ok(()))
                   else if |old(chunks)| == maxChunks then Err(ChunkLimit) else Ok(())
      ensures r.Err? ==> SameQueues()
      ensures r.Ok? ==> chunks == old(chunks)[a := if a in old(chunks)
        then old(chunks)[a].(registered := true, eligible := eligible)
        else ChunkQueues(true, eligible, NO_QUEUE, NO_QUEUE)]
      ensures old(AllExact(chunks)) ==> AllExact(chunks)
      ensures r.Ok? ==> Follows(old(chunks), Register(a, eligible), chunks)
    {
      hide Remaining, QueueOk, IndexedExcept, AllExact;
      if a in chunks {
        if chunks[a].registered {
          return Err(AlreadyRegistered);
        }
        AttachKeeps(chunks, Block, blockIndex, a, eligible);
        AttachKeeps(chunks, Fluid, fluidIndex, a, eligible);
        var c := chunks[a].(registered := true, eligible := eligible);
        AttachKeepsChunks(chunks, queuedPerChunk, a, c);
        SizeOfUpdate(chunks, a, c);
        SameQueuesKeepAllExact(chunks, a, c);
        blockIndex := HeadUpdated(blockIndex, a, c.blocks.heap);
        fluidIndex := HeadUpdated(fluidIndex, a, c.fluids.heap);
        NotIndexed(chunks, Block, old(blockIndex), a);
        NotIndexed(chunks, Fluid, old(fluidIndex), a);
        chunks := chunks[a := c];
      } else {
        if |chunks| == maxChunks {
          return Err(ChunkLimit);
        }
        var c := ChunkQueues(true, eligible, NO_QUEUE, NO_QUEUE);
        EmptyQueueOk(a, queuedPerChunk);
        InsertKeeps(chunks, a, c, queuedPerChunk, blockIndex, fluidIndex);
        SizeOfUpdate(chunks, a, c);
        EmptyKeepsAllExact(chunks, a, eligible);
        chunks := chunks[a := c];
      }
      r := Ok(());
    }

    method LoadPendingChunk(a: ChunkAddress, blocks: seq<SavedTick>, fluids: seq<SavedTick>) returns (r: Result<(), TickError>)
      requires Valid()
      modifies `chunks
      ensures Valid()
      ensures r == if a in old(chunks) then Err(ChunkAlreadyPresent)
                   else if |old(chunks)| == maxChunks then Err(ChunkLimit)
                   else if |Here(blocks, a)| > queuedPerChunk || |Here(fluids, a)| > queuedPerChunk
                           || |Here(blocks, a)| > I32_MAX || |Here(fluids, a)| > I32_MAX then Err(QueueFull)
                   else if exists s :: (s in Here(blocks, a) && s.typeId >= blockTypes) || (s in Here(fluids, a) && s.typeId >= fluidTypes)
                        then Err(InvalidType) else Ok(())
      ensures r.Err? ==> SameQueues()
      ensures r.Ok? ==> chunks == old(chunks)[a := ChunkQueues(false, false, Loaded(Here(blocks, a)), Loaded(Here(fluids, a)))]
      ensures old(AllExact(chunks)) && r.Ok? ==>
                (AllExact(chunks) <==> DistinctSaved(Here(blocks, a)) && DistinctSaved(Here(fluids, a)))
    {
      hide Remaining, QueueOk, IndexedExcept, AllExact;
      if a in chunks {
        return Err(ChunkAlreadyPresent);
      }
      if |chunks| == maxChunks {
        return Err(ChunkLimit);
      }
      var hereBlocks := FilterHere(blocks, a);
      var hereFluids := FilterHere(fluids, a);
      if |hereBlocks| > queuedPerChunk || |hereFluids| > queuedPerChunk || |hereBlocks| > I32_MAX || |hereFluids| > I32_MAX {
        return Err(QueueFull);
      }
      if (exists s :: s in hereBlocks && s.typeId >= blockTypes) || (exists s :: s in hereFluids && s.typeId >= fluidTypes) {
        return Err(InvalidType);
      }
      var c := ChunkQueues(false, false, Loaded(hereBlocks), Loaded(hereFluids));
      LoadedQueueOk(a, blocks, queuedPerChunk);
      LoadedQueueOk(a, fluids, queuedPerChunk);
      if AllExact(chunks) {
        LoadKeepsAllExact(chunks, a, hereBlocks, hereFluids);
      }
      InsertKeeps(chunks, a, c, queuedPerChunk, blockIndex, fluidIndex);
      SizeOfUpdate(chunks, a, c);
      chunks := chunks[a := c];
      r := Ok(());
    }

    /** Materialises both domains' saved entries; a second unpack finds none. */
    method UnpackChunk(a: ChunkAddress, time: i64) returns (r: Result<(), TickError>)
      requires Valid()
      modifies `chunks, `blockIndex, `fluidIndex
      ensures Valid()
      ensures r == if a in old(chunks) then Ok(()) else Err(MissingChunk)
      ensures r.Err? ==> SameQueues()
      ensures r.Ok? ==> ChunkUnpacked(old(chunks), chunks, a, time)
      ensures old(AllExact(chunks)) ==> AllExact(chunks)
      ensures r.Ok? ==> Follows(old(chunks), Unpacking(a, time), chunks)
    {
      hide QueuesOk, PhaseValid, ChunkUnpacked, AllExact;
      if a !in chunks {
        return Err(MissingChunk);
      }
      var after, blocks, fluids := UnpackBoth(chunks, maxChunks, queuedPerChunk, blockIndex, fluidIndex, a, time);
      UnpackKeepsAllExact(chunks, after, a, time);
      chunks, blockIndex, fluidIndex := after, blocks, fluids;
      r := Ok(());
    }

    method SetEligible(a: ChunkAddress, eligible: bool) returns (r: Result<(), TickError>)
      requires Valid()
      modifies `chunks
      ensures Valid()
      ensures r == if Registered(old(chunks), a) then Ok(()) else Err(MissingChunk)
      ensures r.Err? ==> SameQueues()
      ensures r.Ok? ==> chunks == old(chunks)[a := old(chunks)[a].(eligible := eligible)]
      ensures old(AllExact(chunks)) ==> AllExact(chunks)
      ensures r.Ok? ==> Follows(old(chunks), Marking(a, eligible), chunks)
    {
      hide PhaseValid, QueueOk, IndexedExcept, AllExact;
      if a !in chunks || !chunks[a].registered {
        return Err(MissingChunk);
      }
      var c := chunks[a].(eligible := eligible);
      EligibleKeeps(chunks, chunks[a := c], queuedPerChunk, blockIndex, fluidIndex, a, eligible);
      SameQueuesKeepAllExact(chunks, a, c);
      SizeOfUpdate(chunks, a, c);
      chunks := chunks[a := c];
      r := Ok(());
    }

    /** A detached chunk keeps its ticks but leaves both indexes. */
    method DetachChunk(a: ChunkAddress) returns (r: Result<(), TickError>)
      requires Valid()
      modifies `chunks, `blockIndex, `fluidIndex
      ensures Valid()
      ensures r == if Registered(old(chunks), a) then Ok(()) else Err(MissingChunk)
      ensures r.Err? ==> SameQueues()
      ensures r.Ok? ==> chunks == old(chunks)[a := old(chunks)[a].(registered := false)]
      ensures r.Ok? ==> a !in blockIndex && a !in fluidIndex
      ensures old(AllExact(chunks)) ==> AllExact(chunks)
      ensures r.Ok? ==> Follows(old(chunks), Detaching(a), chunks)
    {
      hide Remaining, QueueOk, IndexedExcept, AllExact;
      if a !in chunks || !chunks[a].registered {
        return Err(MissingChunk);
      }
      var c := chunks[a].(registered := false);
      AttachKeepsChunks(chunks, queuedPerChunk, a, c);
      SizeOfUpdate(chunks, a, c);
      SameQueuesKeepAllExact(chunks, a, c);
      DetachKeeps(chunks, chunks[a := c], Block, blockIndex, a);
      DetachKeeps(chunks, chunks[a := c], Fluid, fluidIndex, a);
      chunks := chunks[a := c];
      blockIndex, fluidIndex := blockIndex - {a}, fluidIndex - {a};
      r := Ok(());
    }

    method DiscardDetachedChunk(a: ChunkAddress) returns (r: Result<(), TickError>)
      requires Valid()
      modifies `chunks
      ensures Valid()
      ensures r == if a !in old(chunks) then Err(MissingChunk)
                   else if old(chunks)[a].registered then Err(AlreadyRegistered) else Ok(())
      ensures r.Err? ==> SameQueues()
      ensures r.Ok? ==> chunks == old(chunks) - {a}
      ensures old(AllExact(chunks)) ==> AllExact(chunks)
      ensures r.Ok? ==> Follows(old(chunks), Discarding(a), chunks)
    {
      hide Remaining, QueueOk, IndexedExcept, AllExact;
      if a !in chunks {
        return Err(MissingChunk);
      }
      if chunks[a].registered {
        return Err(AlreadyRegistered);
      }
      RemoveKeepsChunks(chunks, queuedPerChunk, a);
      RemoveKeepsAllExact(chunks, a);
      DetachKeeps(chunks, chunks - {a}, Block, blockIndex, a);
      DetachKeeps(chunks, chunks - {a}, Fluid, fluidIndex, a);
      NotIndexed(chunks, Block, blockIndex, a);
      NotIndexed(chunks, Fluid, fluidIndex, a);
      assert (chunks - {a}).Keys <= chunks.Keys;
      SubsetSmaller((chunks - {a}).Keys, chunks.Keys);
      chunks := chunks - {a};
      r := Ok(());
    }

    // ----- scheduling -----

    /** A valid type consumes one sub-order whatever the outcome; only an added tick changes a queue. */
    method Schedule(d: TickDomain, position: TickPosition, typeId: u32, time: i64, delay: i32, priority: TickPriority)
        returns (r: Result<ScheduleOutcome, TickError>)
      requires Valid()
      modifies `chunks, `blockIndex, `fluidIndex, `nextSubTick
      ensures Valid()
      ensures typeId >= Types(d) ==> r == Err(InvalidType) && nextSubTick == old(nextSubTick)
      ensures typeId < Types(d) ==> nextSubTick == WrapI64(old(nextSubTick) + 1)
      ensures r != Ok(Added) ==> SameQueues()
      ensures typeId < Types(d) ==>
        var a := position.Chunk();
        r == if !Registered(old(chunks), a) then Ok(MissingContainer)
             else if Identity(position, typeId) in old(chunks)[a].Queue(d).identities then Ok(Duplicate)
             else if old(chunks)[a].Queue(d).Count() == queuedPerChunk then Err(QueueFull) else Ok(Added)
      ensures r == Ok(Added) ==>
        var a := position.Chunk();
        && a in chunks && a in old(chunks)
        && chunks == old(chunks)[a := old(chunks)[a].With(d, chunks[a].Queue(d))]
        && Gains(old(chunks)[a].Queue(d), chunks[a].Queue(d),
                 [ScheduledTick(position, typeId, WrapI64(time + delay), priority, old(nextSubTick))])
      ensures old(AllExact(chunks)) ==> AllExact(chunks)
      ensures r == Ok(Added) ==> Follows(old(chunks),
        Scheduling(d, ScheduledTick(position, typeId, WrapI64(time + delay), priority, old(nextSubTick))), chunks)
    {
      hide Remaining, QueuesOk, Gains, AllExact;
      if typeId >= Types(d) {
        return Err(InvalidType);
      }
      var sub := nextSubTick;
      nextSubTick := WrapI64(nextSubTick + 1);
      var a := position.Chunk();
      if a !in chunks || !chunks[a].registered {
        return Ok(MissingContainer);
      }
      var tick := ScheduledTick(position, typeId, WrapI64(time + delay), priority, sub);
      r := AdmitCreated(d, tick);
    }

    /** Schedules a created tick in its registered chunk, if it is new there and there is room. */
    method AdmitCreated(d: TickDomain, tick: ScheduledTick) returns (r: Result<ScheduleOutcome, TickError>)
      requires QueuesValid() && Registered(chunks, tick.position.Chunk())
      modifies `chunks, `blockIndex, `fluidIndex
      ensures QueuesValid()
      ensures r == if tick.Id() in old(chunks)[tick.position.Chunk()].Queue(d).identities then Ok(Duplicate)
                   else if old(chunks)[tick.position.Chunk()].Queue(d).Count() == queuedPerChunk then Err(QueueFull) else Ok(Added)
      ensures r != Ok(Added) ==> SameQueues()
      ensures r == Ok(Added) ==> Schedules(old(chunks), chunks, d, tick)
      ensures old(AllExact(chunks)) ==> AllExact(chunks)
    {
      hide ChunksOk, IndexedExcept, Gains, AllExact;
      var after, timeline;
      r, after, timeline := ScheduleCreated(chunks, d, Index(d), queuedPerChunk, tick.position.Chunk(), tick);
      if r == Ok(Added) {
        ScheduleKeepsAllExact(chunks, after, d, tick.position.Chunk(), tick);
        Install(d, after, timeline);
      }
    }

    /** Replaces one domain's queues and index. */
    method Install(d: TickDomain, after: Chunks, timeline: Timeline)
      requires QueuesValid() && ReplacesOnly(chunks, after, d, queuedPerChunk, timeline)
      modifies `chunks, `blockIndex, `fluidIndex
      ensures QueuesValid() && chunks == after
    {
      hide QueuesOk, ReplacesOnly;
      ReplaceKeeps(chunks, after, d, maxChunks, queuedPerChunk, timeline, blockIndex, fluidIndex);
      chunks := after;
      if d == Block {
        blockIndex := timeline;
      } else {
        fluidIndex := timeline;
      }
    }

    /** A positive answer means a queued or still pending tick carries the identity. */
    method HasScheduled(d: TickDomain, position: TickPosition, typeId: u32) returns (r: bool)
      requires Valid()
      ensures r ==> Registered(chunks, position.Chunk()) && Holds(chunks[position.Chunk()].Queue(d), Identity(position, typeId))
      ensures Registered(chunks, position.Chunk()) && ExactQueue(chunks[position.Chunk()].Queue(d)) ==>
        (r <==> Holds(chunks[position.Chunk()].Queue(d), Identity(position, typeId)))
      ensures Registered(chunks, position.Chunk()) ==>
        (r <==> Identity(position, typeId) in chunks[position.Chunk()].Queue(d).identities)
      ensures AllExact(chunks) ==>
        (r <==> Registered(chunks, position.Chunk()) && Holds(chunks[position.Chunk()].Queue(d), Identity(position, typeId)))
    {
      var a := position.Chunk();
      var id := Identity(position, typeId);
      if a !in chunks || !chunks[a].registered {
        return false;
      }
      r := id in chunks[a].Queue(d).identities;
      assert QueueOk(a, chunks[a].Queue(d), queuedPerChunk);
      if ExactQueue(chunks[a].Queue(d)) && Holds(chunks[a].Queue(d), id) {
        ExactHolds(chunks[a].Queue(d), id);
      }
    }

    // ----- phases -----

    /** Takes the due ticks of one domain off its queues. */
    method CollectQueues(d: TickDomain, time: i64, max: nat) returns (p: Progress)
      requires QueuesValid()
      modifies `chunks, `blockIndex, `fluidIndex
      ensures QueuesValid() && p.remaining == multiset(Ids(p.selected)) && |p.selected| <= max
      ensures Collects(old(chunks), chunks, p.selected, d, time, max, p)
      ensures old(AllExact(chunks)) ==> AllExact(chunks)
      ensures Follows(old(chunks), Collecting(d, time, max, p.selected, p), chunks)
      ensures |p.selected| == max || NoneDue(chunks, d, time)
      ensures forall t :: t in p.selected ==> TakenDue(old(chunks), d, time, t)
    {
      hide NoneDue, TakenDue, ChunksOk, IndexedExcept, ReplacesOnly, Greedy, Due, Ids, AllExact;
      var timeline;
      p, timeline := CollectPhase(chunks, d, time, max, queuedPerChunk, Index(d));
      CollectKeepsAllExact(chunks, p.chunks, p.selected, d, time, max, p);
      Install(d, p.chunks, timeline);
    }

    /** Starts a phase: a greedy run over the due heads, up to the cap. */
    method BeginPhase(d: TickDomain, time: i64, max: nat) returns (r: Result<nat, TickError>, ghost run: Progress)
      requires Valid()
      modifies `chunks, `blockIndex, `fluidIndex, `selected, `cursor, `active, `remaining, `selectedIds, `stale
      ensures Valid()
      ensures old(active) != None ==> r == Err(PhaseActive)
      ensures old(active) == None && max > selectedPerPhase ==> r == Err(PhaseLimit)
      ensures r.Err? ==> SameQueues() && SamePhase() && (old(active) != None || max > selectedPerPhase)
      ensures r.Ok? ==>
        && r.value == |selected| && active == Some(d) && cursor == 0 && selectedIds == {} && stale == {}
        && Collects(old(chunks), chunks, selected, d, time, max, run)
      ensures old(AllExact(chunks)) ==> AllExact(chunks)
      ensures r.Ok? ==> Follows(old(chunks), Collecting(d, time, max, selected, run), chunks)
      ensures r.Ok? && r.value < max ==> NoneDue(chunks, d, time)
      ensures r.Ok? ==> forall t :: t in selected ==> TakenDue(old(chunks), d, time, t)
    {
      run := Progress(chunks, [], multiset{}, [chunks], []);
      hide NoneDue, TakenDue, Remaining, QueuesOk, Collects, Ids, AllExact, Follows;
      if active != None {
        return Err(PhaseActive), run;
      }
      if max > selectedPerPhase {
        return Err(PhaseLimit), run;
      }
      var p := CollectQueues(d, time, max);
      PhaseStarts(p.selected, p.remaining);
      active, selected, remaining, cursor, stale := Some(d), p.selected, p.remaining, 0, {};
      return Ok(|selected|), p;
    }

    /**
     Yes for exactly the remaining identities when first asked. Later, stale identities are still
     answered yes, and one that remains is denied only after another tick of it was returned.
     */
    method WillTickThisPhase(d: TickDomain, position: TickPosition, typeId: u32) returns (r: bool)
      requires Valid()
      modifies `selectedIds
      ensures Valid()
      ensures active != Some(d) ==> !r
      ensures active == Some(d) && (old(selectedIds) == {} || (stale == {} && TickCopy.DistinctIds(selected))) ==>
        (r <==> Identity(position, typeId) in Ids(selected[cursor..]))
      ensures r ==> Identity(position, typeId) in Ids(selected[cursor..]) || Identity(position, typeId) in stale
      ensures active == Some(d) && Identity(position, typeId) in stale ==> r
      ensures active == Some(d) && Identity(position, typeId) in Ids(selected[cursor..]) && !r ==>
        Identity(position, typeId) in Ids(selected[..cursor])
      ensures active == Some(d) ==> selectedIds != {} || cursor == |selected|
      ensures active == Some(d) && r ==> Identity(position, typeId) in selectedIds
    {
      hide QueuesOk, Ids;
      if active != Some(d) {
        return false;
      }
      InRemaining(selected, cursor, remaining);
      if selectedIds == {} && cursor < |selected| {
        var ids := set id | id in remaining;
        BuildObserves(selected[..cursor], remaining, ids);
        selectedIds := ids;
      }
      r := Identity(position, typeId) in selectedIds;
      OnceSelected(selected, cursor, Identity(position, typeId));
    }

    /** Moves the cursor over one selected tick. */
    method TakeNext() returns (tick: ScheduledTick)
      requires Valid() && active != None && cursor < |selected|
      modifies `cursor, `remaining, `selectedIds
      ensures Valid() && tick == selected[old(cursor)] && cursor == old(cursor) + 1
    {
      hide *;
      IsRunning();
      tick := selected[cursor];
      NextKeepsPhase(selected, cursor, remaining, selectedIds, stale);
      cursor, remaining, selectedIds := cursor + 1, OneLess(remaining, tick.Id()), selectedIds - {tick.Id()};
      IsValid();
    }

    lemma IsRunning()
      requires Valid()
      ensures QueuesValid() && |selected| <= selectedPerPhase && Remaining(selected, cursor, remaining, selectedIds, stale)
    {
      hide QueuesValid, Remaining;
    }

    lemma IsValid()
      requires QueuesValid() && |selected| <= selectedPerPhase && active != None
      requires Remaining(selected, cursor, remaining, selectedIds, stale)
      ensures Valid()
    {
      hide QueuesValid, Remaining;
    }

    /** Returns the selected ticks in order, one by one, then nothing. */
    method NextDue() returns (r: Result<Option<ScheduledTick>, TickError>)
      requires Valid()
      modifies `cursor, `remaining, `selectedIds
      ensures Valid()
      ensures r == if active == None then Err(NoActivePhase)
                   else if old(cursor) == |selected| then Ok(None) else Ok(Some(selected[old(cursor)]))
      ensures cursor == old(cursor) + if r.Ok? && r.value.Some? then 1 else 0
      ensures !(r.Ok? && r.value.Some?) ==> SamePhase()
    {
      hide Valid, Ids;
      if active == None {
        return Err(NoActivePhase);
      }
      CursorIsInside();
      if cursor >= |selected| {
        return Ok(None);
      }
      var tick := TakeNext();
      r := Ok(Some(tick));
    }

    lemma CursorIsInside()
      requires Valid()
      ensures cursor <= |selected|
    {
    }

    /** A phase ends only when every selected tick was returned. */
    method FinishPhase() returns (r: Result<(), TickError>)
      requires Valid()
      modifies `cursor, `remaining, `selectedIds, `selected, `active, `stale
      ensures Valid()
      ensures r == if old(active) == None then Err(NoActivePhase)
                   else if old(cursor) != |old(selected)| then Err(UnconsumedTicks) else Ok(())
      ensures r.Err? ==> SamePhase()
      ensures r.Ok? ==> active == None && selected == []
    {
      hide QueuesOk;
      if active == None {
        return Err(NoActivePhase);
      }
      if cursor != |selected| {
        return Err(UnconsumedTicks);
      }
      selected, selectedIds, stale, remaining, cursor, active := [], {}, {}, multiset{}, 0, None;
      r := Ok(());
    }

    // ----- areas -----

    /** Clears an area of one domain's queues. */
    method ClearQueues(d: TickDomain, bounds: TickBounds) returns (removed: nat)
      requires QueuesValid()
      modifies `chunks, `blockIndex, `fluidIndex
      ensures QueuesValid() && AreaCleared(old(chunks), chunks, d, bounds)
      ensures removed + LiveCount(chunks, d) == LiveCount(old(chunks), d)
      ensures old(AllExact(chunks)) ==> AllExact(chunks)
      ensures Follows(old(chunks), Clearing(d, bounds), chunks)
    {
      hide ChunksOk, IndexedExcept, ReplacesOnly, ChunkCleared, LiveCount, AllExact;
      var after, timeline;
      after, timeline, removed := ClearChunks(chunks, d, Index(d), queuedPerChunk, bounds);
      ClearReplaces(chunks, after, d, queuedPerChunk, timeline, bounds);
      ClearKeepsAllExact(chunks, after, d, bounds);
      Install(d, after, timeline);
    }

    /** Removes exactly the area's live ticks and selected ticks; the cursor keeps its place. */
    method ClearArea(d: TickDomain, bounds: TickBounds) returns (r: Result<nat, TickError>)
      requires Valid()
      modifies `chunks, `blockIndex, `fluidIndex, `selected, `cursor, `remaining, `stale
      ensures Valid()
      ensures !bounds.Valid() ==> r == Err(InvalidBounds) && SameQueues() && SamePhase()
      ensures bounds.Valid() ==>
        && r.Ok?
        && AreaCleared(old(chunks), chunks, d, bounds)
        && r.value + LiveCount(chunks, d) + |selected| == LiveCount(old(chunks), d) + |old(selected)|
      ensures bounds.Valid() && active == Some(d) ==>
        && selected[..cursor] == Outside(old(selected)[..old(cursor)], bounds)
        && selected[cursor..] == Outside(old(selected)[old(cursor)..], bounds)
        && stale == old(stale) + set id | id in selectedIds && bounds.Contains(id.position)
      ensures active == old(active) && selectedIds == old(selectedIds)
      ensures active != Some(d) ==> SamePhase()
      ensures old(AllExact(chunks)) ==> AllExact(chunks)
      ensures r.Ok? ==> Follows(old(chunks), Clearing(d, bounds), chunks)
    {
      hide Remaining, QueuesOk, AreaCleared, LiveCount, Outside, Ids, AllExact, Follows;
      CursorInside(selected, cursor, remaining, selectedIds, stale);
      if !bounds.Valid() {
        return Err(InvalidBounds);
      }
      var removed := ClearQueues(d, bounds);
      if active == Some(d) {
        var kept, position, left := ClearSelected(selected, cursor, remaining, bounds);
        ClearKeepsPhase(selected, cursor, remaining, kept, position, left, selectedIds, stale, bounds);
        removed := removed + |selected| - |kept|;
        selected, cursor, remaining := kept, position, left;
        stale := Staled(stale, selectedIds, bounds);
      }
      r := Ok(removed);
    }

    /** Copies an area's ticks as one batch: it is scheduled whole, or nothing changes. */
    method CopyArea(d: TickDomain, bounds: TickBounds, offset: TickPosition)
        returns (r: Result<TickCopy.CopyOutcome, TickError>, ghost snapshot: seq<ScheduledTick>,
                 ghost order: seq<ChunkAddress>, ghost min: i64, ghost max: i64)
      requires Valid()
      modifies `chunks, `blockIndex, `fluidIndex
      ensures Valid()
      ensures !bounds.Valid() ==> r == Err(InvalidBounds) && SameQueues()
      ensures r.Err? ==> chunks == old(chunks)
      ensures bounds.Valid() ==>
        && TickCopy.Ascending(order) && (forall a :: a in order <==> a in old(chunks))
        && snapshot == TickCopy.Inside(if active == Some(d) then selected else [], bounds)
                       + TickCopy.Gathered(old(chunks), d, bounds, order)
        && TickCopy.Copies(old(chunks), chunks, d, Types(d), queuedPerChunk, snapshot, offset, min, max, r)
      ensures old(AllExact(chunks)) ==> AllExact(chunks)
      ensures bounds.Valid() ==> Follows(old(chunks), Copying(d, Types(d), queuedPerChunk, snapshot, offset, min, max, r), chunks)
    {
      hide Remaining, ChunksOk, IndexedExcept, ReplacesOnly, AllExact, Follows, TickCopy.Inside, TickCopy.Gathered, TickCopy.Copies, TickCopy.Ascending;
      snapshot, order, min, max := [], [], 0, 0;
      if !bounds.Valid() {
        return Err(InvalidBounds), snapshot, order, min, max;
      }
      var picked := if active == Some(d) then selected else [];
      var found, visited := TickCopy.GatherSnapshot(chunks, picked, d, bounds, queuedPerChunk);
      snapshot, order := found, visited;
      var after, timeline;
      r, after, timeline, min, max := TickCopy.CommitCopy(chunks, d, Index(d), Types(d), queuedPerChunk, found, offset);
      CopyingFollows(chunks, after, d, Types(d), queuedPerChunk, snapshot, offset, min, max, r);
      CopyKeepsAllExact(chunks, after, d, Types(d), queuedPerChunk, snapshot, offset, min, max, r);
      Install(d, after, timeline);
    }
  }

  function HeadUpdated(timeline: Timeline, a: ChunkAddress, heap: Heap): Timeline {
    if heap == [] then timeline else timeline[a := heap[0].triggerTick]
  }

  lemma NotIndexed(chunks: Chunks, d: TickDomain, timeline: Timeline, a: ChunkAddress)
    requires Indexed(chunks, d, timeline) && !Registered(chunks, a)
    ensures a !in timeline && timeline - {a} == timeline
    ensures forall heap :: HeadUpdated(timeline, a, heap) == Reindexed(timeline, a, heap)
  {
    assert !Live(chunks, d, a);
    assert timeline - {a} == timeline;
  }

  lemma EmptyQueueOk(a: ChunkAddress, limit: nat)
    ensures QueueOk(a, NO_QUEUE, limit)
  {
  }

  lemma SizeOfUpdate(chunks: Chunks, a: ChunkAddress, c: ChunkQueues)
    ensures |chunks[a := c]| == |chunks| + if a in chunks then 0 else 1
  {
    assert chunks[a := c].Keys == chunks.Keys + {a};
  }

  lemma SameKeysSameSize(before: Chunks, after: Chunks)
    requires before.Keys == after.Keys
    ensures |before| == |after|
  {
    assert |before| == |before.Keys| && |after| == |after.Keys|;
  }

  lemma {:induction false} SubsetSmaller(a: set<ChunkAddress>, b: set<ChunkAddress>)
    requires a <= b
    ensures |a| <= |b|
  {
    assert b == a + (b - a);
  }

  /** A collection touches only its own domain's queues. */
  lemma {:induction false} CollectedOnly(states: seq<Chunks>, picks: seq<ChunkAddress>, selected: seq<ScheduledTick>, d: TickDomain, time: i64, limit: nat)
    requires Greedy(states, picks, selected, d, time)
    ensures states[|picks|].Keys == states[0].Keys
    ensures forall a :: a in states[0] ==> states[|picks|][a] == states[0][a].With(d, states[|picks|][a].Queue(d))
    decreases |picks|
  {
    if |picks| > 0 {
      var n := |picks| - 1;
      GreedyPrefix(states, picks, selected, d, time);
      CollectedOnly(states[..n + 1], picks[..n], selected[..n], d, time, limit);
      assert Step(states[n], states[n + 1], picks[n], selected[n], d, time);
    }
  }

  ghost function Staled(stale: set<Identity>, ids: set<Identity>, bounds: TickBounds): set<Identity> {
    stale + set id | id in ids && bounds.Contains(id.position)
  }

  lemma ClearKeepsPhase(selected: seq<ScheduledTick>, cursor: nat, remaining: multiset<Identity>,
                        kept: seq<ScheduledTick>, position: nat, left: multiset<Identity>,
                        ids: set<Identity>, stale: set<Identity>, bounds: TickBounds)
    requires Remaining(selected, cursor, remaining, ids, stale) && position <= |kept|
    requires kept[..position] == Outside(selected[..cursor], bounds) && kept[position..] == Outside(selected[cursor..], bounds)
    requires left == multiset(Ids(kept[position..]))
    ensures Remaining(kept, position, left, ids, Staled(stale, ids, bounds))
  {
    hide Outside, Ids;
    forall id ensures id in left <==> id in remaining && !bounds.Contains(id.position) {
      OutsideIdCounts(selected[cursor..], bounds, id);
    }
    forall id ensures id in Ids(kept[..position]) <==> id in Ids(selected[..cursor]) && !bounds.Contains(id.position) {
      OutsideIdCounts(selected[..cursor], bounds, id);
      assert id in Ids(kept[..position]) <==> id in multiset(Ids(kept[..position]));
      assert id in Ids(selected[..cursor]) <==> id in multiset(Ids(selected[..cursor]));
    }
  }

  lemma PhaseStarts(selected: seq<ScheduledTick>, remaining: multiset<Identity>)
    requires remaining == multiset(Ids(selected))
    ensures Remaining(selected, 0, remaining, {}, {})
  {
    assert selected[0..] == selected;
  }

  lemma CursorInside(selected: seq<ScheduledTick>, cursor: nat, remaining: multiset<Identity>, ids: set<Identity>, stale: set<Identity>)
    requires Remaining(selected, cursor, remaining, ids, stale)
    ensures cursor <= |selected| && remaining == multiset(Ids(selected[cursor..]))
  {
  }

  lemma InRemaining(selected: seq<ScheduledTick>, cursor: nat, remaining: multiset<Identity>)
    requires cursor <= |selected| && remaining == multiset(Ids(selected[cursor..]))
    ensures forall id :: id in remaining <==> id in Ids(selected[cursor..])
    ensures if cursor < |selected| then selected[cursor].Id() in remaining else forall id :: id !in remaining
  {
    if cursor < |selected| {
      assert Ids(selected[cursor..])[0] == selected[cursor].Id();
    }
  }

  lemma BuildObserves(returned: seq<ScheduledTick>, remaining: multiset<Identity>, ids: set<Identity>)
    requires ids == set id | id in remaining
    ensures Observed(returned, remaining, ids, {})
  {
  }

  /** Where no identity repeats, one that was returned does not remain. */
  lemma OnceSelected(selected: seq<ScheduledTick>, cursor: nat, id: Identity)
    requires cursor <= |selected|
    ensures TickCopy.DistinctIds(selected) && id in Ids(selected[cursor..]) ==> id !in Ids(selected[..cursor])
  {
    var after, before := Ids(selected[cursor..]), Ids(selected[..cursor]);
    if id in after && id in before {
      var i, j :| 0 <= i < |before| && before[i] == id && 0 <= j < |after| && after[j] == id;
      assert selected[i].Id() == selected[cursor + j].Id();
    }
  }

  function OneLess(counts: multiset<Identity>, id: Identity): multiset<Identity> {
    counts - multiset{id}
  }

  lemma NextKeepsPhase(selected: seq<ScheduledTick>, cursor: nat, remaining: multiset<Identity>, ids: set<Identity>, stale: set<Identity>)
    requires cursor < |selected| && Remaining(selected, cursor, remaining, ids, stale)
    ensures var id := selected[cursor].Id();
            Remaining(selected, cursor + 1, OneLess(remaining, id), ids - {id}, stale)
  {
    var id := selected[cursor].Id();
    assert Ids(selected[cursor..]) == [id] + Ids(selected[cursor + 1..]);
    assert selected[..cursor + 1] == selected[..cursor] + [selected[cursor]];
    IdsAppend(selected[..cursor], selected[cursor]);
    assert forall x :: x != id ==> OneLess(remaining, id)[x] == remaining[x];
    assert forall x :: x in Ids(selected[..cursor]) + [id] <==> x in Ids(selected[..cursor]) || x == id;
  }

  // ----- a stale answer -----

  /**
   Asking about a tick that remains, clearing its place and asking again: the second answer is
   still yes, although nothing of that identity remains.
   */
  method AskClearAsk(owner: ScheduledTickOwner, d: TickDomain, bounds: TickBounds, position: TickPosition, typeId: u32)
      returns (first: bool, second: bool)
    requires owner.Valid() && owner.active == Some(d) && owner.selectedIds == {} && bounds.Valid() && bounds.Contains(position)
    requires Identity(position, typeId) in Ids(owner.selected[owner.cursor..])
    modifies owner
    ensures owner.Valid() && first && second && Identity(position, typeId) !in Ids(owner.selected[owner.cursor..])
  {
    hide Remaining, ScheduledTickOwner.Valid, Ids, Outside;
    owner.CursorIsInside();
    first := owner.WillTickThisPhase(d, position, typeId);
    ghost var rest := owner.selected[owner.cursor..];
    var r := owner.ClearArea(d, bounds);
    owner.CursorIsInside();
    OutsideIdCounts(rest, bounds, Identity(position, typeId));
    second := owner.WillTickThisPhase(d, position, typeId);
    assert Identity(position, typeId) !in multiset(Ids(owner.selected[owner.cursor..]));
  }
}
