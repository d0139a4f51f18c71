/**
 State of the section cache: resident sources with revisions, requested jobs with their
 snapshots, the dirty queue and the cache order; and what must hold of them together.
 */
module PreparationState {
  import opened World
  import opened Paletted
  import opened SectionCodec
  import opened Sums
  import opened Filters

  datatype SectionAddress = SectionAddress(chunk: ChunkAddress, y: i32)

  /** Identity of one revision of one section in one world epoch. */
  datatype SectionKey = SectionKey(epoch: u64, address: SectionAddress, revision: u64)

  datatype Registries = Registries(blocks: Registry, biomes: Registry)

  datatype Source = Source(counts: SectionCounts, blocks: PalettedContainer, biomes: PalettedContainer) {
    function HeapBytes(): nat {
      blocks.HeapBytes() + biomes.HeapBytes()
    }
  }

  /** Dense content of a section. */
  datatype Cells = Cells(blocks: seq<u32>, biomes: seq<u32>)

  datatype JobError = Cancelled | PrepareFailed(error: SectionError) | WorkerPanicked

  type SectionBytes = seq<u8>

  datatype Completion = Completion(key: SectionKey, result: Result<SectionBytes, JobError>)

  datatype Resident = Resident(
    generation: u64, revision: u64, source: Source, wanted: bool, dirty: bool,
    cached: Option<Completion>, failure: Option<JobError>)

  /** A submitted job: its identity, the snapshot it was given, and whether it was cancelled. */
  datatype Requested = Requested(
    address: SectionAddress, generation: u64, key: SectionKey, counts: SectionCounts, cells: Cells, cancelled: bool)

  type Sections = map<SectionAddress, Resident>

  function KeyAt(epoch: u64, a: SectionAddress, s: Resident): SectionKey {
    SectionKey(epoch, a, s.revision)
  }

  // ----- sources -----

  ghost predicate CellsOk(cells: Cells, regs: Registries) {
    && |cells.blocks| == 4096 && AllIn(cells.blocks, regs.blocks)
    && |cells.biomes| == 64 && AllIn(cells.biomes, regs.biomes)
  }

  ghost predicate SourceShows(source: Source, cells: Cells, regs: Registries) {
    && source.counts.Valid()
    && source.blocks.kind == Blocks && source.blocks.registry == regs.blocks && source.blocks.Shows(cells.blocks)
    && source.biomes.kind == Biomes && source.biomes.registry == regs.biomes && source.biomes.Shows(cells.biomes)
  }

  /** What the worker produces for a snapshot. */
  ghost function Encoded(counts: SectionCounts, cells: Cells, regs: Registries): SectionBytes
    requires CellsOk(cells, regs)
  {
    SectionCodec.SectionBytes(counts, cells.blocks, cells.biomes, regs.blocks, regs.biomes)
  }

  /** Every section belongs to a loaded chunk of its generation and shows its world content. */
  ghost predicate SourcesOk(chunks: map<ChunkAddress, u64>, sections: Sections, world: map<SectionAddress, Cells>,
                            regs: Registries, nextRevision: u64)
  {
    && world.Keys == sections.Keys
    && forall a :: a in sections ==>
         && a.chunk in chunks && sections[a].generation == chunks[a.chunk]
         && sections[a].revision <= nextRevision
         && SourceShows(sections[a].source, world[a], regs)
  }

  // ----- source bytes -----

  ghost function HeapOf(sections: Sections): SectionAddress -> nat {
    a => if a in sections then sections[a].source.HeapBytes() else 0
  }

  ghost predicate BytesOk(sections: Sections, bytes: nat, limit: nat) {
    bytes == Sum(sections.Keys, HeapOf(sections)) && bytes <= limit
  }

  /** Replacing one section moves the sum by the difference of its bytes. */
  lemma BytesUpdate(sections: Sections, a: SectionAddress, s: Resident)
    requires a in sections
    ensures Sum(sections[a := s].Keys, HeapOf(sections[a := s])) + sections[a].source.HeapBytes()
            == Sum(sections.Keys, HeapOf(sections)) + s.source.HeapBytes()
  {
    var after := sections[a := s];
    assert after.Keys == sections.Keys;
    SumChange(sections.Keys, HeapOf(sections), HeapOf(after), a);
  }

  lemma BytesInsert(sections: Sections, a: SectionAddress, s: Resident)
    requires a !in sections
    ensures Sum(sections[a := s].Keys, HeapOf(sections[a := s])) == Sum(sections.Keys, HeapOf(sections)) + s.source.HeapBytes()
  {
    var after := sections[a := s];
    assert after.Keys == sections.Keys + {a};
    SumAdd(sections.Keys, HeapOf(after), a);
    SumAgree(sections.Keys, HeapOf(sections), HeapOf(after));
  }

  lemma BytesRemove(sections: Sections, a: SectionAddress)
    requires a in sections
    ensures Sum((sections - {a}).Keys, HeapOf(sections - {a})) + sections[a].source.HeapBytes() == Sum(sections.Keys, HeapOf(sections))
  {
    var after := sections - {a};
    assert after.Keys == sections.Keys - {a};
    SumRemove(sections.Keys, HeapOf(sections), a);
    SumAgree(after.Keys, HeapOf(sections), HeapOf(after));
  }

  lemma BytesPart(sections: Sections, a: SectionAddress)
    requires a in sections
    ensures sections[a].source.HeapBytes() <= Sum(sections.Keys, HeapOf(sections))
  {
    SumPart(sections.Keys, HeapOf(sections), a);
  }

  // ----- queues of addresses -----

  ghost predicate NoRepeats(queue: seq<SectionAddress>) {
    forall i, j :: 0 <= i < j < |queue| ==> queue[i] != queue[j]
  }

  /** Exactly the flagged sections are queued, each once, and only wanted ones. */
  ghost predicate DirtyOk(sections: Sections, dirty: seq<SectionAddress>) {
    && NoRepeats(dirty) && (forall a :: a in dirty <==> a in sections && sections[a].dirty)
    && forall a :: a in dirty ==> sections[a].wanted
  }

  /** Exactly the sections with a completion are in the cache order, each once. */
  ghost predicate OrderOk(sections: Sections, order: seq<SectionAddress>) {
    NoRepeats(order) && forall a :: a in order <==> a in sections && sections[a].cached.Some?
  }

  lemma AppendQueue(queue: seq<SectionAddress>, a: SectionAddress)
    requires NoRepeats(queue) && a !in queue
    ensures NoRepeats(queue + [a])
  {
  }

  function Without(queue: seq<SectionAddress>, a: SectionAddress): seq<SectionAddress> {
    if queue == [] then [] else (if queue[0] == a then [] else [queue[0]]) + Without(queue[1..], a)
  }

  lemma {:induction false} WithoutFacts(queue: seq<SectionAddress>, a: SectionAddress)
    requires NoRepeats(queue)
    ensures NoRepeats(Without(queue, a)) && |Without(queue, a)| <= |queue|
    ensures forall b :: b in Without(queue, a) <==> b in queue && b != a
  {
    if queue != [] {
      WithoutFacts(queue[1..], a);
      assert queue == [queue[0]] + queue[1..];
      assert queue[0] !in queue[1..];
    }
  }

  /** The others keep their order. */
  lemma {:induction false} WithoutKeeps(queue: seq<SectionAddress>, a: SectionAddress)
    ensures Keeps(queue, Without(queue, a), (b: SectionAddress) => b != a)
  {
    hide Keeps;
    var keep := (b: SectionAddress) => b != a;
    if queue == [] {
      KeepsNone(keep);
    } else {
      WithoutKeeps(queue[1..], a);
      KeepsFirst(queue[0], queue[1..], Without(queue[1..], a), keep);
      assert queue == [queue[0]] + queue[1..];
      assert Without(queue, a) == if keep(queue[0]) then [queue[0]] + Without(queue[1..], a) else Without(queue[1..], a);
    }
  }

  lemma {:induction false} WithoutAbsent(queue: seq<SectionAddress>, a: SectionAddress)
    requires a !in queue
    ensures Without(queue, a) == queue
  {
    if queue != [] {
      WithoutAbsent(queue[1..], a);
    }
  }

  function OutsideChunk(queue: seq<SectionAddress>, chunk: ChunkAddress): seq<SectionAddress> {
    if queue == [] then [] else (if queue[0].chunk == chunk then [] else [queue[0]]) + OutsideChunk(queue[1..], chunk)
  }

  lemma {:induction false} OutsideChunkFacts(queue: seq<SectionAddress>, chunk: ChunkAddress)
    requires NoRepeats(queue)
    ensures NoRepeats(OutsideChunk(queue, chunk)) && |OutsideChunk(queue, chunk)| <= |queue|
    ensures forall b :: b in OutsideChunk(queue, chunk) <==> b in queue && b.chunk != chunk
  {
    if queue != [] {
      OutsideChunkFacts(queue[1..], chunk);
      assert queue == [queue[0]] + queue[1..];
      assert queue[0] !in queue[1..];
    }
  }

  lemma {:induction false} OutsideChunkKeeps(queue: seq<SectionAddress>, chunk: ChunkAddress)
    ensures Keeps(queue, OutsideChunk(queue, chunk), (b: SectionAddress) => b.chunk != chunk)
  {
    hide Keeps;
    var keep := (b: SectionAddress) => b.chunk != chunk;
    if queue == [] {
      KeepsNone(keep);
    } else {
      OutsideChunkKeeps(queue[1..], chunk);
      KeepsFirst(queue[0], queue[1..], OutsideChunk(queue[1..], chunk), keep);
      assert queue == [queue[0]] + queue[1..];
      var rest := OutsideChunk(queue[1..], chunk);
      assert OutsideChunk(queue, chunk) == if keep(queue[0]) then [queue[0]] + rest else rest;
    }
  }

  // ----- the cache -----

  /** Whenever a section is cached, its key is the current key and its bytes encode the current source. */
  ghost predicate CacheOk(epoch: u64, sections: Sections, world: map<SectionAddress, Cells>, regs: Registries) {
    forall a :: a in sections && sections[a].cached.Some? ==> CachedNow(epoch, a, sections[a], world, regs)
  }

  ghost predicate CachedNow(epoch: u64, a: SectionAddress, s: Resident, world: map<SectionAddress, Cells>, regs: Registries) {
    && s.cached.Some? && s.cached.value.key == KeyAt(epoch, a, s)
    && a in world && CellsOk(world[a], regs)
    && s.cached.value.result == Ok(Encoded(s.source.counts, world[a], regs))
  }

  // ----- requested jobs -----

  predicate IsCurrent(epoch: u64, sections: Sections, p: Requested) {
    p.address in sections && p.key == KeyAt(epoch, p.address, sections[p.address])
  }

  /**
   A job carries a key of this epoch, no newer than the newest revision. If its key is
   current it was not cancelled, its section is wanted and clean, and its snapshot is the
   current source; otherwise it was cancelled.
   */
  ghost predicate JobOk(epoch: u64, sections: Sections, world: map<SectionAddress, Cells>, regs: Registries, nextRevision: u64, p: Requested) {
    && p.key.address == p.address && p.key.epoch == epoch && p.key.revision <= nextRevision
    && p.counts.Valid() && CellsOk(p.cells, regs)
    && (IsCurrent(epoch, sections, p) ==>
          && !p.cancelled && sections[p.address].wanted && !sections[p.address].dirty
          && p.generation == sections[p.address].generation
          && p.counts == sections[p.address].source.counts && p.address in world && p.cells == world[p.address])
    && (!IsCurrent(epoch, sections, p) ==> p.cancelled)
  }

  /** No two jobs in flight carry the same key. */
  ghost predicate DistinctKeys(pending: seq<Requested>) {
    forall i, j :: 0 <= i < j < |pending| ==> pending[i].key != pending[j].key
  }

  ghost predicate JobsOk(epoch: u64, sections: Sections, world: map<SectionAddress, Cells>, regs: Registries, nextRevision: u64, pending: seq<Requested>) {
    && DistinctKeys(pending)
    && forall i :: 0 <= i < |pending| ==> JobOk(epoch, sections, world, regs, nextRevision, pending[i])
  }

  /** A section whose key, source and demand stay keeps every job as it was. */
  lemma JobsKept(epoch: u64, sections: Sections, world: map<SectionAddress, Cells>, regs: Registries, nextRevision: u64,
                 pending: seq<Requested>, a: SectionAddress, s: Resident)
    requires JobsOk(epoch, sections, world, regs, nextRevision, pending) && a in sections
    requires s.revision == sections[a].revision && s.generation == sections[a].generation && s.source == sections[a].source
    requires (sections[a].wanted ==> s.wanted) && (s.dirty ==> sections[a].dirty)
    ensures JobsOk(epoch, sections[a := s], world, regs, nextRevision, pending)
  {
    forall i | 0 <= i < |pending| ensures JobOk(epoch, sections[a := s], world, regs, nextRevision, pending[i]) {
      assert JobOk(epoch, sections, world, regs, nextRevision, pending[i]);
    }
  }

  /** Marking a section dirty is sound when none of its jobs is current. */
  lemma JobsDirtied(epoch: u64, sections: Sections, world: map<SectionAddress, Cells>, regs: Registries, nextRevision: u64,
                    pending: seq<Requested>, a: SectionAddress, s: Resident)
    requires JobsOk(epoch, sections, world, regs, nextRevision, pending) && a in sections
    requires s.revision == sections[a].revision
    requires forall i :: 0 <= i < |pending| ==> pending[i].key != KeyAt(epoch, a, s)
    ensures JobsOk(epoch, sections[a := s], world, regs, nextRevision, pending)
  {
    forall i | 0 <= i < |pending| ensures JobOk(epoch, sections[a := s], world, regs, nextRevision, pending[i]) {
      assert JobOk(epoch, sections, world, regs, nextRevision, pending[i]);
    }
  }

  function CancelAt(pending: seq<Requested>, a: SectionAddress): (r: seq<Requested>)
    ensures |r| == |pending|
  {
    seq(|pending|, i requires 0 <= i < |pending| => if pending[i].address == a then pending[i].(cancelled := true) else pending[i])
  }

  function CancelIn(pending: seq<Requested>, chunk: ChunkAddress): (r: seq<Requested>)
    ensures |r| == |pending|
  {
    seq(|pending|, i requires 0 <= i < |pending| => if pending[i].address.chunk == chunk then pending[i].(cancelled := true) else pending[i])
  }

  /** A fresh revision makes every earlier job of the section stale; all of them are, or now become, cancelled. */
  lemma JobsOutdated(epoch: u64, sections: Sections, world: map<SectionAddress, Cells>, regs: Registries, nextRevision: u64,
                     pending: seq<Requested>, a: SectionAddress, s: Resident, cells: Cells, cancel: bool)
    requires JobsOk(epoch, sections, world, regs, nextRevision, pending) && a in sections
    requires nextRevision < TWO_64 - 1 && s.revision == nextRevision + 1
    requires !cancel ==> !sections[a].wanted || sections[a].dirty
    ensures JobsOk(epoch, sections[a := s], world[a := cells], regs, nextRevision + 1, if cancel then CancelAt(pending, a) else pending)
  {
    var after := if cancel then CancelAt(pending, a) else pending;
    forall i | 0 <= i < |after| ensures JobOk(epoch, sections[a := s], world[a := cells], regs, nextRevision + 1, after[i]) {
      assert JobOk(epoch, sections, world, regs, nextRevision, pending[i]);
      assert !(after[i].address == a && IsCurrent(epoch, sections[a := s], after[i]));
    }
  }

  /** A newly loaded section has a fresh revision, so no old job is current for it. */
  lemma JobsUnaffected(epoch: u64, sections: Sections, world: map<SectionAddress, Cells>, regs: Registries, nextRevision: u64,
                       pending: seq<Requested>, a: SectionAddress, s: Resident, cells: Cells)
    requires JobsOk(epoch, sections, world, regs, nextRevision, pending) && a !in sections
    requires nextRevision < TWO_64 - 1 && s.revision == nextRevision + 1
    ensures JobsOk(epoch, sections[a := s], world[a := cells], regs, nextRevision + 1, pending)
  {
    forall i | 0 <= i < |pending| ensures JobOk(epoch, sections[a := s], world[a := cells], regs, nextRevision + 1, pending[i]) {
      assert JobOk(epoch, sections, world, regs, nextRevision, pending[i]);
    }
  }

  /** Unloading a chunk cancels its jobs and touches no other. */
  lemma JobsUnloaded(epoch: u64, sections: Sections, world: map<SectionAddress, Cells>, after: Sections, left: map<SectionAddress, Cells>,
                     regs: Registries, nextRevision: u64, pending: seq<Requested>, chunk: ChunkAddress)
    requires JobsOk(epoch, sections, world, regs, nextRevision, pending)
    requires forall a :: a in after <==> a in sections && a.chunk != chunk
    requires forall a :: a in after ==> after[a] == sections[a]
    requires forall a :: a in world && a.chunk != chunk ==> a in left && left[a] == world[a]
    ensures JobsOk(epoch, after, left, regs, nextRevision, CancelIn(pending, chunk))
  {
    var cancelled := CancelIn(pending, chunk);
    forall i | 0 <= i < |cancelled| ensures JobOk(epoch, after, left, regs, nextRevision, cancelled[i]) {
      assert JobOk(epoch, sections, world, regs, nextRevision, pending[i]);
    }
  }

  /** A current job leaves its section clean, so no job in flight has a dirty section's key. */
  lemma DirtyHasNoJob(epoch: u64, sections: Sections, world: map<SectionAddress, Cells>, regs: Registries, nextRevision: u64,
                      pending: seq<Requested>, a: SectionAddress)
    requires JobsOk(epoch, sections, world, regs, nextRevision, pending) && a in sections && sections[a].dirty
    ensures forall i :: 0 <= i < |pending| ==> pending[i].key != KeyAt(epoch, a, sections[a])
  {
    forall i | 0 <= i < |pending| ensures pending[i].key != KeyAt(epoch, a, sections[a]) {
      assert JobOk(epoch, sections, world, regs, nextRevision, pending[i]);
    }
  }

  /** Submitting a clean wanted section's current source adds a current job. */
  lemma JobsSubmitted(epoch: u64, sections: Sections, world: map<SectionAddress, Cells>, regs: Registries, nextRevision: u64,
                      pending: seq<Requested>, p: Requested)
    requires JobsOk(epoch, sections, world, regs, nextRevision, pending) && JobOk(epoch, sections, world, regs, nextRevision, p)
    requires forall i :: 0 <= i < |pending| ==> pending[i].key != p.key
    ensures JobsOk(epoch, sections, world, regs, nextRevision, pending + [p])
  {
    var after := pending + [p];
    forall i | 0 <= i < |after| ensures JobOk(epoch, sections, world, regs, nextRevision, after[i]) {
      if i < |pending| {
        assert JobOk(epoch, sections, world, regs, nextRevision, pending[i]);
      }
    }
  }

  /** A taken job is swapped with the last one and dropped. */
  function SwapRemoved(pending: seq<Requested>, i: nat): seq<Requested>
    requires i < |pending|
  {
    if i == |pending| - 1 then pending[..i] else pending[..|pending| - 1][i := pending[|pending| - 1]]
  }

  lemma JobsTaken(epoch: u64, sections: Sections, world: map<SectionAddress, Cells>, regs: Registries, nextRevision: u64,
                  pending: seq<Requested>, i: nat)
    requires JobsOk(epoch, sections, world, regs, nextRevision, pending) && i < |pending|
    ensures JobsOk(epoch, sections, world, regs, nextRevision, SwapRemoved(pending, i))
    ensures |SwapRemoved(pending, i)| == |pending| - 1
  {
    var after := SwapRemoved(pending, i);
    forall j | 0 <= j < |after| ensures JobOk(epoch, sections, world, regs, nextRevision, after[j]) {
      assert JobOk(epoch, sections, world, regs, nextRevision, pending[if j == i then |pending| - 1 else j]);
    }
  }

  // ----- one section replaced -----

  lemma SourcesUpdate(chunks: map<ChunkAddress, u64>, sections: Sections, world: map<SectionAddress, Cells>, regs: Registries,
                      before: u64, after: u64, a: SectionAddress, s: Resident, cells: Cells)
    requires SourcesOk(chunks, sections, world, regs, before) && before <= after
    requires a.chunk in chunks && s.generation == chunks[a.chunk] && s.revision <= after && SourceShows(s.source, cells, regs)
    ensures SourcesOk(chunks, sections[a := s], world[a := cells], regs, after)
  {
    hide SourceShows;
  }

  lemma CacheUpdate(epoch: u64, sections: Sections, world: map<SectionAddress, Cells>, regs: Registries,
                    a: SectionAddress, s: Resident, cells: Cells)
    requires CacheOk(epoch, sections, world, regs)
    requires s.cached.Some? ==> CachedNow(epoch, a, s, world[a := cells], regs)
    ensures CacheOk(epoch, sections[a := s], world[a := cells], regs)
  {
    var after, now := sections[a := s], world[a := cells];
    forall b | b in after && after[b].cached.Some? ensures CachedNow(epoch, b, after[b], now, regs) {
      if b != a {
        assert CachedNow(epoch, b, sections[b], world, regs);
      }
    }
  }

  /** Only the identity, the source and the completion of a section matter to its cache entry. */
  lemma CacheKept(epoch: u64, sections: Sections, world: map<SectionAddress, Cells>, regs: Registries, a: SectionAddress, s: Resident)
    requires CacheOk(epoch, sections, world, regs) && a in sections && a in world
    requires s.cached == None || (s.cached == sections[a].cached && s.revision == sections[a].revision && s.source == sections[a].source)
    ensures CacheOk(epoch, sections[a := s], world, regs)
  {
    if s.cached.Some? {
      assert CachedNow(epoch, a, sections[a], world, regs);
    }
    assert world[a := world[a]] == world;
    CacheUpdate(epoch, sections, world, regs, a, s, world[a]);
  }

  lemma DirtyKept(sections: Sections, dirty: seq<SectionAddress>, a: SectionAddress, s: Resident)
    requires DirtyOk(sections, dirty)
    requires s.dirty == (a in sections && sections[a].dirty) && (s.dirty ==> s.wanted)
    ensures DirtyOk(sections[a := s], dirty)
  {
  }

  lemma DirtyMarked(sections: Sections, dirty: seq<SectionAddress>, a: SectionAddress, s: Resident)
    requires DirtyOk(sections, dirty) && a in sections && !sections[a].dirty && s.dirty && s.wanted
    ensures DirtyOk(sections[a := s], dirty + [a])
  {
    AppendQueue(dirty, a);
  }

  lemma DirtySubmitted(sections: Sections, dirty: seq<SectionAddress>, s: Resident)
    requires DirtyOk(sections, dirty) && dirty != [] && !s.dirty
    ensures DirtyOk(sections[dirty[0] := s], dirty[1..])
  {
    assert dirty == [dirty[0]] + dirty[1..];
    assert dirty[0] !in dirty[1..];
  }

  lemma OrderKept(sections: Sections, order: seq<SectionAddress>, a: SectionAddress, s: Resident)
    requires OrderOk(sections, order) && s.cached.Some? == (a in sections && sections[a].cached.Some?)
    ensures OrderOk(sections[a := s], order)
  {
  }

  lemma OrderDropped(sections: Sections, order: seq<SectionAddress>, a: SectionAddress, s: Resident)
    requires OrderOk(sections, order) && a in sections && s.cached == None
    ensures OrderOk(sections[a := s], Without(order, a)) && |Without(order, a)| <= |order|
    ensures sections[a].cached == None ==> OrderOk(sections[a := s], order)
  {
    WithoutFacts(order, a);
  }

  lemma OrderEvicted(sections: Sections, order: seq<SectionAddress>, s: Resident)
    requires OrderOk(sections, order) && order != [] && s.cached == None
    ensures OrderOk(sections[order[0] := s], order[1..])
  {
    assert order == [order[0]] + order[1..];
    assert order[0] !in order[1..];
  }

  lemma OrderAppended(sections: Sections, order: seq<SectionAddress>, a: SectionAddress, s: Resident)
    requires OrderOk(sections, order) && a in sections && sections[a].cached == None && s.cached.Some?
    ensures OrderOk(sections[a := s], order + [a])
  {
    AppendQueue(order, a);
  }
}
