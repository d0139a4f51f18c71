/**
 Owner of loaded sections and of their prepared network bytes. Edits make revisions,
 requests make jobs, completions arrive late and in any order; a completion is published
 only while it still describes the current source.
 */
module Preparation {
  import opened Filters
  import opened World
  import opened Paletted
  import opened SectionCodec
  import opened PreparationState
  import opened Sums

  datatype PreparationError =
    | ChunkLimit | SectionLimit | ChunkAlreadyLoaded | SectionAlreadyLoaded | MissingChunk | MissingSection
    | IdentityExhausted | InvalidLimits | InSection(error: SectionError)

  datatype AdmissionError = PoolClosed | JobLimit | ByteLimit | PoolAllocationFailed | InvalidInput

  /** What polling a job's completion slot may find, whenever it is asked. */
  datatype Poll = NotYet | Finished | Panicked

  /** Input cells and output bytes of one job. */
  const SECTION_JOB_BUFFER_BYTES: nat := (4096 + 64) * 4 + MAX_SECTION_NETWORK_BYTES

  datatype Limits = Limits(maxChunks: nat, maxSections: nat, maxPending: nat, maxCached: nat, sourceBytes: nat)

  datatype Report = Report(submitted: nat, published: nat, discarded: nat, failed: nat, evicted: nat, backpressure: Option<AdmissionError>)

  /** Everything that must hold of the owner between calls. */
  ghost predicate Coherent(limits: Limits, regs: Registries, epoch: u64, nextGeneration: u64, nextRevision: u64, bytes: nat,
                           chunks: map<ChunkAddress, u64>, sections: Sections, world: map<SectionAddress, Cells>,
                           pending: seq<Requested>, dirty: seq<SectionAddress>, order: seq<SectionAddress>)
  {
    && SourcesOk(chunks, sections, world, regs, nextRevision)
    && BytesOk(sections, bytes, limits.sourceBytes)
    && DirtyOk(sections, dirty)
    && OrderOk(sections, order) && |order| <= limits.maxCached
    && CacheOk(epoch, sections, world, regs)
    && JobsOk(epoch, sections, world, regs, nextRevision, pending) && |pending| <= limits.maxPending
    && |chunks| <= limits.maxChunks && |sections| <= limits.maxSections
  }

  lemma WithinLimits(limits: Limits, regs: Registries, epoch: u64, nextGeneration: u64, nextRevision: u64, bytes: nat,
                     chunks: map<ChunkAddress, u64>, sections: Sections, world: map<SectionAddress, Cells>,
                     pending: seq<Requested>, dirty: seq<SectionAddress>, order: seq<SectionAddress>)
    requires Coherent(limits, regs, epoch, nextGeneration, nextRevision, bytes, chunks, sections, world, pending, dirty, order)
    ensures bytes <= limits.sourceBytes && |chunks| <= limits.maxChunks && |sections| <= limits.maxSections
  {
    hide SourcesOk, DirtyOk, OrderOk, CacheOk, JobsOk;
  }

  lemma SectionFacts(chunks: map<ChunkAddress, u64>, sections: Sections, world: map<SectionAddress, Cells>, regs: Registries, rev: u64, a: SectionAddress)
    requires SourcesOk(chunks, sections, world, regs, rev) && a in sections
    ensures a in world && a.chunk in chunks && sections[a].generation == chunks[a.chunk] && sections[a].revision <= rev
    ensures SourceShows(sections[a].source, world[a], regs) && CellsOk(world[a], regs)
  {
  }

  lemma SameSize(sections: Sections, a: SectionAddress, s: Resident)
    ensures |sections[a := s]| == |sections| + if a in sections then 0 else 1
  {
    assert sections[a := s].Keys == sections.Keys + {a};
  }

  /** One section got a new revision: stale bytes and failures are gone, and demand for it is queued. */
  ghost predicate Revised(before: Sections, after: Sections, a: SectionAddress, revision: int) {
    && a in before && a in after && after == before[a := after[a]]
    && after[a].revision == revision && after[a].generation == before[a].generation
    && after[a].cached == None && after[a].failure == None
    && after[a].wanted == before[a].wanted && after[a].dirty == (before[a].dirty || before[a].wanted)
  }

  lemma BytesWithin(sections: Sections, bytes: nat, limit: nat)
    requires BytesOk(sections, bytes, limit)
    ensures bytes <= limit
  {
  }

  lemma SectionBytesWithin(sections: Sections, bytes: nat, limit: nat, a: SectionAddress)
    requires BytesOk(sections, bytes, limit) && a in sections
    ensures sections[a].source.HeapBytes() <= bytes
  {
    BytesPart(sections, a);
  }

  lemma SourceParts(source: Source, cells: Cells, regs: Registries)
    requires SourceShows(source, cells, regs)
    ensures source.blocks.Shows(cells.blocks) && source.biomes.Shows(cells.biomes) && |cells.blocks| == 4096 && |cells.biomes| == 64
    ensures source.blocks.kind == Blocks && source.biomes.kind == Biomes
  {
  }

  lemma BlocksStored(before: Source, after: Source, cells: Cells, regs: Registries, index: nat, value: u32)
    requires SourceShows(before, cells, regs) && after.counts.Valid() && after.biomes == before.biomes
    requires after.blocks.kind == before.blocks.kind && after.blocks.registry == before.blocks.registry
    requires index < |cells.blocks| && after.blocks.Shows(cells.blocks[index := value])
    ensures SourceShows(after, cells.(blocks := cells.blocks[index := value]), regs)
  {
    hide PalettedContainer.Shows;
  }

  lemma BiomesStored(before: Source, after: Source, cells: Cells, regs: Registries, index: nat, value: u32)
    requires SourceShows(before, cells, regs) && after.counts == before.counts && after.blocks == before.blocks
    requires after.biomes.kind == before.biomes.kind && after.biomes.registry == before.biomes.registry
    requires index < |cells.biomes| && after.biomes.Shows(cells.biomes[index := value])
    ensures SourceShows(after, cells.(biomes := cells.biomes[index := value]), regs)
  {
    hide PalettedContainer.Shows;
  }

  lemma CountsStored(before: Source, after: Source, cells: Cells, regs: Registries)
    requires SourceShows(before, cells, regs) && after.counts.Valid() && after.blocks == before.blocks && after.biomes == before.biomes
    ensures SourceShows(after, cells, regs)
  {
    hide PalettedContainer.Shows;
  }

  lemma {:induction false} NoUnknown(input: seq<u32>, registry: Registry)
    ensures FirstUnknown(input, registry) == None ==> AllIn(input, registry)
  {
    if input != [] && input[0] < registry {
      NoUnknown(input[1..], registry);
      assert input == [input[0]] + input[1..];
    }
  }

  /** Why a section cannot be built inside the remaining bytes, in the order it is noticed. */
  ghost function SourceError(regs: Registries, blocks: seq<u32>, biomes: seq<u32>, remaining: int): Option<SectionError>
    requires |blocks| == 4096 && |biomes| == 64
  {
    NoUnknown(blocks, regs.blocks);
    NoUnknown(biomes, regs.biomes);
    if FirstUnknown(blocks, regs.blocks).Some? then Some(OutOfRange(FirstUnknown(blocks, regs.blocks).value))
    else
      var first := CompactHeap(Blocks, regs.blocks, blocks);
      if first > remaining then Some(AllocationBudgetExceeded)
      else if FirstUnknown(biomes, regs.biomes).Some? then Some(OutOfRange(FirstUnknown(biomes, regs.biomes).value))
      else if first + CompactHeap(Biomes, regs.biomes, biomes) > remaining then Some(AllocationBudgetExceeded)
      else None
  }

  /** What storing one cell answers, in the order of the checks; `same` says nothing would change. */
  ghost function EditOutcome(c: PalettedContainer, cells: seq<u32>, index: nat, value: u32, same: bool, exhausted: bool, budget: int)
      : Result<bool, PreparationError>
  {
    if index >= |cells| then Err(InSection(OutOfBounds))
    else if cells[index] == value && same then Ok(false)
    else if exhausted then Err(IdentityExhausted)
    else if value >= c.registry then Err(InSection(OutOfRange(value)))
    else if MustGrow(c, value) && !CanGrow(c, budget) then Err(InSection(AllocationBudgetExceeded))
    else Ok(true)
  }

  method BuildSource(regs: Registries, counts: SectionCounts, blocks: seq<u32>, biomes: seq<u32>, remaining: nat)
      returns (r: Result<Source, SectionError>)
    requires |blocks| == 4096 && |biomes| == 64 && counts.Valid()
    ensures r.Ok? ==> SourceShows(r.value, Cells(blocks, biomes), regs) && r.value.counts == counts && r.value.HeapBytes() <= remaining
    ensures match SourceError(regs, blocks, biomes, remaining) case Some(e) => r == Err(e) case None => r.Ok?
  {
    hide PalettedContainer.Shows, NeededBits, BuildBytes, Paletted.KeysOf;
    NoUnknown(blocks, regs.blocks);
    NoUnknown(biomes, regs.biomes);
    if AllIn(blocks, regs.blocks) {
      NoneUnknown(blocks, regs.blocks);
    }
    if AllIn(biomes, regs.biomes) {
      NoneUnknown(biomes, regs.biomes);
    }
    var first := Build(Blocks, regs.blocks, blocks, None, remaining);
    if first.Err? {
      return Err(first.error);
    }
    var second := Build(Biomes, regs.biomes, biomes, None, remaining - first.value.HeapBytes());
    if second.Err? {
      return Err(second.error);
    }
    r := Ok(Source(counts, first.value, second.value));
  }

  /** A newly loaded section joins every invariant. */
  lemma InsertKeeps(limits: Limits, regs: Registries, epoch: u64, nextGeneration: u64, nextRevision: u64, bytes: nat,
                    chunks: map<ChunkAddress, u64>, sections: Sections, world: map<SectionAddress, Cells>,
                    pending: seq<Requested>, dirty: seq<SectionAddress>, order: seq<SectionAddress>,
                    a: SectionAddress, s: Resident, cells: Cells)
    requires Coherent(limits, regs, epoch, nextGeneration, nextRevision, bytes, chunks, sections, world, pending, dirty, order)
    requires a !in sections && a.chunk in chunks && |sections| < limits.maxSections && nextRevision < 0xffff_ffff_ffff_ffff
    requires s.generation == chunks[a.chunk] && s.revision == nextRevision + 1 && !s.wanted && !s.dirty && s.cached == None
    requires SourceShows(s.source, cells, regs) && bytes + s.source.HeapBytes() <= limits.sourceBytes
    ensures Coherent(limits, regs, epoch, nextGeneration, nextRevision + 1, bytes + s.source.HeapBytes(),
                     chunks, sections[a := s], world[a := cells], pending, dirty, order)
  {
    hide SourceShows, CellsOk, JobOk, CachedNow, NoRepeats;
    SourcesUpdate(chunks, sections, world, regs, nextRevision, nextRevision + 1, a, s, cells);
    BytesInsert(sections, a, s);
    DirtyKept(sections, dirty, a, s);
    OrderKept(sections, order, a, s);
    CacheUpdate(epoch, sections, world, regs, a, s, cells);
    JobsUnaffected(epoch, sections, world, regs, nextRevision, pending, a, s, cells);
    SameSize(sections, a, s);
  }

  /** A changed source with a fresh revision keeps every invariant. */
  lemma ChangeKeeps(limits: Limits, regs: Registries, epoch: u64, nextGeneration: u64, nextRevision: u64, bytes: nat,
                    chunks: map<ChunkAddress, u64>, sections: Sections, world: map<SectionAddress, Cells>,
                    pending: seq<Requested>, dirty: seq<SectionAddress>, order: seq<SectionAddress>,
                    a: SectionAddress, next: Resident, cells: Cells, cancel: bool)
    requires Coherent(limits, regs, epoch, nextGeneration, nextRevision, bytes, chunks, sections, world, pending, dirty, order)
    requires a in sections && nextRevision < 0xffff_ffff_ffff_ffff
    requires next == sections[a].(source := next.source, revision := nextRevision + 1, failure := None, cached := None)
    requires cancel == (next.wanted && !next.dirty) && SourceShows(next.source, cells, regs)
    requires bytes - sections[a].source.HeapBytes() + next.source.HeapBytes() <= limits.sourceBytes
    ensures bytes >= sections[a].source.HeapBytes()
    ensures Coherent(limits, regs, epoch, nextGeneration, nextRevision + 1, bytes - sections[a].source.HeapBytes() + next.source.HeapBytes(), chunks,
                     sections[a := if cancel then next.(dirty := true) else next], world[a := cells],
                     if cancel then CancelAt(pending, a) else pending, if cancel then dirty + [a] else dirty,
                     if sections[a].cached.Some? then Without(order, a) else order)
  {
    hide SourceShows, CellsOk, JobOk, CachedNow, NoRepeats;
    var s := if cancel then next.(dirty := true) else next;
    SectionBytesWithin(sections, bytes, limits.sourceBytes, a);
    SourcesUpdate(chunks, sections, world, regs, nextRevision, nextRevision + 1, a, s, cells);
    BytesUpdate(sections, a, s);
    if cancel {
      DirtyMarked(sections, dirty, a, s);
    } else {
      if next.dirty {
        DirtyFlagged(sections, dirty, a);
      }
      DirtyKept(sections, dirty, a, s);
    }
    OrderDropped(sections, order, a, s);
    CacheUpdate(epoch, sections, world, regs, a, s, cells);
    JobsOutdated(epoch, sections, world, regs, nextRevision, pending, a, s, cells, cancel);
    SameSize(sections, a, s);
  }

  lemma DirtyFlagged(sections: Sections, dirty: seq<SectionAddress>, a: SectionAddress)
    requires DirtyOk(sections, dirty) && a in sections && sections[a].dirty
    ensures sections[a].wanted
  {
    assert a in dirty;
  }

  /** Same sections with the same identities and contents; only demand, cache and failure may differ. */
  ghost predicate SourcesKept(before: Sections, after: Sections) {
    before.Keys == after.Keys && forall a :: a in before ==>
      && after[a].source == before[a].source && after[a].revision == before[a].revision
      && after[a].generation == before[a].generation && after[a].wanted == before[a].wanted
  }

  /** The queues and the cache, without the bounds on loaded chunks and bytes. */
  ghost predicate CacheCoherent(limits: Limits, regs: Registries, epoch: u64, nextRevision: u64, sections: Sections,
                                world: map<SectionAddress, Cells>, pending: seq<Requested>, dirty: seq<SectionAddress>, order: seq<SectionAddress>)
  {
    && world.Keys == sections.Keys
    && DirtyOk(sections, dirty) && OrderOk(sections, order) && |order| <= limits.maxCached && limits.maxCached > 0
    && CacheOk(epoch, sections, world, regs)
    && JobsOk(epoch, sections, world, regs, nextRevision, pending) && |pending| <= limits.maxPending
  }

  /** Replacing one section's cache state, demand or failure. */
  lemma FlagsKeep(limits: Limits, regs: Registries, epoch: u64, nextRevision: u64, sections: Sections,
                  world: map<SectionAddress, Cells>, pending: seq<Requested>, dirty: seq<SectionAddress>, order: seq<SectionAddress>,
                  a: SectionAddress, s: Resident)
    requires CacheCoherent(limits, regs, epoch, nextRevision, sections, world, pending, dirty, order) && a in sections
    requires s == sections[a].(wanted := s.wanted, failure := s.failure) && (sections[a].wanted ==> s.wanted)
    ensures CacheCoherent(limits, regs, epoch, nextRevision, sections[a := s], world, pending, dirty, order)
  {
    hide CellsOk, JobOk, CachedNow, NoRepeats;
    if sections[a].dirty {
      DirtyFlagged(sections, dirty, a);
    }
    DirtyKept(sections, dirty, a, s);
    OrderKept(sections, order, a, s);
    CacheKept(epoch, sections, world, regs, a, s);
    JobsKept(epoch, sections, world, regs, nextRevision, pending, a, s);
  }

  lemma MarkKeeps(limits: Limits, regs: Registries, epoch: u64, nextRevision: u64, sections: Sections,
                  world: map<SectionAddress, Cells>, pending: seq<Requested>, dirty: seq<SectionAddress>, order: seq<SectionAddress>,
                  a: SectionAddress, s: Resident)
    requires CacheCoherent(limits, regs, epoch, nextRevision, sections, world, pending, dirty, order) && a in sections
    requires sections[a].wanted && !sections[a].dirty && s == sections[a].(dirty := true)
    requires forall i :: 0 <= i < |pending| ==> pending[i].key != KeyAt(epoch, a, s)
    ensures CacheCoherent(limits, regs, epoch, nextRevision, sections[a := s], world, pending, dirty + [a], order)
  {
    hide CellsOk, JobOk, CachedNow, NoRepeats;
    DirtyMarked(sections, dirty, a, s);
    OrderKept(sections, order, a, s);
    CacheKept(epoch, sections, world, regs, a, s);
    JobsDirtied(epoch, sections, world, regs, nextRevision, pending, a, s);
  }

  lemma EvictKeeps(limits: Limits, regs: Registries, epoch: u64, nextRevision: u64, sections: Sections,
                   world: map<SectionAddress, Cells>, pending: seq<Requested>, dirty: seq<SectionAddress>, order: seq<SectionAddress>)
    requires CacheCoherent(limits, regs, epoch, nextRevision, sections, world, pending, dirty, order) && order != []
    ensures order[0] in sections && sections[order[0]].cached.Some?
    ensures CacheCoherent(limits, regs, epoch, nextRevision, sections[order[0] := sections[order[0]].(cached := None)], world, pending, dirty, order[1..])
  {
    hide CellsOk, JobOk, CachedNow, NoRepeats;
    var a := order[0];
    assert a in order;
    var s := sections[a].(cached := None);
    if sections[a].dirty {
      DirtyFlagged(sections, dirty, a);
    }
    DirtyKept(sections, dirty, a, s);
    OrderEvicted(sections, order, s);
    CacheKept(epoch, sections, world, regs, a, s);
    JobsKept(epoch, sections, world, regs, nextRevision, pending, a, s);
  }

  /** Dropping a section's own entry before it is replaced. */
  lemma DropKeeps(limits: Limits, regs: Registries, epoch: u64, nextRevision: u64, sections: Sections,
                  world: map<SectionAddress, Cells>, pending: seq<Requested>, dirty: seq<SectionAddress>, order: seq<SectionAddress>, a: SectionAddress)
    requires CacheCoherent(limits, regs, epoch, nextRevision, sections, world, pending, dirty, order) && a in sections
    ensures CacheCoherent(limits, regs, epoch, nextRevision, sections[a := sections[a].(cached := None)], world, pending, dirty, Without(order, a))
  {
    hide CellsOk, JobOk, CachedNow, NoRepeats;
    var s := sections[a].(cached := None);
    if sections[a].dirty {
      DirtyFlagged(sections, dirty, a);
    }
    DirtyKept(sections, dirty, a, s);
    OrderDropped(sections, order, a, s);
    CacheKept(epoch, sections, world, regs, a, s);
    JobsKept(epoch, sections, world, regs, nextRevision, pending, a, s);
  }

  lemma StoreKeeps(limits: Limits, regs: Registries, epoch: u64, nextRevision: u64, sections: Sections,
                   world: map<SectionAddress, Cells>, pending: seq<Requested>, dirty: seq<SectionAddress>, order: seq<SectionAddress>,
                   a: SectionAddress, completion: Completion)
    requires CacheCoherent(limits, regs, epoch, nextRevision, sections, world, pending, dirty, order) && a in sections
    requires sections[a].cached == None && |order| < limits.maxCached
    requires CachedNow(epoch, a, sections[a].(failure := None, cached := Some(completion)), world, regs)
    ensures CacheCoherent(limits, regs, epoch, nextRevision, sections[a := sections[a].(failure := None, cached := Some(completion))],
                          world, pending, dirty, order + [a])
  {
    hide CellsOk, JobOk, CachedNow, NoRepeats;
    var s := sections[a].(failure := None, cached := Some(completion));
    if sections[a].dirty {
      DirtyFlagged(sections, dirty, a);
    }
    DirtyKept(sections, dirty, a, s);
    OrderAppended(sections, order, a, s);
    assert world[a := world[a]] == world;
    CacheUpdate(epoch, sections, world, regs, a, s, world[a]);
    JobsKept(epoch, sections, world, regs, nextRevision, pending, a, s);
  }

  /** The oldest dirty section becomes a job on a snapshot of its current source. */
  lemma SubmitKeeps(limits: Limits, regs: Registries, epoch: u64, nextRevision: u64, sections: Sections,
                    world: map<SectionAddress, Cells>, pending: seq<Requested>, dirty: seq<SectionAddress>, order: seq<SectionAddress>, p: Requested)
    requires CacheCoherent(limits, regs, epoch, nextRevision, sections, world, pending, dirty, order) && dirty != [] && |pending| < limits.maxPending
    requires dirty[0] in sections && sections[dirty[0]].revision <= nextRevision && sections[dirty[0]].source.counts.Valid()
    requires CellsOk(world[dirty[0]], regs)
    requires p == Requested(dirty[0], sections[dirty[0]].generation, KeyAt(epoch, dirty[0], sections[dirty[0]]),
                            sections[dirty[0]].source.counts, world[dirty[0]], false)
    ensures CacheCoherent(limits, regs, epoch, nextRevision, sections[dirty[0] := sections[dirty[0]].(dirty := false)],
                          world, pending + [p], dirty[1..], order)
  {
    hide CellsOk, CachedNow, NoRepeats;
    var a := dirty[0];
    assert a in dirty;
    var s := sections[a].(dirty := false);
    DirtySubmitted(sections, dirty, s);
    DirtyHasNoJob(epoch, sections, world, regs, nextRevision, pending, a);
    OrderKept(sections, order, a, s);
    CacheKept(epoch, sections, world, regs, a, s);
    JobsKept(epoch, sections, world, regs, nextRevision, pending, a, s);
    JobsSubmitted(epoch, sections[a := s], world, regs, nextRevision, pending, p);
  }

  lemma TakeKeeps(limits: Limits, regs: Registries, epoch: u64, nextRevision: u64, sections: Sections,
                  world: map<SectionAddress, Cells>, pending: seq<Requested>, dirty: seq<SectionAddress>, order: seq<SectionAddress>, i: nat)
    requires CacheCoherent(limits, regs, epoch, nextRevision, sections, world, pending, dirty, order) && i < |pending|
    ensures |SwapRemoved(pending, i)| == |pending| - 1 && JobOk(epoch, sections, world, regs, nextRevision, pending[i])
    ensures CacheCoherent(limits, regs, epoch, nextRevision, sections, world, SwapRemoved(pending, i), dirty, order)
  {
    JobsTaken(epoch, sections, world, regs, nextRevision, pending, i);
  }

  /** Sections whose sources stayed keep the ledger of sources and bytes. */
  lemma KeptSources(chunks: map<ChunkAddress, u64>, before: Sections, after: Sections, world: map<SectionAddress, Cells>, regs: Registries,
                    nextRevision: u64, bytes: nat, limit: nat)
    requires SourcesOk(chunks, before, world, regs, nextRevision) && BytesOk(before, bytes, limit) && SourcesKept(before, after)
    ensures SourcesOk(chunks, after, world, regs, nextRevision) && BytesOk(after, bytes, limit) && |after| == |before|
  {
    hide SourceShows;
    SumAgree(before.Keys, HeapOf(before), HeapOf(after));
    assert |before| == |before.Keys| && |after| == |after.Keys|;
  }

  // ----- what a worker returns -----

  /** A completion answers a job: its key, and either an error or the encoding of its snapshot. */
  ghost predicate Answers(completion: Completion, p: Requested, regs: Registries) {
    && completion.key == p.key && CellsOk(p.cells, regs)
    && (p.cancelled ==> completion.result == Err(Cancelled))
    && (completion.result.Ok? ==> completion.result.value == Encoded(p.counts, p.cells, regs))
  }

  /** One new job for each of these sections, in their order, on a snapshot of its source. */
  ghost predicate Submitted(before: seq<Requested>, after: seq<Requested>, sent: seq<SectionAddress>, epoch: u64,
                            sections: Sections, world: map<SectionAddress, Cells>)
  {
    && |after| == |before| + |sent| && after[..|before|] == before
    && forall i :: 0 <= i < |sent| ==>
         var a := sent[i];
         && a in sections && a in world
         && after[|before| + i]
            == Requested(a, sections[a].generation, KeyAt(epoch, a, sections[a]), sections[a].source.counts, world[a], false)
  }

  lemma NothingSubmitted(pending: seq<Requested>, sent: seq<SectionAddress>, epoch: u64, sections: Sections, world: map<SectionAddress, Cells>)
    requires sent == []
    ensures Submitted(pending, pending, sent, epoch, sections, world)
  {
  }

  lemma SubmittedNext(before: seq<Requested>, after: seq<Requested>, sent: seq<SectionAddress>, epoch: u64,
                      start: Sections, sections: Sections, world: map<SectionAddress, Cells>, p: Requested)
    requires Submitted(before, after, sent, epoch, start, world) && SourcesKept(start, sections)
    requires p.address in sections && p.address in world
    requires p == Requested(p.address, sections[p.address].generation, KeyAt(epoch, p.address, sections[p.address]),
                            sections[p.address].source.counts, world[p.address], false)
    ensures Submitted(before, after + [p], sent + [p.address], epoch, start, world)
  {
  }

  /** Snapshots do not depend on what was cached or flagged meanwhile. */
  lemma SubmittedAgain(before: seq<Requested>, after: seq<Requested>, sent: seq<SectionAddress>, epoch: u64,
                       start: Sections, middle: Sections, world: map<SectionAddress, Cells>)
    requires Submitted(before, after, sent, epoch, middle, world) && SourcesKept(start, middle)
    ensures |sent| <= |after| && before == after[..|after| - |sent|]
    ensures Submitted(before, after, sent, epoch, start, world)
  {
  }

  /** What becomes of a job once it was polled. */
  datatype Fate = Waits | Publishes | Discards | Fails

  function FateOf(p: Requested, poll: Poll): Fate {
    if poll == NotYet then Waits else if p.cancelled then Discards else if poll == Panicked then Fails else Publishes
  }

  /** The jobs that meet a fate, in order. */
  function OfFate(jobs: seq<Requested>, poll: Requested -> Poll, fate: Fate): seq<Requested> {
    if jobs == [] then []
    else
      var rest := OfFate(jobs[..|jobs| - 1], poll, fate);
      var last := jobs[|jobs| - 1];
      if FateOf(last, poll(last)) == fate then rest + [last] else rest
  }

  /** A cancelled job is discarded whatever became of it; of the others those that panicked fail and those that ended are published. */
  lemma FatesMean(p: Requested, poll: Poll)
    ensures FateOf(p, poll) == Waits <==> poll == NotYet
    ensures FateOf(p, poll) == Discards <==> poll != NotYet && p.cancelled
    ensures FateOf(p, poll) == Fails <==> poll == Panicked && !p.cancelled
    ensures FateOf(p, poll) == Publishes <==> poll != NotYet && poll != Panicked && !p.cancelled
  {
  }

  lemma {:induction false} OfFateKeeps(jobs: seq<Requested>, poll: Requested -> Poll, fate: Fate)
    ensures Keeps(jobs, OfFate(jobs, poll, fate), (p: Requested) => FateOf(p, poll(p)) == fate)
  {
    hide FateOf, Keeps;
    var keep := (p: Requested) => FateOf(p, poll(p)) == fate;
    if jobs == [] {
      KeepsNone(keep);
    } else {
      var n := |jobs| - 1;
      OfFateKeeps(jobs[..n], poll, fate);
      KeepsNext(jobs[..n], OfFate(jobs[..n], poll, fate), keep, jobs[n]);
      assert jobs[..n] + [jobs[n]] == jobs;
    }
  }

  lemma {:induction false} OfFateCounts(jobs: seq<Requested>, poll: Requested -> Poll, fate: Fate, p: Requested)
    ensures multiset(OfFate(jobs, poll, fate))[p] == if FateOf(p, poll(p)) == fate then multiset(jobs)[p] else 0
  {
    if jobs != [] {
      var n := |jobs| - 1;
      OfFateCounts(jobs[..n], poll, fate, p);
      assert jobs == jobs[..n] + [jobs[n]];
    }
  }

  /** Splitting the jobs into those that left and those that wait splits every fate. */
  lemma FatesSplit(jobs: seq<Requested>, waiting: seq<Requested>, taken: seq<Requested>, poll: Requested -> Poll)
    requires multiset(jobs) == multiset(waiting) + multiset(taken)
    requires forall p :: p in waiting ==> FateOf(p, poll(p)) == Waits
    requires forall p :: p in taken ==> FateOf(p, poll(p)) != Waits
    ensures multiset(waiting) == multiset(OfFate(jobs, poll, Waits))
    ensures forall fate :: fate != Waits ==> |OfFate(taken, poll, fate)| == |OfFate(jobs, poll, fate)|
  {
    forall p ensures multiset(waiting)[p] == multiset(OfFate(jobs, poll, Waits))[p] {
      OfFateCounts(jobs, poll, Waits, p);
      assert multiset(jobs)[p] == multiset(waiting)[p] + multiset(taken)[p];
      assert p in taken <==> p in multiset(taken);
      assert p in waiting <==> p in multiset(waiting);
    }
    forall fate: Fate | fate != Waits ensures |OfFate(taken, poll, fate)| == |OfFate(jobs, poll, fate)| {
      forall p ensures multiset(OfFate(taken, poll, fate))[p] == multiset(OfFate(jobs, poll, fate))[p] {
        OfFateCounts(jobs, poll, fate, p);
        OfFateCounts(taken, poll, fate, p);
        assert multiset(jobs)[p] == multiset(waiting)[p] + multiset(taken)[p];
        assert p in waiting <==> p in multiset(waiting);
      }
      SameBagSameLength(OfFate(taken, poll, fate), OfFate(jobs, poll, fate));
    }
  }

  lemma SameBagSameLength(a: seq<Requested>, b: seq<Requested>)
    requires multiset(a) == multiset(b)
    ensures |a| == |b|
  {
    assert |multiset(a)| == |a| && |multiset(b)| == |b|;
  }

  /** The polled jobs so far: those before `index` still wait, those in `taken` left. */
  ghost predicate Polling(jobs: seq<Requested>, pending: seq<Requested>, index: nat, taken: seq<Requested>, asked: seq<Requested>,
                          poll: Requested -> Poll, report: Report)
  {
    && index <= |pending|
    && multiset(jobs) == multiset(pending) + multiset(taken) && multiset(asked) == multiset(pending[..index]) + multiset(taken)
    && (forall p :: p in pending[..index] ==> FateOf(p, poll(p)) == Waits)
    && (forall p :: p in taken ==> FateOf(p, poll(p)) != Waits)
    && report.published == |OfFate(taken, poll, Publishes)|
    && report.discarded == |OfFate(taken, poll, Discards)|
    && report.failed == |OfFate(taken, poll, Fails)|
  }

  /** What a round of polling did to the jobs. */
  ghost predicate Polled(jobs: seq<Requested>, pending: seq<Requested>, asked: seq<Requested>, poll: Requested -> Poll, report: Report) {
    && multiset(asked) == multiset(jobs) && multiset(pending) == multiset(OfFate(jobs, poll, Waits))
    && report.published == |OfFate(jobs, poll, Publishes)|
    && report.discarded == |OfFate(jobs, poll, Discards)|
    && report.failed == |OfFate(jobs, poll, Fails)|
  }

  lemma PollingDone(jobs: seq<Requested>, pending: seq<Requested>, taken: seq<Requested>, asked: seq<Requested>,
                    poll: Requested -> Poll, report: Report)
    requires Polling(jobs, pending, |pending|, taken, asked, poll, report)
    ensures Polled(jobs, pending, asked, poll, report)
  {
    hide OfFate;
    assert pending[..|pending|] == pending;
    FatesSplit(jobs, pending, taken, poll);
  }

  lemma NothingPolled(jobs: seq<Requested>, poll: Requested -> Poll, report: Report)
    requires report == Report(0, 0, 0, 0, 0, None)
    ensures Polling(jobs, jobs, 0, [], [], poll, report)
  {
    assert jobs[..0] == [];
  }

  lemma PollWaits(jobs: seq<Requested>, pending: seq<Requested>, index: nat, taken: seq<Requested>, asked: seq<Requested>,
                  poll: Requested -> Poll, report: Report)
    requires Polling(jobs, pending, index, taken, asked, poll, report) && index < |pending|
    requires FateOf(pending[index], poll(pending[index])) == Waits
    ensures Polling(jobs, pending, index + 1, taken, asked + [pending[index]], poll, report)
  {
    hide OfFate, FateOf;
    assert pending[..index + 1] == pending[..index] + [pending[index]];
  }

  lemma PollTakes(jobs: seq<Requested>, pending: seq<Requested>, index: nat, taken: seq<Requested>, asked: seq<Requested>,
                  poll: Requested -> Poll, report: Report, after: Report)
    requires Polling(jobs, pending, index, taken, asked, poll, report) && index < |pending|
    requires var fate := FateOf(pending[index], poll(pending[index]));
             && fate != Waits
             && after.published == report.published + (if fate == Publishes then 1 else 0)
             && after.discarded == report.discarded + (if fate == Discards then 1 else 0)
             && after.failed == report.failed + (if fate == Fails then 1 else 0)
    ensures Polling(jobs, SwapRemoved(pending, index), index, taken + [pending[index]], asked + [pending[index]], poll, after)
  {
    hide FateOf, OfFate, SwapRemoved;
    var p, rest := pending[index], SwapRemoved(pending, index);
    OfFateNext(taken, p, poll, Publishes);
    OfFateNext(taken, p, poll, Discards);
    OfFateNext(taken, p, poll, Fails);
    SwapRemovedBag(pending, index);
    SwapRemovedPrefix(pending, index);
  }

  lemma SwapRemovedPrefix(pending: seq<Requested>, i: nat)
    requires i < |pending|
    ensures i <= |SwapRemoved(pending, i)| && SwapRemoved(pending, i)[..i] == pending[..i]
  {
  }

  lemma OfFateNext(jobs: seq<Requested>, p: Requested, poll: Requested -> Poll, fate: Fate)
    ensures OfFate(jobs + [p], poll, fate) == if FateOf(p, poll(p)) == fate then OfFate(jobs, poll, fate) + [p] else OfFate(jobs, poll, fate)
  {
    hide FateOf;
    assert (jobs + [p])[..|jobs|] == jobs;
  }

  lemma SwapRemovedBag(pending: seq<Requested>, i: nat)
    requires i < |pending|
    ensures multiset(pending) == multiset(SwapRemoved(pending, i)) + multiset{pending[i]}
  {
    var n := |pending| - 1;
    assert pending == pending[..n] + [pending[n]];
    if i < n {
      assert pending[..n] == pending[..i] + [pending[i]] + pending[i + 1..n];
      assert SwapRemoved(pending, i) == pending[..i] + [pending[n]] + pending[i + 1..n];
    }
  }

  /** Taking a finished job's completion: cancellation suppresses any result, however late it came. */
  method TryTake(p: Requested, poll: Poll, regs: Registries) returns (completion: Option<Completion>)
    requires CellsOk(p.cells, regs) && p.counts.Valid()
    ensures completion == None <==> poll == NotYet
    ensures completion.Some? ==> Answers(completion.value, p, regs)
    ensures completion.Some? ==> (completion.value.result.Ok? <==> FateOf(p, poll) == Publishes)
    ensures completion.Some? && !p.cancelled && poll == Panicked ==> completion.value.result == Err(WorkerPanicked)
  {
    hide SectionCodec.SectionBytes, AllIn;
    if poll == NotYet {
      return None;
    }
    if p.cancelled {
      return Some(Completion(p.key, Err(Cancelled)));
    }
    if poll == Panicked {
      return Some(Completion(p.key, Err(WorkerPanicked)));
    }
    KnownCells(p.cells, regs);
    var prepared, bytes := PrepareSection(p.cells.blocks, p.cells.biomes, regs.blocks, regs.biomes, p.counts, [], MAX_SECTION_NETWORK_BYTES);
    completion := Some(Completion(p.key, Ok(bytes)));
  }

  lemma {:induction false} NoneUnknown(input: seq<u32>, registry: Registry)
    requires AllIn(input, registry)
    ensures FirstUnknown(input, registry) == None
  {
    assert forall i :: 0 <= i < |input| ==> input[i] in input;
    FirstUnknownAt(input, registry, |input|);
  }

  lemma KnownCells(cells: Cells, regs: Registries)
    requires CellsOk(cells, regs)
    ensures FirstUnknown(cells.blocks, regs.blocks) == None && FirstUnknown(cells.biomes, regs.biomes) == None
  {
    NoneUnknown(cells.blocks, regs.blocks);
    NoneUnknown(cells.biomes, regs.biomes);
  }

  // ----- what the pool was asked, and answered -----

  /** How many of the first `n` questions for room were granted. */
  function Granted(admit: nat -> Option<AdmissionError>, n: nat): nat {
    if n == 0 then 0 else Granted(admit, n - 1) + if admit(n - 1) == None then 1 else 0
  }

  /** Every question so far was granted, or asked again after making room. */
  predicate OnlyRetries(admit: nat -> Option<AdmissionError>, n: nat) {
    forall k :: 0 <= k < n ==> admit(k) == None || admit(k) == Some(JobLimit) || admit(k) == Some(ByteLimit)
  }

  /** The last answer, after one eviction for each refusal before it; a refusal for room stands only with nothing left to evict. */
  ghost predicate Reserved(admit: nat -> Option<AdmissionError>, first: nat, asked: nat, refused: Option<AdmissionError>, evicted: nat,
                           before: seq<SectionAddress>, after: seq<SectionAddress>)
  {
    && asked == first + evicted + 1 && refused == admit(asked - 1)
    && (forall k :: first <= k < asked - 1 ==> admit(k) == Some(JobLimit) || admit(k) == Some(ByteLimit))
    && evicted <= |before| && after == before[evicted..]
    && (refused == Some(JobLimit) || refused == Some(ByteLimit) ==> after == [])
  }

  /** Why submitting ended: nothing left, no room for jobs, no room in the pool, or a pool that takes no jobs. */
  datatype Stop = Emptied | Full | Unadmitted | Refused

  /**
   The answers of the pool account for everything: each job sent had a question granted and a
   submission accepted, each refusal that was asked again cost one eviction, and what is reported
   as backpressure is the limit on jobs or the last answer.
   */
  ghost predicate Answered(admit: nat -> Option<AdmissionError>, submit: nat -> Option<AdmissionError>, sent: nat, asked: nat,
                           evicted: int, stop: Stop, backpressure: Option<AdmissionError>, full: bool, emptied: bool)
  {
    && (forall k :: 0 <= k < sent ==> submit(k) == None)
    && Granted(admit, asked) == sent + (if stop == Refused then 1 else 0)
    && asked == sent + evicted + (if stop == Unadmitted || stop == Refused then 1 else 0)
    && (stop == Unadmitted ==> asked > 0) && OnlyRetries(admit, if stop == Unadmitted then asked - 1 else asked)
    && match stop
       case Emptied => backpressure == None
       case Full => backpressure == Some(JobLimit) && full
       case Unadmitted =>
         && backpressure.Some? && backpressure == admit(asked - 1)
         && (backpressure == Some(JobLimit) || backpressure == Some(ByteLimit) ==> emptied)
       case Refused => asked > 0 && admit(asked - 1) == None && backpressure.Some? && backpressure == submit(sent)
  }

  /** Between two sections: every question but the granted ones made room, and every job sent was taken. */
  ghost predicate Accounted(admit: nat -> Option<AdmissionError>, submit: nat -> Option<AdmissionError>, sent: nat, asked: nat, evicted: int) {
    && (forall k :: 0 <= k < sent ==> submit(k) == None)
    && Granted(admit, asked) == sent && asked == sent + evicted && OnlyRetries(admit, asked)
  }

  lemma NothingAsked(admit: nat -> Option<AdmissionError>, submit: nat -> Option<AdmissionError>)
    ensures Accounted(admit, submit, 0, 0, 0)
  {
  }

  lemma {:induction false} NoneGranted(admit: nat -> Option<AdmissionError>, first: nat, n: nat)
    requires first <= n && forall k :: first <= k < n ==> admit(k).Some?
    ensures Granted(admit, n) == Granted(admit, first)
    decreases n
  {
    if n > first {
      NoneGranted(admit, first, n - 1);
    }
  }

  /** One more section reserved and sent. */
  lemma AccountedNext(admit: nat -> Option<AdmissionError>, submit: nat -> Option<AdmissionError>, sent: nat, first: nat, asked: nat,
                      evicted: int, more: nat, before: seq<SectionAddress>, after: seq<SectionAddress>)
    requires Accounted(admit, submit, sent, first, evicted) && Reserved(admit, first, asked, None, more, before, after) && submit(sent) == None
    ensures Accounted(admit, submit, sent + 1, asked, evicted + more)
  {
    NoneGranted(admit, first, asked - 1);
  }

  lemma EndsBefore(admit: nat -> Option<AdmissionError>, submit: nat -> Option<AdmissionError>, sent: nat, asked: nat, evicted: int,
                   stop: Stop, backpressure: Option<AdmissionError>, full: bool, emptied: bool)
    requires Accounted(admit, submit, sent, asked, evicted)
    requires (stop == Emptied && backpressure == None) || (stop == Full && full && backpressure == Some(JobLimit))
    ensures Answered(admit, submit, sent, asked, evicted, stop, backpressure, full, emptied)
  {
  }

  lemma EndsUnadmitted(admit: nat -> Option<AdmissionError>, submit: nat -> Option<AdmissionError>, sent: nat, first: nat, asked: nat,
                       evicted: int, more: nat, refused: Option<AdmissionError>, full: bool, before: seq<SectionAddress>, after: seq<SectionAddress>)
    requires Accounted(admit, submit, sent, first, evicted) && Reserved(admit, first, asked, refused, more, before, after) && refused.Some?
    ensures Answered(admit, submit, sent, asked, evicted + more, Unadmitted, refused, full, after == [])
  {
    NoneGranted(admit, first, asked);
  }

  lemma EndsRefused(admit: nat -> Option<AdmissionError>, submit: nat -> Option<AdmissionError>, sent: nat, first: nat, asked: nat,
                    evicted: int, more: nat, full: bool, before: seq<SectionAddress>, after: seq<SectionAddress>)
    requires Accounted(admit, submit, sent, first, evicted) && Reserved(admit, first, asked, None, more, before, after) && submit(sent).Some?
    ensures Answered(admit, submit, sent, asked, evicted + more, Refused, submit(sent), full, after == [])
  {
    NoneGranted(admit, first, asked - 1);
  }

  // ----- where results end up -----

  /** A published section goes to the end of the cache order; at the limit the oldest other one goes. */
  function Stored(order: seq<SectionAddress>, a: SectionAddress, limit: nat): seq<SectionAddress> {
    var others := Without(order, a);
    (if others != [] && |others| >= limit then others[1..] else others) + [a]
  }

  /** The cache order once these jobs were asked in turn. */
  function CacheAfter(order: seq<SectionAddress>, asked: seq<Requested>, poll: Requested -> Poll, limit: nat): seq<SectionAddress> {
    if asked == [] then order
    else
      var rest, p := CacheAfter(order, asked[..|asked| - 1], poll, limit), asked[|asked| - 1];
      if FateOf(p, poll(p)) == Publishes then Stored(rest, p.address, limit) else rest
  }

  /** What a section's failure is then: none once it is published, a panic once its job failed. */
  function FailureAfter(failure: Option<JobError>, a: SectionAddress, asked: seq<Requested>, poll: Requested -> Poll): Option<JobError> {
    if asked == [] then failure
    else
      var rest, p := FailureAfter(failure, a, asked[..|asked| - 1], poll), asked[|asked| - 1];
      if p.address != a then rest
      else if FateOf(p, poll(p)) == Publishes then None
      else if FateOf(p, poll(p)) == Fails then Some(WorkerPanicked)
      else rest
  }

  /** The answers of these jobs, and nothing else, moved the cache order and the failures. */
  ghost predicate Landed(before: Sections, after: Sections, first: seq<SectionAddress>, order: seq<SectionAddress>,
                         asked: seq<Requested>, poll: Requested -> Poll, limit: nat)
  {
    && order == CacheAfter(first, asked, poll, limit) && before.Keys == after.Keys
    && forall a :: a in before ==> after[a].failure == FailureAfter(before[a].failure, a, asked, poll)
  }

  lemma NothingLanded(sections: Sections, order: seq<SectionAddress>, poll: Requested -> Poll, limit: nat)
    ensures Landed(sections, sections, order, order, [], poll, limit)
  {
  }

  lemma LandedNext(before: Sections, middle: Sections, after: Sections, first: seq<SectionAddress>, order: seq<SectionAddress>, next: seq<SectionAddress>,
                   asked: seq<Requested>, poll: Requested -> Poll, limit: nat, p: Requested)
    requires Landed(before, middle, first, order, asked, poll, limit)
    requires LandsOne(middle, after, order, next, p, FateOf(p, poll(p)), limit)
    ensures Landed(before, after, first, next, asked + [p], poll, limit)
  {
    hide FateOf, Stored;
    var more := asked + [p];
    assert more[..|more| - 1] == asked;
  }

  /** What one answer changes of the cache order and the failures. */
  ghost predicate LandsOne(before: Sections, after: Sections, order: seq<SectionAddress>, next: seq<SectionAddress>, p: Requested, fate: Fate, limit: nat) {
    && next == (if fate == Publishes then Stored(order, p.address, limit) else order) && before.Keys == after.Keys
    && forall a :: a in before ==>
         after[a].failure == if a == p.address && fate == Publishes then None
                             else if a == p.address && fate == Fails then Some(WorkerPanicked) else before[a].failure
  }

  lemma WaitingLands(sections: Sections, order: seq<SectionAddress>, p: Requested, limit: nat)
    ensures LandsOne(sections, sections, order, order, p, Waits, limit)
  {
  }

  /** A published result is cached until as many others as the cache holds were published after it. */
  lemma {:induction false} StaysCached(order: seq<SectionAddress>, asked: seq<Requested>, poll: Requested -> Poll, limit: nat, i: nat) returns (k: nat)
    requires i < |asked| && FateOf(asked[i], poll(asked[i])) == Publishes && |OfFate(asked[i + 1..], poll, Publishes)| < limit
    ensures var cached := CacheAfter(order, asked, poll, limit);
      k < |cached| && cached[k] == asked[i].address && |cached| - 1 - k <= |OfFate(asked[i + 1..], poll, Publishes)|
    decreases |asked|
  {
    hide FateOf;
    var n := |asked| - 1;
    var cached := CacheAfter(order, asked, poll, limit);
    if i == n {
      k := |cached| - 1;
    } else {
      var later := asked[i + 1..];
      assert asked[..n][i + 1..] == later[..|later| - 1] && later[|later| - 1] == asked[n];
      k := StaysCached(order, asked[..n], poll, limit, i);
      if FateOf(asked[n], poll(asked[n])) == Publishes {
        k := StoredPlace(CacheAfter(order, asked[..n], poll, limit), asked[n].address, limit, k);
      }
    }
  }

  /** Storing one more section moves another at most one place further from the end. */
  lemma StoredPlace(order: seq<SectionAddress>, a: SectionAddress, limit: nat, k: nat) returns (j: nat)
    requires k < |order| && |order| - k < limit
    ensures j < |Stored(order, a, limit)| && Stored(order, a, limit)[j] == order[k] && |Stored(order, a, limit)| - j <= |order| - k + 1
  {
    if order[k] == a {
      j := |Stored(order, a, limit)| - 1;
    } else {
      var others := Without(order, a);
      j := WithoutPlace(order, a, k);
      if others != [] && |others| >= limit {
        j := j - 1;
      }
    }
  }

  lemma {:induction false} WithoutPlace(queue: seq<SectionAddress>, a: SectionAddress, k: nat) returns (j: nat)
    requires k < |queue| && queue[k] != a
    ensures j < |Without(queue, a)| && Without(queue, a)[j] == queue[k] && |Without(queue, a)| - j <= |queue| - k
  {
    if k == 0 {
      j := 0;
      WithoutShorter(queue[1..], a);
    } else {
      j := WithoutPlace(queue[1..], a, k - 1);
      if queue[0] != a {
        j := j + 1;
      }
    }
  }

  lemma {:induction false} WithoutShorter(queue: seq<SectionAddress>, a: SectionAddress)
    ensures |Without(queue, a)| <= |queue|
  {
    if queue != [] {
      WithoutShorter(queue[1..], a);
    }
  }

  /** Evictions took the oldest entries of the cache order, and no failure changed. */
  ghost predicate Trimmed(before: Sections, after: Sections, first: seq<SectionAddress>, order: seq<SectionAddress>, evicted: int) {
    && 0 <= evicted <= |first| && order == first[evicted..] && before.Keys == after.Keys
    && forall a :: a in before ==> after[a].failure == before[a].failure
  }

  lemma NothingTrimmed(sections: Sections, order: seq<SectionAddress>)
    ensures Trimmed(sections, sections, order, order, 0)
  {
  }

  lemma TrimmedTwice(before: Sections, middle: Sections, after: Sections, first: seq<SectionAddress>, order: seq<SectionAddress>, next: seq<SectionAddress>,
                     evicted: int, more: int)
    requires Trimmed(before, middle, first, order, evicted) && Trimmed(middle, after, order, next, more)
    ensures Trimmed(before, after, first, next, evicted + more)
  {
  }

  lemma TrimmedClean(before: Sections, after: Sections, first: seq<SectionAddress>, order: seq<SectionAddress>, evicted: int, a: SectionAddress)
    requires Trimmed(before, after, first, order, evicted) && a in after
    ensures Trimmed(before, after[a := after[a].(dirty := false)], first, order, evicted)
  {
  }

  class SectionPreparationOwner {
    const limits: Limits
    var regs: Registries
    var epoch: u64
    var nextGeneration: u64
    var nextRevision: u64
    var sourceBytes: nat
    var chunks: map<ChunkAddress, u64>
    var sections: Sections
    var pending: seq<Requested>
    var dirty: seq<SectionAddress>
    var cacheOrder: seq<SectionAddress>
    /** The dense content of every loaded section. */
    ghost var world: map<SectionAddress, Cells>

    ghost predicate Valid() reads this {
      && limits.maxCached > 0 && limits.maxPending > 0
      && Coherent(limits, regs, epoch, nextGeneration, nextRevision, sourceBytes, chunks, sections, world, pending, dirty, cacheOrder)
    }

    twostate predicate Unchanged() reads this {
      && regs == old(regs) && epoch == old(epoch) && nextGeneration == old(nextGeneration) && nextRevision == old(nextRevision)
      && sourceBytes == old(sourceBytes) && chunks == old(chunks) && sections == old(sections) && pending == old(pending)
      && dirty == old(dirty) && cacheOrder == old(cacheOrder) && world == old(world)
    }

    lemma IsCoherent()
      requires Valid()
      ensures Coherent(limits, regs, epoch, nextGeneration, nextRevision, sourceBytes, chunks, sections, world, pending, dirty, cacheOrder)
      ensures limits.maxCached > 0 && limits.maxPending > 0
    {
      hide Coherent;
    }

    lemma IsValid()
      requires limits.maxCached > 0 && limits.maxPending > 0
      requires Coherent(limits, regs, epoch, nextGeneration, nextRevision, sourceBytes, chunks, sections, world, pending, dirty, cacheOrder)
      ensures Valid()
    {
      hide Coherent;
    }

    constructor (epoch: u64, regs: Registries, limits: Limits)
      requires limits.maxPending > 0 && limits.maxCached > 0
      ensures Valid() && this.epoch == epoch && this.regs == regs && this.limits == limits && world == map[] && chunks == map[]
    {
      this.limits, this.regs, this.epoch := limits, regs, epoch;
      nextGeneration, nextRevision, sourceBytes := 0, 0, 0;
      chunks, sections, pending, dirty, cacheOrder := map[], map[], [], [], [];
      world := map[];
    }

    /** An empty owner, unless a limit is zero, the cache outgrows the sections, or its bytes overflow. */
    static method New(epoch: u64, regs: Registries, limits: Limits) returns (r: Result<SectionPreparationOwner, PreparationError>)
      ensures r.Err? ==> r.error == InvalidLimits
      ensures r.Err? <==>
        || limits.maxChunks == 0 || limits.maxSections == 0 || limits.maxPending == 0 || limits.maxCached == 0
        || limits.maxCached > limits.maxSections || limits.maxCached * SECTION_JOB_BUFFER_BYTES > USIZE_MAX
      ensures r.Ok? ==>
        && fresh(r.value) && r.value.Valid() && r.value.epoch == epoch && r.value.regs == regs && r.value.limits == limits
        && r.value.world == map[] && r.value.chunks == map[]
    {
      if limits.maxChunks == 0 || limits.maxSections == 0 || limits.maxPending == 0 || limits.maxCached == 0
         || limits.maxCached > limits.maxSections || limits.maxCached * SECTION_JOB_BUFFER_BYTES > USIZE_MAX {
        return Err(InvalidLimits);
      }
      var owner := new SectionPreparationOwner(epoch, regs, limits);
      r := Ok(owner);
    }

    // ----- loading -----

    method LoadChunk(a: ChunkAddress) returns (r: Result<u64, PreparationError>)
      requires Valid()
      modifies `chunks, `nextGeneration
      ensures Valid()
      ensures a in old(chunks) ==> r == Err(ChunkAlreadyLoaded)
      ensures a !in old(chunks) && |old(chunks)| == limits.maxChunks ==> r == Err(ChunkLimit)
      ensures a !in old(chunks) && |old(chunks)| != limits.maxChunks ==>
        if old(nextGeneration) == 0xffff_ffff_ffff_ffff then r == Err(IdentityExhausted) else r.Ok?
      ensures r.Err? ==> chunks == old(chunks) && nextGeneration == old(nextGeneration)
      ensures r.Ok? ==> r.value == old(nextGeneration) + 1 && nextGeneration == r.value && chunks == old(chunks)[a := r.value]
    {
      hide SourceShows, BytesOk, DirtyOk, OrderOk, CacheOk, JobsOk;
      if a in chunks {
        return Err(ChunkAlreadyLoaded);
      }
      if |chunks| == limits.maxChunks {
        return Err(ChunkLimit);
      }
      if nextGeneration == 0xffff_ffff_ffff_ffff {
        return Err(IdentityExhausted);
      }
      nextGeneration := nextGeneration + 1;
      ghost var before := chunks;
      chunks := chunks[a := nextGeneration];
      assert chunks.Keys == before.Keys + {a};
      r := Ok(nextGeneration);
    }

    /** Builds the section's palettes inside what is left of the byte allowance. */
    method LoadSection(a: SectionAddress, blocks: seq<u32>, biomes: seq<u32>, counts: SectionCounts)
        returns (r: Result<SectionKey, PreparationError>)
      requires Valid() && |blocks| == 4096 && |biomes| == 64
      modifies `sections, `sourceBytes, `nextRevision, `world
      ensures Valid()
      ensures r.Err? ==> Unchanged()
      ensures !counts.Valid() ==> r == Err(InSection(InvalidCounts))
      ensures counts.Valid() && a.chunk !in old(chunks) ==> r == Err(MissingChunk)
      ensures counts.Valid() && a.chunk in old(chunks) && a in old(sections) ==> r == Err(SectionAlreadyLoaded)
      ensures counts.Valid() && a.chunk in old(chunks) && a !in old(sections) ==>
        if |old(sections)| == limits.maxSections then r == Err(SectionLimit)
        else if old(nextRevision) == 0xffff_ffff_ffff_ffff then r == Err(IdentityExhausted)
        else match SourceError(regs, blocks, biomes, limits.sourceBytes - old(sourceBytes))
          case Some(e) => r == Err(InSection(e))
          case None => r.Ok?
      ensures r.Ok? ==>
        && a !in old(sections) && a in sections && sections == old(sections)[a := sections[a]]
        && world == old(world)[a := Cells(blocks, biomes)] && sections[a].source.counts == counts
        && r.value == KeyAt(epoch, a, sections[a]) && r.value.revision == nextRevision == old(nextRevision) + 1
        && !sections[a].wanted && sections[a].cached == None
    {
      hide Coherent, SourceError, SourceShows;
      WithinLimits(limits, regs, epoch, nextGeneration, nextRevision, sourceBytes, chunks, sections, world, pending, dirty, cacheOrder);
      if !counts.Valid() {
        return Err(InSection(InvalidCounts));
      }
      if a.chunk !in chunks {
        return Err(MissingChunk);
      }
      if a in sections {
        return Err(SectionAlreadyLoaded);
      }
      if |sections| == limits.maxSections {
        return Err(SectionLimit);
      }
      if nextRevision == 0xffff_ffff_ffff_ffff {
        return Err(IdentityExhausted);
      }
      var revision := nextRevision + 1;
      var built := BuildSource(regs, counts, blocks, biomes, limits.sourceBytes - sourceBytes);
      if built.Err? {
        return Err(InSection(built.error));
      }
      var s := Resident(chunks[a.chunk], revision, built.value, false, false, None, None);
      ghost var cells := Cells(blocks, biomes);
      InsertKeeps(limits, regs, epoch, nextGeneration, nextRevision, sourceBytes, chunks, sections, world, pending, dirty, cacheOrder, a, s, cells);
      sourceBytes := sourceBytes + built.value.HeapBytes();
      sections := sections[a := s];
      world := world[a := cells];
      nextRevision := revision;
      r := Ok(KeyAt(epoch, a, s));
    }

    // ----- edits -----

    /** Stores a block and its metadata; a true no-op keeps the revision and the cache. */
    method SetBlock(a: SectionAddress, index: nat, value: u32, counts: SectionCounts) returns (r: Result<bool, PreparationError>)
      requires Valid()
      modifies this
      ensures Valid() && regs == old(regs) && epoch == old(epoch) && chunks == old(chunks)
      ensures r != Ok(true) ==> Unchanged()
      ensures !counts.Valid() ==> r == Err(InSection(InvalidCounts))
      ensures counts.Valid() && a !in old(sections) ==> r == Err(MissingSection)
      ensures counts.Valid() && a in old(sections) ==>
        && a in old(world)
        && var blocks := old(sections)[a].source.blocks;
           r == EditOutcome(blocks, old(world)[a].blocks, index, value, old(sections)[a].source.counts == counts,
                            old(nextRevision) == 0xffff_ffff_ffff_ffff, limits.sourceBytes - (old(sourceBytes) - blocks.HeapBytes()))
      ensures r == Ok(true) ==>
        && a in old(world) && index < |old(world)[a].blocks|
        && world == old(world)[a := old(world)[a].(blocks := old(world)[a].blocks[index := value])]
        && Revised(old(sections), sections, a, old(nextRevision) + 1) && sections[a].source.counts == counts
    {
      hide SourceShows, DirtyOk, OrderOk, CacheOk, JobsOk, SourcesOk, BytesOk, Revised;
      if !counts.Valid() {
        return Err(InSection(InvalidCounts));
      }
      if a !in sections {
        return Err(MissingSection);
      }
      SectionFacts(chunks, sections, world, regs, nextRevision, a);
      var s := sections[a];
      ghost var cells := world[a];
      SourceParts(s.source, cells, regs);
      var current := Get(s.source.blocks, index, cells.blocks);
      if current.Err? {
        return Err(InSection(current.error));
      }
      if current.value == value && s.source.counts == counts {
        return Ok(false);
      }
      if nextRevision == 0xffff_ffff_ffff_ffff {
        return Err(IdentityExhausted);
      }
      BytesWithin(sections, sourceBytes, limits.sourceBytes);
      SectionBytesWithin(sections, sourceBytes, limits.sourceBytes, a);
      var previous := s.source.blocks.HeapBytes();
      var stored, blocks := Set(s.source.blocks, index, value, limits.sourceBytes - (sourceBytes - previous), cells.blocks);
      if stored.Err? {
        return Err(InSection(stored.error));
      }
      var source := Source(counts, blocks, s.source.biomes);
      BlocksStored(s.source, source, cells, regs, index, value);
      Changed(a, source, cells.(blocks := cells.blocks[index := value]));
      r := Ok(true);
    }

    method SetBiome(a: SectionAddress, index: nat, value: u32) returns (r: Result<bool, PreparationError>)
      requires Valid()
      modifies this
      ensures Valid() && regs == old(regs) && epoch == old(epoch) && chunks == old(chunks)
      ensures r != Ok(true) ==> Unchanged()
      ensures a !in old(sections) ==> r == Err(MissingSection)
      ensures a in old(sections) ==>
        && a in old(world)
        && var biomes := old(sections)[a].source.biomes;
           r == EditOutcome(biomes, old(world)[a].biomes, index, value, true,
                            old(nextRevision) == 0xffff_ffff_ffff_ffff, limits.sourceBytes - (old(sourceBytes) - biomes.HeapBytes()))
      ensures r == Ok(true) ==>
        && a in old(world) && index < |old(world)[a].biomes|
        && world == old(world)[a := old(world)[a].(biomes := old(world)[a].biomes[index := value])]
        && Revised(old(sections), sections, a, old(nextRevision) + 1)
    {
      hide SourceShows, DirtyOk, OrderOk, CacheOk, JobsOk, SourcesOk, BytesOk, Revised;
      if a !in sections {
        return Err(MissingSection);
      }
      SectionFacts(chunks, sections, world, regs, nextRevision, a);
      var s := sections[a];
      ghost var cells := world[a];
      SourceParts(s.source, cells, regs);
      var current := Get(s.source.biomes, index, cells.biomes);
      if current.Err? {
        return Err(InSection(current.error));
      }
      if current.value == value {
        return Ok(false);
      }
      if nextRevision == 0xffff_ffff_ffff_ffff {
        return Err(IdentityExhausted);
      }
      BytesWithin(sections, sourceBytes, limits.sourceBytes);
      SectionBytesWithin(sections, sourceBytes, limits.sourceBytes, a);
      var previous := s.source.biomes.HeapBytes();
      var stored, biomes := Set(s.source.biomes, index, value, limits.sourceBytes - (sourceBytes - previous), cells.biomes);
      if stored.Err? {
        return Err(InSection(stored.error));
      }
      var source := s.source.(biomes := biomes);
      BiomesStored(s.source, source, cells, regs, index, value);
      Changed(a, source, cells.(biomes := cells.biomes[index := value]));
      r := Ok(true);
    }

    method SetCounts(a: SectionAddress, counts: SectionCounts) returns (r: Result<bool, PreparationError>)
      requires Valid()
      modifies this
      ensures Valid() && regs == old(regs) && epoch == old(epoch) && chunks == old(chunks) && world == old(world)
      ensures r != Ok(true) ==> Unchanged()
      ensures r == if !counts.Valid() then Err(InSection(InvalidCounts))
                   else if a !in old(sections) then Err(MissingSection)
                   else if old(sections)[a].source.counts == counts then Ok(false)
                   else if old(nextRevision) == 0xffff_ffff_ffff_ffff then Err(IdentityExhausted) else Ok(true)
      ensures r == Ok(true) ==> a in old(sections) && Revised(old(sections), sections, a, old(nextRevision) + 1)
                                && sections[a].source == old(sections)[a].source.(counts := counts)
    {
      hide SourceShows, DirtyOk, OrderOk, CacheOk, JobsOk, SourcesOk, BytesOk, Revised;
      if !counts.Valid() {
        return Err(InSection(InvalidCounts));
      }
      if a !in sections {
        return Err(MissingSection);
      }
      if sections[a].source.counts == counts {
        return Ok(false);
      }
      if nextRevision == 0xffff_ffff_ffff_ffff {
        return Err(IdentityExhausted);
      }
      SectionFacts(chunks, sections, world, regs, nextRevision, a);
      var source := sections[a].source.(counts := counts);
      CountsStored(sections[a].source, source, world[a], regs);
      BytesWithin(sections, sourceBytes, limits.sourceBytes);
      assert world[a := world[a]] == world;
      Changed(a, source, world[a]);
      r := Ok(true);
    }

    /** A changed source gets a fresh revision, loses its cache entry, and supersedes its jobs. */
    method Changed(a: SectionAddress, source: Source, ghost cells: Cells)
      requires Valid() && a in sections && nextRevision < 0xffff_ffff_ffff_ffff
      requires SourceShows(source, cells, regs)
      requires sourceBytes - sections[a].source.HeapBytes() + source.HeapBytes() <= limits.sourceBytes
      modifies this
      ensures Valid() && regs == old(regs) && epoch == old(epoch) && chunks == old(chunks)
      ensures world == old(world)[a := cells] && Revised(old(sections), sections, a, old(nextRevision) + 1)
      ensures sections[a].source == source
    {
      hide Valid, Coherent, SourceShows, CancelAt, Without;
      IsCoherent();
      var s := sections[a];
      var revision: u64 := nextRevision + 1;
      var next := s.(source := source, revision := revision, failure := None, cached := None);
      var cancel := s.wanted && !s.dirty;
      ChangeKeeps(limits, regs, epoch, nextGeneration, nextRevision, sourceBytes, chunks, sections, world, pending, dirty, cacheOrder, a, next, cells, cancel);
      sourceBytes := sourceBytes - s.source.HeapBytes() + source.HeapBytes();
      if s.cached.Some? {
        cacheOrder := Without(cacheOrder, a);
      }
      if cancel {
        pending := CancelAt(pending, a);
        next := next.(dirty := true);
        dirty := dirty + [a];
      }
      sections := sections[a := next];
      world := world[a := cells];
      nextRevision := revision;
      IsValid();
    }

    // ----- demand -----

    /** Records demand; a job is queued only if no cached bytes and no current job can serve it. */
    method Request(a: SectionAddress) returns (r: Result<SectionKey, PreparationError>)
      requires Valid()
      modifies `sections, `dirty
      ensures Valid()
      ensures a !in old(sections) ==> r == Err(MissingSection) && Unchanged()
      ensures a in old(sections) ==>
        && r == Ok(KeyAt(epoch, a, old(sections)[a]))
        && a in sections && sections == old(sections)[a := old(sections)[a].(wanted := true, failure := None, dirty := sections[a].dirty)]
        && sections[a].dirty == (old(sections)[a].dirty || (sections[a].cached == None && NoneWithKey(pending, r.value)))
    {
      hide SourceShows, DirtyOk, OrderOk, CacheOk, JobsOk, SourcesOk, BytesOk;
      if a !in sections {
        return Err(MissingSection);
      }
      SectionFacts(chunks, sections, world, regs, nextRevision, a);
      WorldKeys(chunks, sections, world, regs, nextRevision);
      var s := sections[a].(wanted := true, failure := None);
      var key := KeyAt(epoch, a, s);
      FlagsKeep(limits, regs, epoch, nextRevision, sections, world, pending, dirty, cacheOrder, a, s);
      ghost var before := sections;
      sections := sections[a := s];
      if s.cached == None && !s.dirty {
        var served := AnyWithKey(pending, key);
        if !served {
          MarkKeeps(limits, regs, epoch, nextRevision, sections, world, pending, dirty, cacheOrder, a, s.(dirty := true));
          sections := sections[a := s.(dirty := true)];
          dirty := dirty + [a];
        }
      }
      WantedSources(chunks, before, sections, world, regs, nextRevision, sourceBytes, limits.sourceBytes, a);
      r := Ok(key);
    }

    /** Bytes and key of a cached section; whenever there is an answer it is the current one. */
    method Cached(a: SectionAddress) returns (r: Option<(SectionKey, SectionBytes)>)
      requires Valid()
      ensures r.Some? ==> a in sections && r.value.0 == KeyAt(epoch, a, sections[a])
                          && a in world && CellsOk(world[a], regs) && r.value.1 == Encoded(sections[a].source.counts, world[a], regs)
      ensures r.Some? <==> a in sections && sections[a].cached.Some?
    {
      if a !in sections || sections[a].cached == None {
        return None;
      }
      assert CachedNow(epoch, a, sections[a], world, regs);
      var completion := sections[a].cached.value;
      r := Some((completion.key, completion.result.value));
    }

    // ----- progress -----

    /** Takes the bytes of the section published longest ago; its source and demand stay. */
    method EvictOldest() returns (evicted: bool)
      requires CacheCoherent(limits, regs, epoch, nextRevision, sections, world, pending, dirty, cacheOrder)
      modifies `sections, `cacheOrder
      ensures CacheCoherent(limits, regs, epoch, nextRevision, sections, world, pending, dirty, cacheOrder)
      ensures SourcesKept(old(sections), sections) && (evicted <==> old(cacheOrder) != [])
      ensures !evicted ==> sections == old(sections) && cacheOrder == old(cacheOrder)
      ensures evicted ==>
        var oldest := old(cacheOrder)[0];
        && oldest in old(sections) && old(sections)[oldest].cached.Some? && cacheOrder == old(cacheOrder)[1..]
        && sections == old(sections)[oldest := old(sections)[oldest].(cached := None)]
      ensures forall a :: a in sections ==> sections[a].dirty == old(sections)[a].dirty
                                            && (old(sections)[a].cached == None ==> sections[a].cached == None)
    {
      hide CacheCoherent;
      if cacheOrder == [] {
        return false;
      }
      EvictKeeps(limits, regs, epoch, nextRevision, sections, world, pending, dirty, cacheOrder);
      var a := cacheOrder[0];
      cacheOrder := cacheOrder[1..];
      sections := sections[a := sections[a].(cached := None)];
      evicted := true;
    }

    method DropOwn(a: SectionAddress)
      requires CacheCoherent(limits, regs, epoch, nextRevision, sections, world, pending, dirty, cacheOrder) && a in sections
      modifies `sections, `cacheOrder
      ensures CacheCoherent(limits, regs, epoch, nextRevision, sections, world, pending, dirty, cacheOrder)
      ensures sections == old(sections)[a := old(sections)[a].(cached := None)] && cacheOrder == Without(old(cacheOrder), a)
    {
      hide CacheCoherent;
      if sections[a].cached.Some? {
        DropKeeps(limits, regs, epoch, nextRevision, sections, world, pending, dirty, cacheOrder, a);
        cacheOrder := Without(cacheOrder, a);
        sections := sections[a := sections[a].(cached := None)];
      } else {
        NotInOrder(limits, regs, epoch, nextRevision, sections, world, pending, dirty, cacheOrder, a);
        WithoutAbsent(cacheOrder, a);
        assert sections[a := sections[a]] == sections;
      }
    }

    /** Drops a section's own entry and, if the cache is full, the oldest one. */
    method MakeRoom(a: SectionAddress) returns (evicted: nat)
      requires CacheCoherent(limits, regs, epoch, nextRevision, sections, world, pending, dirty, cacheOrder) && a in sections
      modifies `sections, `cacheOrder
      ensures CacheCoherent(limits, regs, epoch, nextRevision, sections, world, pending, dirty, cacheOrder)
      ensures SourcesKept(old(sections), sections) && evicted <= 1 && |cacheOrder| < limits.maxCached
      ensures a in sections && sections[a] == old(sections)[a].(cached := None)
      ensures var others := Without(old(cacheOrder), a);
        if |others| < limits.maxCached then
          evicted == 0 && cacheOrder == others && sections == old(sections)[a := sections[a]]
        else
          && evicted == 1 && others != [] && others[0] in old(sections) && cacheOrder == others[1..]
          && sections == old(sections)[a := sections[a]][others[0] := old(sections)[others[0]].(cached := None)]
    {
      hide CacheCoherent;
      evicted := 0;
      DropOwn(a);
      OrderBound(limits, regs, epoch, nextRevision, sections, world, pending, dirty, cacheOrder);
      if |cacheOrder| == limits.maxCached {
        var gone := EvictOldest();
        evicted := 1;
      }
    }

    /** Publishes a completion while its key and generation are still the section's own. */
    method Publish(generation: u64, completion: Completion, report: Report, ghost p: Requested) returns (after: Report)
      requires CacheCoherent(limits, regs, epoch, nextRevision, sections, world, pending, dirty, cacheOrder)
      requires JobOk(epoch, sections, world, regs, nextRevision, p) && Answers(completion, p, regs) && generation == p.generation
      modifies `sections, `cacheOrder
      ensures CacheCoherent(limits, regs, epoch, nextRevision, sections, world, pending, dirty, cacheOrder)
      ensures SourcesKept(old(sections), sections)
      ensures var was, a := old(sections), p.address;
        if !IsCurrent(epoch, was, p) then
          after == report.(discarded := report.discarded + 1) && sections == was && cacheOrder == old(cacheOrder)
        else if completion.result.Err? then
          && after == report.(failed := report.failed + 1) && cacheOrder == old(cacheOrder)
          && sections == was[a := was[a].(failure := Some(completion.result.error))]
        else
          var others := Without(old(cacheOrder), a);
          && var full := |others| >= limits.maxCached;
          && after == report.(published := report.published + 1, evicted := report.evicted + if full then 1 else 0)
          && cacheOrder == (if full then others[1..] else others) + [a]
          && a in sections && sections[a] == was[a].(failure := None, cached := Some(completion))
          && sections.Keys == was.Keys
          && forall b :: b in sections && b != a ==> sections[b] == if full && b == others[0] then was[b].(cached := None) else was[b]
      ensures forall b :: b in sections && b != p.address ==>
        sections[b] == old(sections)[b] || sections[b] == old(sections)[b].(cached := None)
      ensures IsCurrent(epoch, old(sections), p) && completion.result == Err(WorkerPanicked) ==>
        LandsOne(old(sections), sections, old(cacheOrder), cacheOrder, p, Fails, limits.maxCached)
      ensures completion.result.Ok? || !IsCurrent(epoch, old(sections), p) ==>
        LandsOne(old(sections), sections, old(cacheOrder), cacheOrder, p,
                 if IsCurrent(epoch, old(sections), p) then Publishes else Discards, limits.maxCached)
    {
      hide CacheCoherent, CellsOk, Encoded;
      var key := completion.key;
      var a := key.address;
      if a !in sections {
        return report.(discarded := report.discarded + 1);
      }
      if generation != sections[a].generation || key != KeyAt(epoch, a, sections[a]) {
        return report.(discarded := report.discarded + 1);
      }
      if completion.result.Err? {
        var s := sections[a].(failure := Some(completion.result.error));
        FlagsKeep(limits, regs, epoch, nextRevision, sections, world, pending, dirty, cacheOrder, a, s);
        sections := sections[a := s];
        return report.(failed := report.failed + 1);
      }
      var evicted := MakeRoom(a);
      StoreKeeps(limits, regs, epoch, nextRevision, sections, world, pending, dirty, cacheOrder, a, completion);
      sections := sections[a := sections[a].(failure := None, cached := Some(completion))];
      cacheOrder := cacheOrder + [a];
      after := report.(published := report.published + 1, evicted := report.evicted + evicted);
    }

    /** Polls every job once; finished ones leave the list and are published, discarded or recorded as failed. */
    method TakeFinished(poll: Requested -> Poll) returns (report: Report, ghost asked: seq<Requested>)
      requires CacheCoherent(limits, regs, epoch, nextRevision, sections, world, pending, dirty, cacheOrder)
      modifies `sections, `cacheOrder, `pending
      ensures CacheCoherent(limits, regs, epoch, nextRevision, sections, world, pending, dirty, cacheOrder)
      ensures SourcesKept(old(sections), sections)
      ensures Polled(old(pending), pending, asked, poll, report)
      ensures report.submitted == 0 && report.backpressure == None && report.evicted <= report.published
      ensures Landed(old(sections), sections, old(cacheOrder), cacheOrder, asked, poll, limits.maxCached)
    {
      hide CacheCoherent, CellsOk, Encoded, JobOk, Answers, IsCurrent, Polling, Polled, SourcesKept, Landed, LandsOne, Stored;
      KeptSame(sections);
      NothingLanded(sections, cacheOrder, poll, limits.maxCached);
      report, asked := Report(0, 0, 0, 0, 0, None), [];
      var index := 0;
      ghost var taken: seq<Requested> := [];
      NothingPolled(pending, poll, report);
      while index < |pending|
        invariant CacheCoherent(limits, regs, epoch, nextRevision, sections, world, pending, dirty, cacheOrder)
        invariant SourcesKept(old(sections), sections) && index <= |pending|
        invariant Polling(old(pending), pending, index, taken, asked, poll, report)
        invariant report.submitted == 0 && report.backpressure == None && report.evicted <= report.published
        invariant Landed(old(sections), sections, old(cacheOrder), cacheOrder, asked, poll, limits.maxCached)
        decreases |pending| - index
      {
        var p := pending[index];
        TakeKeeps(limits, regs, epoch, nextRevision, sections, world, pending, dirty, cacheOrder, index);
        JobSnapshot(epoch, sections, world, regs, nextRevision, p);
        var completion := TryTake(p, poll(p), regs);
        ghost var start, before, order := sections, report, cacheOrder;
        if completion.Some? {
          ghost var jobs := pending;
          pending := SwapRemoved(pending, index);
          report := Publish(p.generation, completion.value, report, p);
          KeptTwice(old(sections), start, sections);
          PollTakes(old(pending), jobs, index, taken, asked, poll, before, report);
          LandedNext(old(sections), start, sections, old(cacheOrder), order, cacheOrder, asked, poll, limits.maxCached, p);
          taken := taken + [p];
        } else {
          PollWaits(old(pending), pending, index, taken, asked, poll, report);
          WaitingLands(sections, cacheOrder, p, limits.maxCached);
          LandedNext(old(sections), sections, sections, old(cacheOrder), cacheOrder, cacheOrder, asked, poll, limits.maxCached, p);
          index := index + 1;
        }
        asked := asked + [p];
      }
      PollingDone(old(pending), pending, taken, asked, poll, report);
    }

    /** Reserves pool space for one job, evicting one cached entry for each answer that the pool is short of it. */
    method Reserve(admit: nat -> Option<AdmissionError>, first: nat) returns (refused: Option<AdmissionError>, asked: nat, evicted: nat)
      requires CacheCoherent(limits, regs, epoch, nextRevision, sections, world, pending, dirty, cacheOrder)
      modifies `sections, `cacheOrder
      ensures CacheCoherent(limits, regs, epoch, nextRevision, sections, world, pending, dirty, cacheOrder)
      ensures SourcesKept(old(sections), sections)
      ensures Reserved(admit, first, asked, refused, evicted, old(cacheOrder), cacheOrder)
      ensures Trimmed(old(sections), sections, old(cacheOrder), cacheOrder, evicted)
    {
      hide CacheCoherent;
      asked, evicted := first, 0;
      while true
        invariant Trimmed(old(sections), sections, old(cacheOrder), cacheOrder, evicted)
        invariant CacheCoherent(limits, regs, epoch, nextRevision, sections, world, pending, dirty, cacheOrder)
        invariant SourcesKept(old(sections), sections)
        invariant asked == first + evicted && evicted <= |old(cacheOrder)| && cacheOrder == old(cacheOrder)[evicted..]
        invariant forall k :: first <= k < asked ==> admit(k) == Some(JobLimit) || admit(k) == Some(ByteLimit)
        decreases |cacheOrder|
      {
        refused := admit(asked);
        asked := asked + 1;
        if refused == None || (refused.value != JobLimit && refused.value != ByteLimit) {
          return;
        }
        var more := EvictOldest();
        if !more {
          return;
        }
        evicted := evicted + 1;
      }
    }

    /** The accepted job of the first dirty section is pending, and the section is clean. */
    method Accept(job: Requested)
      requires CacheCoherent(limits, regs, epoch, nextRevision, sections, world, pending, dirty, cacheOrder) && dirty != [] && |pending| < limits.maxPending
      requires dirty[0] in sections && dirty[0] in world && sections[dirty[0]].revision <= nextRevision && sections[dirty[0]].source.counts.Valid()
      requires CellsOk(world[dirty[0]], regs)
      requires job == Requested(dirty[0], sections[dirty[0]].generation, KeyAt(epoch, dirty[0], sections[dirty[0]]),
                                sections[dirty[0]].source.counts, world[dirty[0]], false)
      modifies `sections, `pending, `dirty
      ensures CacheCoherent(limits, regs, epoch, nextRevision, sections, world, pending, dirty, cacheOrder)
      ensures pending == old(pending) + [job] && dirty == old(dirty)[1..]
      ensures sections == old(sections)[job.address := old(sections)[job.address].(dirty := false)]
    {
      hide *;
      SubmitKeeps(limits, regs, epoch, nextRevision, sections, world, pending, dirty, cacheOrder, job);
      var a := dirty[0];
      pending, dirty, sections := pending + [job], dirty[1..], sections[a := sections[a].(dirty := false)];
    }

    /** Submits dirty sections oldest first until the pool, or the bound on jobs, says no. */
    method SubmitDirty(admit: nat -> Option<AdmissionError>, submit: nat -> Option<AdmissionError>, start: Report)
        returns (report: Report, ghost asked: nat, ghost stop: Stop)
      requires SourcesOk(chunks, sections, world, regs, nextRevision)
      requires CacheCoherent(limits, regs, epoch, nextRevision, sections, world, pending, dirty, cacheOrder)
      requires start.backpressure == None
      modifies `sections, `cacheOrder, `pending, `dirty
      ensures CacheCoherent(limits, regs, epoch, nextRevision, sections, world, pending, dirty, cacheOrder)
      ensures SourcesKept(old(sections), sections)
      ensures report == start.(submitted := report.submitted, evicted := report.evicted, backpressure := report.backpressure)
      ensures start.submitted <= report.submitted <= start.submitted + |old(dirty)|
      ensures dirty == old(dirty)[report.submitted - start.submitted..] && (report.backpressure == None <==> dirty == [])
      ensures Submitted(old(pending), pending, old(dirty)[..report.submitted - start.submitted], epoch, old(sections), world)
      ensures report.evicted >= start.evicted
      ensures Answered(admit, submit, report.submitted - start.submitted, asked, report.evicted - start.evicted, stop,
                       report.backpressure, |pending| == limits.maxPending, cacheOrder == [])
      ensures Trimmed(old(sections), sections, old(cacheOrder), cacheOrder, report.evicted - start.evicted)
    {
      hide *;
      KeptSame(sections);
      NothingTrimmed(sections, cacheOrder);
      NothingSubmitted(pending, dirty[..0], epoch, sections, world);
      NothingAsked(admit, submit);
      report := start;
      var question, sent := 0, 0;
      while dirty != []
        invariant CacheCoherent(limits, regs, epoch, nextRevision, sections, world, pending, dirty, cacheOrder)
        invariant SourcesKept(old(sections), sections)
        invariant report == start.(submitted := start.submitted + sent, evicted := report.evicted)
        invariant sent <= |old(dirty)| && dirty == old(dirty)[sent..]
        invariant Submitted(old(pending), pending, old(dirty)[..sent], epoch, old(sections), world)
        invariant report.evicted >= start.evicted && Accounted(admit, submit, sent, question, report.evicted - start.evicted)
        invariant Trimmed(old(sections), sections, old(cacheOrder), cacheOrder, report.evicted - start.evicted)
        decreases |dirty|
      {
        PendingBound(limits, regs, epoch, nextRevision, sections, world, pending, dirty, cacheOrder);
        if |pending| == limits.maxPending {
          EndsBefore(admit, submit, sent, question, report.evicted - start.evicted, Full, Some(JobLimit), true, cacheOrder == []);
          return report.(backpressure := Some(JobLimit)), question, Full;
        }
        var a := dirty[0];
        var refused, evicted;
        ghost var before, order, first := sections, cacheOrder, question;
        refused, question, evicted := Reserve(admit, question);
        KeptTwice(old(sections), before, sections);
        ghost var paid := report.evicted - start.evicted;
        report := report.(evicted := report.evicted + evicted);
        TrimmedTwice(old(sections), before, sections, old(cacheOrder), order, cacheOrder, paid, evicted);
        if refused.Some? {
          EndsUnadmitted(admit, submit, sent, first, question, paid, evicted, refused, |pending| == limits.maxPending, order, cacheOrder);
          return report.(backpressure := refused), question, Unadmitted;
        }
        var job := Snapshot(a, old(sections));
        var closed := submit(sent);
        if closed.Some? {
          EndsRefused(admit, submit, sent, first, question, paid, evicted, |pending| == limits.maxPending, order, cacheOrder);
          return report.(backpressure := closed), question, Refused;
        }
        SubmittedNext(old(pending), pending, old(dirty)[..sent], epoch, old(sections), sections, world, job);
        assert old(dirty)[..sent + 1] == old(dirty)[..sent] + [a];
        AccountedNext(admit, submit, sent, first, question, paid, evicted, order, cacheOrder);
        KeptClean(old(sections), sections, a);
        TrimmedClean(old(sections), sections, old(cacheOrder), cacheOrder, report.evicted - start.evicted, a);
        Accept(job);
        sent := sent + 1;
        report := report.(submitted := report.submitted + 1);
      }
      EndsBefore(admit, submit, sent, question, report.evicted - start.evicted, Emptied, None, |pending| == limits.maxPending, cacheOrder == []);
      return report, question, Emptied;
    }

    /** Copies the oldest dirty section's cells into a job's input buffers. */
    method Snapshot(a: SectionAddress, ghost start: Sections) returns (job: Requested)
      requires SourcesOk(chunks, start, world, regs, nextRevision) && SourcesKept(start, sections)
      requires CacheCoherent(limits, regs, epoch, nextRevision, sections, world, pending, dirty, cacheOrder) && dirty != [] && a == dirty[0]
      ensures a in sections && a in world && CellsOk(world[a], regs) && sections[a].source.counts.Valid() && sections[a].revision <= nextRevision
      ensures job == Requested(a, sections[a].generation, KeyAt(epoch, a, sections[a]), sections[a].source.counts, world[a], false)
    {
      hide CellsOk, SourcesOk, JobOk, SourceShows, OrderOk, CacheOk, JobsOk, NoRepeats;
      assert a in dirty;
      SectionFacts(chunks, start, world, regs, nextRevision, a);
      var source := sections[a].source;
      SourceParts(source, world[a], regs);
      SourceCounts(source, world[a], regs);
      var blocks := Densify(source.blocks, world[a].blocks);
      var biomes := Densify(source.biomes, world[a].biomes);
      job := Requested(a, sections[a].generation, KeyAt(epoch, a, sections[a]), source.counts, Cells(blocks, biomes), false);
    }

    /** One nonblocking round. The completions may arrive in any order, now or never. */
    method Drive(poll: Requested -> Poll, admit: nat -> Option<AdmissionError>, submit: nat -> Option<AdmissionError>)
        returns (report: Report, ghost asked: seq<Requested>, ghost replaced: nat, ghost questions: nat, ghost stop: Stop)
      requires Valid()
      modifies `sections, `cacheOrder, `pending, `dirty
      ensures Valid() && SourcesKept(old(sections), sections)
      ensures report.submitted <= |old(dirty)| && dirty == old(dirty)[report.submitted..] && (report.backpressure == None <==> dirty == [])
      ensures report.submitted <= |pending| && Polled(old(pending), pending[..|pending| - report.submitted], asked, poll, report)
      ensures report.submitted <= |pending|
              && Submitted(pending[..|pending| - report.submitted], pending, old(dirty)[..report.submitted], epoch, old(sections), world)
      ensures replaced <= report.published && replaced <= report.evicted
      ensures var taken := CacheAfter(old(cacheOrder), asked, poll, limits.maxCached);
        report.evicted - replaced <= |taken| && cacheOrder == taken[report.evicted - replaced..]
      ensures forall a :: a in sections ==> a in old(sections) && sections[a].failure == FailureAfter(old(sections)[a].failure, a, asked, poll)
      ensures Answered(admit, submit, report.submitted, questions, report.evicted - replaced, stop,
                       report.backpressure, |pending| == limits.maxPending, cacheOrder == [])
    {
      hide Answered, CacheAfter, FailureAfter, SourceShows, DirtyOk, OrderOk, CacheOk, JobsOk, SourcesOk, BytesOk, SourcesKept, Submitted, OfFate;
      WorldKeys(chunks, sections, world, regs, nextRevision);
      ghost var start := sections;
      var first;
      first, asked := TakeFinished(poll);
      replaced := first.evicted;
      KeptSources(chunks, start, sections, world, regs, nextRevision, sourceBytes, limits.sourceBytes);
      ghost var middle := sections;
      ghost var waiting := pending;
      report, questions, stop := SubmitDirty(admit, submit, first);
      SubmittedAgain(waiting, pending, old(dirty)[..report.submitted], epoch, start, middle, world);
      KeptTwice(start, middle, sections);
      KeptSources(chunks, start, sections, world, regs, nextRevision, sourceBytes, limits.sourceBytes);
    }

    // ----- unloading -----

    /** Takes a loaded chunk's sections, their bytes and queue entries away, and cancels its jobs. */
    method RemoveLoaded(chunk: ChunkAddress)
      requires Valid() && chunk in chunks
      modifies `chunks, `sections, `sourceBytes, `pending, `dirty, `cacheOrder, `world
      ensures Valid() && chunks == old(chunks) - {chunk} && IsWithout(old(sections), sections, chunk)
      ensures pending == CancelIn(old(pending), chunk)
    {
      hide *;
      IsCoherent();
      ByteLedger(limits, regs, epoch, nextGeneration, nextRevision, sourceBytes, chunks, sections, world, pending, dirty, cacheOrder);
      var after, bytes := RemoveChunk(sections, sourceBytes, chunk, limits.sourceBytes);
      ghost var left := WorldOutside(world, chunk);
      UnloadKeeps(limits, regs, epoch, nextGeneration, nextRevision, sourceBytes, chunks, sections, world, pending, dirty, cacheOrder, chunk, after, bytes, left);
      pending, dirty, cacheOrder := CancelIn(pending, chunk), OutsideChunk(dirty, chunk), OutsideChunk(cacheOrder, chunk);
      chunks, sections, sourceBytes, world := chunks - {chunk}, after, bytes, left;
      IsValid();
    }

    /** Forgets a chunk: its sections, their bytes and queue entries go, and its jobs are cancelled. */
    method UnloadChunk(chunk: ChunkAddress) returns (r: Result<(), PreparationError>)
      requires Valid()
      modifies this
      ensures Valid() && regs == old(regs) && epoch == old(epoch) && nextRevision == old(nextRevision)
      ensures r == if chunk in old(chunks) then Ok(()) else Err(MissingChunk)
      ensures r.Err? ==> Unchanged()
      ensures r.Ok? ==> chunks == old(chunks) - {chunk} && IsWithout(old(sections), sections, chunk)
                        && pending == CancelIn(old(pending), chunk)
    {
      hide Valid, IsWithout, CancelIn;
      if chunk !in chunks {
        return Err(MissingChunk);
      }
      RemoveLoaded(chunk);
      r := Ok(());
    }

    /** Starts a new epoch with nothing loaded; revisions and generations go on. */
    method Reload(newRegs: Registries) returns (r: Result<u64, PreparationError>)
      requires Valid()
      modifies this
      ensures Valid() && nextRevision == old(nextRevision) && nextGeneration == old(nextGeneration)
      ensures r == if old(epoch) == 0xffff_ffff_ffff_ffff then Err(IdentityExhausted) else Ok(old(epoch) + 1)
      ensures r.Err? ==> Unchanged()
      ensures r.Ok? ==> epoch == r.value && regs == newRegs && sections == map[] && chunks == map[] && pending == [] && sourceBytes == 0
    {
      hide Coherent;
      IsCoherent();
      if epoch == 0xffff_ffff_ffff_ffff {
        return Err(IdentityExhausted);
      }
      NothingLoaded(limits, newRegs, epoch + 1, nextGeneration, nextRevision);
      epoch := epoch + 1;
      chunks, sections, pending, dirty, cacheOrder, sourceBytes := map[], map[], [], [], [], 0;
      regs := newRegs;
      world := map[];
      r := Ok(epoch);
    }
  }

  lemma NothingLoaded(limits: Limits, regs: Registries, epoch: u64, nextGeneration: u64, nextRevision: u64)
    ensures Coherent(limits, regs, epoch, nextGeneration, nextRevision, 0, map[], map[], map[], [], [], [])
  {
  }

  lemma ByteLedger(limits: Limits, regs: Registries, epoch: u64, nextGeneration: u64, nextRevision: u64, bytes: nat,
                   chunks: map<ChunkAddress, u64>, sections: Sections, world: map<SectionAddress, Cells>,
                   pending: seq<Requested>, dirty: seq<SectionAddress>, order: seq<SectionAddress>)
    requires Coherent(limits, regs, epoch, nextGeneration, nextRevision, bytes, chunks, sections, world, pending, dirty, order)
    ensures BytesOk(sections, bytes, limits.sourceBytes)
  {
  }

  lemma WorldKeys(chunks: map<ChunkAddress, u64>, sections: Sections, world: map<SectionAddress, Cells>, regs: Registries, rev: u64)
    requires SourcesOk(chunks, sections, world, regs, rev)
    ensures world.Keys == sections.Keys
  {
  }

  lemma KeptSame(a: Sections)
    ensures SourcesKept(a, a)
  {
  }

  lemma KeptClean(start: Sections, sections: Sections, a: SectionAddress)
    requires SourcesKept(start, sections) && a in sections
    ensures SourcesKept(start, sections[a := sections[a].(dirty := false)])
  {
  }

  lemma KeptTwice(a: Sections, b: Sections, c: Sections)
    requires SourcesKept(a, b) && SourcesKept(b, c)
    ensures SourcesKept(a, c)
  {
  }

  lemma SourceCounts(source: Source, cells: Cells, regs: Registries)
    requires SourceShows(source, cells, regs)
    ensures source.counts.Valid()
  {
  }

  lemma JobSnapshot(epoch: u64, sections: Sections, world: map<SectionAddress, Cells>, regs: Registries, rev: u64, p: Requested)
    requires JobOk(epoch, sections, world, regs, rev, p)
    ensures CellsOk(p.cells, regs) && p.counts.Valid() && (p.cancelled <==> !IsCurrent(epoch, sections, p))
  {
  }

  lemma NotInOrder(limits: Limits, regs: Registries, epoch: u64, nextRevision: u64, sections: Sections,
                   world: map<SectionAddress, Cells>, pending: seq<Requested>, dirty: seq<SectionAddress>, order: seq<SectionAddress>,
                   a: SectionAddress)
    requires CacheCoherent(limits, regs, epoch, nextRevision, sections, world, pending, dirty, order)
    requires a in sections && sections[a].cached == None
    ensures a !in order
  {
  }

  lemma OrderBound(limits: Limits, regs: Registries, epoch: u64, nextRevision: u64, sections: Sections,
                   world: map<SectionAddress, Cells>, pending: seq<Requested>, dirty: seq<SectionAddress>, order: seq<SectionAddress>)
    requires CacheCoherent(limits, regs, epoch, nextRevision, sections, world, pending, dirty, order)
    ensures |order| <= limits.maxCached && limits.maxCached > 0
  {
  }

  lemma PendingBound(limits: Limits, regs: Registries, epoch: u64, nextRevision: u64, sections: Sections,
                     world: map<SectionAddress, Cells>, pending: seq<Requested>, dirty: seq<SectionAddress>, order: seq<SectionAddress>)
    requires CacheCoherent(limits, regs, epoch, nextRevision, sections, world, pending, dirty, order)
    ensures |pending| <= limits.maxPending
  {
  }

  ghost predicate NoneWithKey(pending: seq<Requested>, key: SectionKey) {
    forall i :: 0 <= i < |pending| ==> pending[i].key != key
  }

  method AnyWithKey(pending: seq<Requested>, key: SectionKey) returns (found: bool)
    ensures found <==> !NoneWithKey(pending, key)
  {
    for i := 0 to |pending|
      invariant forall k :: 0 <= k < i ==> pending[k].key != key
    {
      if pending[i].key == key {
        return true;
      }
    }
    found := false;
  }

  /** Recording demand leaves the ledger of sources and bytes alone. */
  lemma WantedSources(chunks: map<ChunkAddress, u64>, before: Sections, after: Sections, world: map<SectionAddress, Cells>, regs: Registries,
                      rev: u64, bytes: nat, limit: nat, a: SectionAddress)
    requires SourcesOk(chunks, before, world, regs, rev) && BytesOk(before, bytes, limit) && a in before && a in after
    requires after == before[a := before[a].(wanted := after[a].wanted, failure := after[a].failure, dirty := after[a].dirty)]
    ensures SourcesOk(chunks, after, world, regs, rev) && BytesOk(after, bytes, limit) && |after| == |before|
  {
    hide SourceShows, Sum, HeapOf;
    BytesUpdate(before, a, after[a]);
    SameSize(before, a, after[a]);
    SectionFacts(chunks, before, world, regs, rev, a);
    SourcesUpdate(chunks, before, world, regs, rev, rev, a, after[a], world[a]);
    assert world[a := world[a]] == world;
  }

  // ----- removing a chunk -----

  ghost function WorldOutside(world: map<SectionAddress, Cells>, chunk: ChunkAddress): map<SectionAddress, Cells> {
    map a | a in world && a.chunk != chunk :: world[a]
  }

  ghost predicate IsWithout(before: Sections, after: Sections, chunk: ChunkAddress) {
    && (forall a :: a in after <==> a in before && a.chunk != chunk)
    && (forall a :: a in after ==> after[a] == before[a])
  }

  /** Removes a chunk's sections one by one, giving back their bytes. */
  method RemoveChunk(sections: Sections, bytes: nat, chunk: ChunkAddress, ghost limit: nat) returns (after: Sections, left: nat)
    requires BytesOk(sections, bytes, limit)
    ensures IsWithout(sections, after, chunk) && BytesOk(after, left, limit) && |after| <= |sections|
  {
    after, left := sections, bytes;
    var doomed := set a | a in sections && a.chunk == chunk;
    while doomed != {}
      invariant BytesOk(after, left, limit) && |after| <= |sections|
      invariant forall a :: a in doomed ==> a in after && a.chunk == chunk
      invariant forall a :: a in after <==> a in sections && (a.chunk != chunk || a in doomed)
      invariant forall a :: a in after ==> after[a] == sections[a]
      decreases doomed
    {
      var a :| a in doomed;
      BytesRemove(after, a);
      assert (after - {a}).Keys == after.Keys - {a};
      doomed := doomed - {a};
      left := left - after[a].source.HeapBytes();
      after := after - {a};
    }
  }

  lemma UnloadKeeps(limits: Limits, regs: Registries, epoch: u64, nextGeneration: u64, nextRevision: u64, bytes: nat,
                    chunks: map<ChunkAddress, u64>, sections: Sections, world: map<SectionAddress, Cells>,
                    pending: seq<Requested>, dirty: seq<SectionAddress>, order: seq<SectionAddress>,
                    chunk: ChunkAddress, after: Sections, left: nat, remaining: map<SectionAddress, Cells>)
    requires Coherent(limits, regs, epoch, nextGeneration, nextRevision, bytes, chunks, sections, world, pending, dirty, order)
    requires chunk in chunks && IsWithout(sections, after, chunk) && BytesOk(after, left, limits.sourceBytes) && |after| <= |sections|
    requires remaining == WorldOutside(world, chunk)
    ensures Coherent(limits, regs, epoch, nextGeneration, nextRevision, left, chunks - {chunk}, after, remaining,
                     CancelIn(pending, chunk), OutsideChunk(dirty, chunk), OutsideChunk(order, chunk))
  {
    hide SourceShows, CellsOk, JobOk, CachedNow, NoRepeats, BytesOk, OutsideChunk, CancelIn;
    SourcesUnloaded(chunks, sections, world, regs, nextRevision, chunk, after, remaining);
    OutsideChunkFacts(dirty, chunk);
    OutsideChunkFacts(order, chunk);
    JobsUnloaded(epoch, sections, world, after, remaining, regs, nextRevision, pending, chunk);
    assert |CancelIn(pending, chunk)| == |pending|;
    forall a | a in after && after[a].cached.Some? ensures CachedNow(epoch, a, after[a], remaining, regs) {
      CachedSame(epoch, a, after[a], world, remaining, regs);
    }
  }

  lemma SourcesUnloaded(chunks: map<ChunkAddress, u64>, sections: Sections, world: map<SectionAddress, Cells>, regs: Registries, rev: u64,
                        chunk: ChunkAddress, after: Sections, remaining: map<SectionAddress, Cells>)
    requires SourcesOk(chunks, sections, world, regs, rev) && IsWithout(sections, after, chunk)
    requires remaining == WorldOutside(world, chunk)
    ensures SourcesOk(chunks - {chunk}, after, remaining, regs, rev) && |chunks - {chunk}| <= |chunks|
  {
    hide SourceShows;
    assert (chunks - {chunk}).Keys == chunks.Keys - {chunk};
    assert remaining.Keys == after.Keys;
  }

  lemma CachedSame(epoch: u64, a: SectionAddress, s: Resident, world: map<SectionAddress, Cells>, left: map<SectionAddress, Cells>, regs: Registries)
    requires CachedNow(epoch, a, s, world, regs) && a in left && left[a] == world[a]
    ensures CachedNow(epoch, a, s, left, regs)
  {
  }
}
